/** The image writer of mem-ckpt.c: which memory is saved, and the bytes of the image. */
module Checkpoint {
  import opened Areas
  import opened Bytes
  import opened Listing
  import opened Memory
  import opened MmapWrapper
  import opened Pages
  import opened ProcMaps
  import opened Transfer

  const VVAR: seq<Byte> := [118, 118, 97, 114]
  const VDSO: seq<Byte> := [118, 100, 115, 111]
  const VSYSCALL: seq<Byte> := [118, 115, 121, 115, 99, 97, 108, 108]

  // ---------------------------------------------------------------- selection

  predicate SkipRegion(a: Area) {
    var name := CString(a.name);
    !Readable(a.Prot()) || StrStr(name, VVAR) || StrStr(name, VDSO) || StrStr(name, VSYSCALL)
  }

  /** Readable, and none of the kernel's special areas by name. */
  ghost predicate Wanted(a: Area) {
    a.Prot() % 2 == 1 && !Mentions(a.name, "vvar") && !Mentions(a.name, "vdso") && !Mentions(a.name, "vsyscall")
  }

  /** An area is skipped if and only if it has no read permission or is one of those, writable or not. */
  lemma SkippedIffUnwanted(a: Area)
    ensures SkipRegion(a) <==> !Wanted(a)
  {
    MentionsIffFound(a.name, VVAR, "vvar");
    MentionsIffFound(a.name, VDSO, "vdso");
    MentionsIffFound(a.name, VSYSCALL, "vsyscall");
    hide StrStr, CString, Mentions;
  }

  /** The area's whole name. */
  predicate Named(a: Area, word: string) {
    ReadsAt(a.name, 0, word) && |word| < FILENAMESIZE && a.name[|word|] == 0
  }

  /** So heap, stack and unnamed memory are wanted exactly if readable, whatever their other permissions. */
  lemma OrdinaryAreasWanted(a: Area, word: string)
    requires Named(a, word) && 'v' !in word
    ensures SkipRegion(a) <==> a.Prot() % 2 == 0
    ensures 'v' !in "[heap]" && 'v' !in "[stack]" && 'v' !in ""
  {
    SkippedIffUnwanted(a);
    forall i | 0 <= i < |word| ensures a.name[i] != 'v' as int {
      assert a.name[0 + i] == word[i] as int && word[i] in word;
      assert (word[i] as int) as char == word[i];
    }
    NoWordWithV(a.name, |word|, "vvar");
    NoWordWithV(a.name, |word|, "vdso");
    NoWordWithV(a.name, |word|, "vsyscall");
    hide SkipRegion, Mentions;
  }

  lemma NoWordWithV(buf: seq<Byte>, n: nat, word: string)
    requires n < |buf| && buf[n] == 0 && word != "" && word[0] == 'v'
    requires forall i :: 0 <= i < n ==> buf[i] != 'v' as int
    ensures !Mentions(buf, word)
  {
    forall k: nat | ReadsAt(buf, k, word) ensures 0 in buf[..k + |word|] {
      assert buf[k + 0] == 'v' as int && k > n;
      assert buf[..k + |word|][n] == 0;
    }
  }

  /** And these are never written. */
  lemma SpecialAreasSkipped(a: Area)
    requires Named(a, "[vdso]") || Named(a, "[vvar]") || Named(a, "[vsyscall]")
    ensures SkipRegion(a)
  {
    SkippedIffUnwanted(a);
    hide SkipRegion;
    if Named(a, "[vdso]") {
      BracketedWord(a.name, "vdso", "[vdso]");
    } else if Named(a, "[vvar]") {
      BracketedWord(a.name, "vvar", "[vvar]");
    } else {
      BracketedWord(a.name, "vsyscall", "[vsyscall]");
    }
  }

  lemma BracketedWord(buf: seq<Byte>, word: string, name: string)
    requires ReadsAt(buf, 0, name) && name == "[" + word + "]"
    requires forall i :: 0 <= i < |name| ==> name[i] as int != 0
    ensures Mentions(buf, word)
  {
    assert forall i :: 0 <= i < |word| ==> name[1 + i] == word[i];
    assert ReadsAt(buf, 1, word);
    var head := buf[..1 + |word|];
    forall i | 0 <= i < |head| ensures head[i] != 0 {
      assert buf[0 + i] == name[i] as int;
    }
  }

  /** The loop's test on one tracked region: it contains the area, or is contained in it. */
  predicate Matches(r: Region, a: Area) {
    || RegionContains(r.addr, r.addr + r.len, a.addr, a.endAddr)
    || RegionContains(a.addr, a.endAddr, r.addr, r.addr + r.len)
  }

  /** Index of the first matching region from i on; |tracked| if there is none. */
  function FirstMatch(a: Area, tracked: seq<Region>, i: nat): (k: nat)
    requires i <= |tracked|
    ensures i <= k <= |tracked|
    ensures k < |tracked| ==> Matches(tracked[k], a)
    ensures forall j :: i <= j < k ==> !Matches(tracked[j], a)
    decreases |tracked| - i
  {
    if i == |tracked| || Matches(tracked[i], a) then i else FirstMatch(a, tracked, i + 1)
  }

  /** The area record written for a match: the whole area, or the part that is the tracked region. */
  function Cut(a: Area, r: Region): Area
    requires MmapArgsOk(r.addr, r.len)
  {
    if RegionContains(r.addr, r.addr + r.len, a.addr, a.endAddr) then a
    else a.(addr := r.addr, endAddr := r.addr + r.len, size := r.len)
  }

  /** The area is written: it is not skipped, and some tracked region matches it. */
  predicate Picked(a: Area, tracked: seq<Region>) {
    !SkipRegion(a) && FirstMatch(a, tracked, 0) < |tracked|
  }

  function Written(a: Area, tracked: seq<Region>): Area
    requires LogOk(tracked) && FirstMatch(a, tracked, 0) < |tracked|
  {
    Cut(a, tracked[FirstMatch(a, tracked, 0)])
  }

  /** Which listed areas are written: all those picked, in order. */
  function Sources(areas: seq<Area>, tracked: seq<Region>): (src: seq<nat>)
    ensures |src| <= |areas|
    ensures forall i :: 0 <= i < |src| ==> src[i] < |areas| && Picked(areas[src[i]], tracked)
    ensures forall i, j :: 0 <= i < j < |src| ==> src[i] < src[j]
    ensures forall k :: 0 <= k < |areas| && Picked(areas[k], tracked) ==> k in src
  {
    if areas == [] then []
    else
      var n := |areas| - 1;
      assert forall k :: 0 <= k < n ==> areas[..n][k] == areas[k];
      Sources(areas[..n], tracked) + (if Picked(areas[n], tracked) then [n] else [])
  }

  /** The area records written for a listing. */
  function Selected(areas: seq<Area>, tracked: seq<Region>): (out: seq<Area>)
    requires LogOk(tracked)
    ensures |out| == |Sources(areas, tracked)|
  {
    var src := Sources(areas, tracked);
    seq(|src|, i requires 0 <= i < |src| => Written(areas[src[i]], tracked))
  }

  lemma SelectedAppend(areas: seq<Area>, tracked: seq<Region>, a: Area)
    requires LogOk(tracked)
    ensures Selected(areas + [a], tracked) ==
            Selected(areas, tracked) + (if Picked(a, tracked) then [Written(a, tracked)] else [])
  {
    var longer := areas + [a];
    assert longer[..|longer| - 1] == areas;
    var src, src' := Sources(areas, tracked), Sources(longer, tracked);
    assert src' == src + (if Picked(a, tracked) then [|areas|] else []);
    assert forall i :: 0 <= i < |src| ==> longer[src[i]] == areas[src[i]];
  }

  // ---------------------------------------------------------------- the image

  /** One record of the image: an area and the bytes it holds. */
  datatype Record = Record(area: Area, data: seq<Byte>)

  function RecordBytes(recs: seq<Record>): seq<Byte> {
    if recs == [] then [] else Encode(recs[0].area) + recs[0].data + RecordBytes(recs[1..])
  }

  lemma {:induction false} RecordBytesAppend(recs: seq<Record>, r: Record)
    ensures RecordBytes(recs + [r]) == RecordBytes(recs) + Encode(r.area) + r.data
  {
    if recs == [] {
      assert recs + [r] == [r];
      assert RecordBytes([r]) == Encode(r.area) + r.data + RecordBytes([]);
    } else {
      assert (recs + [r])[1..] == recs[1..] + [r];
      RecordBytesAppend(recs[1..], r);
    }
  }

  ghost predicate AllMapped(areas: seq<Area>, s: Space) {
    forall i :: 0 <= i < |areas| ==> Mapped(s, areas[i].addr, areas[i].addr + areas[i].size)
  }

  /** The areas with the bytes that memory holds for them. */
  function Snapshot(areas: seq<Area>, s: Space): (recs: seq<Record>)
    requires AllMapped(areas, s)
    ensures |recs| == |areas|
    ensures forall i :: 0 <= i < |recs| ==> recs[i] == Record(areas[i], Load(s, areas[i].addr, areas[i].size))
  {
    seq(|areas|, i requires 0 <= i < |areas| => Record(areas[i], Load(s, areas[i].addr, areas[i].size)))
  }

  // ---------------------------------------------------------------- what the selection means

  predicate Tracks(r: Region, x: nat) {
    r.addr <= x < r.addr + r.len
  }

  predicate Holds(a: Area, x: nat) {
    a.addr <= x < a.addr + a.size
  }

  /** w is the meeting of the listed area and the tracked region, and keeps within the area's pages. */
  ghost predicate Section(w: Area, a: Area, r: Region) {
    && MmapArgsOk(w.addr, w.size) && w.endAddr == w.addr + w.size && w.Prot() == a.Prot()
    && a.addr <= w.addr && RoundUp(w.addr + w.size) <= a.endAddr
    && forall x :: Holds(w, x) <==> InArea(a, x) && Tracks(r, x)
  }

  lemma CutIsSection(a: Area, r: Region)
    requires AreaOk(a) && MmapArgsOk(r.addr, r.len) && Matches(r, a)
    ensures Section(Cut(a, r), a, r)
  {
    var w := Cut(a, r);
    RoundUpShift(w.addr, w.size);
    RoundUpShift(r.addr, r.len);
    RoundingIsTight(a.endAddr, a.endAddr);
    RoundingIsTight(r.addr + r.len, a.endAddr);
  }

  /** A record that restore can map by itself: page-aligned start, non-empty, within user space. */
  ghost predicate Restorable(w: Area) {
    MmapArgsOk(w.addr, w.size) && ValidProt(w.Prot())
  }

  /** After page rounding the areas are pairwise disjoint and ascending. */
  ghost predicate PageDisjoint(areas: seq<Area>) {
    forall i, j :: 0 <= i < j < |areas| ==> PagesBefore(areas[i], areas[j])
  }

  predicate PagesBefore(a: Area, b: Area) {
    RoundUp(a.addr + a.size) <= b.addr
  }

  /** A record's pages, that is the range it occupies once restored. */
  predicate OnPages(w: Area, x: nat) {
    w.addr <= x < RoundUp(w.addr + w.size)
  }

  /** A region and an area share an address. */
  predicate Meets(r: Region, a: Area) {
    r.addr < a.endAddr && a.addr < r.addr + r.len
  }

  ghost predicate Saved(areas: seq<Area>, tracked: seq<Region>, x: nat)
    requires LogOk(tracked)
  {
    exists i :: 0 <= i < |Selected(areas, tracked)| && Holds(Selected(areas, tracked)[i], x)
  }

  lemma ListedAreaMapped(areas: seq<Area>, s: Space, k: nat)
    requires Lists(areas, s) && WholePages(s) && k < |areas|
    ensures MappedWith(s, areas[k].addr, areas[k].endAddr, areas[k].Prot()) && ValidProt(areas[k].Prot())
  {
    var a := areas[k];
    forall x | a.addr <= x < a.endAddr ensures x in s && s[x].prot == a.Prot() {
      assert InArea(a, x);
    }
    assert AreaOk(a) && InArea(a, a.addr) && a.addr in s;
  }

  /** What a single written area is, in terms of the listed area it was cut from. */
  lemma SelectedAt(areas: seq<Area>, tracked: seq<Region>, s: Space, i: nat)
    requires Lists(areas, s) && WholePages(s) && LogOk(tracked) && i < |Selected(areas, tracked)|
    ensures var w, k := Selected(areas, tracked)[i], Sources(areas, tracked)[i];
            && k < |areas| && Picked(areas[k], tracked)
            && Section(w, areas[k], tracked[FirstMatch(areas[k], tracked, 0)])
            && Restorable(w) && Readable(w.Prot())
            && MappedWith(s, w.addr, RoundUp(w.addr + w.size), w.Prot())
  {
    var k := Sources(areas, tracked)[i];
    var w, r := Selected(areas, tracked)[i], tracked[FirstMatch(areas[k], tracked, 0)];
    assert AreaOk(areas[k]) && MmapArgsOk(r.addr, r.len) && w == Cut(areas[k], r) && Readable(areas[k].Prot());
    ListedAreaMapped(areas, s, k);
    hide *;
    CutIsSection(areas[k], r);
    SectionMapped(w, areas[k], r, s);
  }

  lemma SectionMapped(w: Area, a: Area, r: Region, s: Space)
    requires Section(w, a, r) && MappedWith(s, a.addr, a.endAddr, a.Prot()) && ValidProt(a.Prot())
    ensures Restorable(w) && w.Prot() == a.Prot() && MappedWith(s, w.addr, RoundUp(w.addr + w.size), w.Prot())
  {
    hide RoundUp, MmapArgsOk;
  }

  /** A written area lies, pages and all, in mapped memory of its own protection. */
  ghost predicate Sound(w: Area, s: Space) {
    Restorable(w) && MappedWith(s, w.addr, RoundUp(w.addr + w.size), w.Prot())
  }

  /** The areas written by one checkpoint lie in mapped memory of their own protection. */
  lemma SelectedIsSound(areas: seq<Area>, tracked: seq<Region>, s: Space)
    requires Lists(areas, s) && WholePages(s) && LogOk(tracked)
    ensures forall i :: 0 <= i < |Selected(areas, tracked)| ==> Sound(Selected(areas, tracked)[i], s)
  {
    forall i | 0 <= i < |Selected(areas, tracked)| ensures Sound(Selected(areas, tracked)[i], s) {
      SelectedAt(areas, tracked, s, i);
    }
  }

  /** They ascend, and stay apart even when rounded up to pages. */
  lemma SelectedIsPageDisjoint(areas: seq<Area>, tracked: seq<Region>, s: Space)
    requires Lists(areas, s) && WholePages(s) && LogOk(tracked)
    ensures PageDisjoint(Selected(areas, tracked))
  {
    forall i, j | 0 <= i < j < |Selected(areas, tracked)|
      ensures PagesBefore(Selected(areas, tracked)[i], Selected(areas, tracked)[j])
    {
      SelectedPairDisjoint(areas, tracked, s, i, j);
    }
  }

  lemma SelectedPairDisjoint(areas: seq<Area>, tracked: seq<Region>, s: Space, i: nat, j: nat)
    requires Lists(areas, s) && WholePages(s) && LogOk(tracked) && i < j < |Selected(areas, tracked)|
    ensures PagesBefore(Selected(areas, tracked)[i], Selected(areas, tracked)[j])
  {
    var src := Sources(areas, tracked);
    SelectedAt(areas, tracked, s, i);
    SelectedAt(areas, tracked, s, j);
    assert areas[src[i]].endAddr <= areas[src[j]].addr;
  }

  lemma SoundIsMapped(sel: seq<Area>, s: Space)
    requires forall i :: 0 <= i < |sel| ==> Sound(sel[i], s)
    ensures AllMapped(sel, s)
  {
    forall i | 0 <= i < |sel| ensures Mapped(s, sel[i].addr, sel[i].addr + sel[i].size) {
      assert Sound(sel[i], s);
      RoundingIsTight(sel[i].addr + sel[i].size, sel[i].addr);
    }
  }

  /** The same with the loop's own tests. */
  lemma SavedIffPicked(areas: seq<Area>, tracked: seq<Region>, s: Space, x: nat)
    requires Lists(areas, s) && WholePages(s) && LogOk(tracked)
    ensures Saved(areas, tracked, x) <==>
            exists k :: 0 <= k < |areas| && Picked(areas[k], tracked) && InArea(areas[k], x)
                        && Tracks(tracked[FirstMatch(areas[k], tracked, 0)], x)
  {
    var sel, src := Selected(areas, tracked), Sources(areas, tracked);
    if Saved(areas, tracked, x) {
      var i :| 0 <= i < |sel| && Holds(sel[i], x);
      SelectedAt(areas, tracked, s, i);
      assert InArea(areas[src[i]], x);
    }
    if k :| 0 <= k < |areas| && Picked(areas[k], tracked) && InArea(areas[k], x)
            && Tracks(tracked[FirstMatch(areas[k], tracked, 0)], x) {
      var i :| 0 <= i < |src| && src[i] == k;
      SelectedAt(areas, tracked, s, i);
      assert Holds(sel[i], x);
    }
  }

  /**
   Soundness and exactness of the selection, for every listing and tracked list: a byte is saved exactly when it lies
   in an area that is readable and not named for vvar, vdso or vsyscall, and in the first tracked region that
   matches that area.
   */
  lemma SavedIffInFirstMatch(areas: seq<Area>, tracked: seq<Region>, s: Space, x: nat)
    requires Lists(areas, s) && WholePages(s) && LogOk(tracked)
    ensures Saved(areas, tracked, x) <==>
            exists k :: 0 <= k < |areas| && Wanted(areas[k]) && InArea(areas[k], x)
                        && InFirstMatch(areas[k], tracked, x)
  {
    SavedIffPicked(areas, tracked, s, x);
    forall k | 0 <= k < |areas|
      ensures Wanted(areas[k]) && InFirstMatch(areas[k], tracked, x) <==>
              Picked(areas[k], tracked) && Tracks(tracked[FirstMatch(areas[k], tracked, 0)], x)
    {
      SkippedIffUnwanted(areas[k]);
      hide SkipRegion, Wanted, FirstMatch;
    }
    hide Wanted, Picked, Saved, InFirstMatch;
  }

  predicate InFirstMatch(a: Area, tracked: seq<Region>, x: nat) {
    FirstMatch(a, tracked, 0) < |tracked| && Tracks(tracked[FirstMatch(a, tracked, 0)], x)
  }

  /** A byte of the heap or the stack is saved if the area is readable and its first match holds the byte. */
  lemma HeapAndStackSaved(areas: seq<Area>, tracked: seq<Region>, s: Space, k: nat, x: nat)
    requires Lists(areas, s) && WholePages(s) && LogOk(tracked) && k < |areas| && InArea(areas[k], x)
    requires Named(areas[k], "[heap]") || Named(areas[k], "[stack]") || Named(areas[k], "")
    requires InFirstMatch(areas[k], tracked, x)
    ensures areas[k].Prot() % 2 == 1 ==> Saved(areas, tracked, x)
  {
    OrdinaryAreasWanted(areas[k], if Named(areas[k], "[heap]") then "[heap]"
                                  else if Named(areas[k], "[stack]") then "[stack]" else "");
    SavedIffPicked(areas, tracked, s, x);
    hide SkipRegion;
  }

  /** No byte is saved twice. */
  lemma SavedOnce(areas: seq<Area>, tracked: seq<Region>, s: Space, i: nat, j: nat, x: nat)
    requires Lists(areas, s) && WholePages(s) && LogOk(tracked)
    requires i < |Selected(areas, tracked)| && j < |Selected(areas, tracked)|
    requires Holds(Selected(areas, tracked)[i], x) && Holds(Selected(areas, tracked)[j], x)
    ensures i == j
  {
    var sel := Selected(areas, tracked);
    SelectedIsPageDisjoint(areas, tracked, s);
    RoundingIsTight(sel[i].addr + sel[i].size, 0);
    RoundingIsTight(sel[j].addr + sel[j].size, 0);
  }

  /** On bounds alone: what r has in common with a lies within m. */
  predicate CommonPartWithin(r: Region, a: Area, m: Region) {
    && (m.addr <= r.addr || m.addr <= a.addr)
    && (r.addr + r.len <= m.addr + m.len || a.endAddr <= m.addr + m.len)
  }

  /**
   What the tracked regions have in common with the area lies within the first region that matches it.
   */
  ghost predicate FirstMatchCovers(a: Area, tracked: seq<Region>) {
    var k := FirstMatch(a, tracked, 0);
    forall j :: 0 <= j < |tracked| && Meets(tracked[j], a) ==>
      k < |tracked| && CommonPartWithin(tracked[j], a, tracked[k])
  }

  /** Every tracked byte of a listed area is saved if and only if its first match covers them all. */
  lemma AreaCompleteIff(areas: seq<Area>, tracked: seq<Region>, s: Space, k: nat)
    requires Lists(areas, s) && WholePages(s) && LogOk(tracked) && k < |areas| && !SkipRegion(areas[k])
    ensures (forall x, j :: 0 <= j < |tracked| && InArea(areas[k], x) && Tracks(tracked[j], x) ==>
             Saved(areas, tracked, x))
            <==> FirstMatchCovers(areas[k], tracked)
  {
    var a, m := areas[k], FirstMatch(areas[k], tracked, 0);
    if FirstMatchCovers(a, tracked) {
      forall x, j | 0 <= j < |tracked| && InArea(a, x) && Tracks(tracked[j], x) ensures Saved(areas, tracked, x) {
        assert Meets(tracked[j], a);
        SavedIffPicked(areas, tracked, s, x);
      }
    } else {
      var j :| 0 <= j < |tracked| && Meets(tracked[j], a)
          && !(m < |tracked| && CommonPartWithin(tracked[j], a, tracked[m]));
      var x := LostByte(areas, tracked, s, k, j);
    }
  }

  /** A tracked byte that is not saved. */
  lemma LostByte(areas: seq<Area>, tracked: seq<Region>, s: Space, k: nat, j: nat) returns (x: nat)
    requires Lists(areas, s) && WholePages(s) && LogOk(tracked) && k < |areas| && j < |tracked|
    requires Meets(tracked[j], areas[k])
    requires var m := FirstMatch(areas[k], tracked, 0);
             !(m < |tracked| && CommonPartWithin(tracked[j], areas[k], tracked[m]))
    ensures InArea(areas[k], x) && Tracks(tracked[j], x) && !Saved(areas, tracked, x)
  {
    var a, r, m := areas[k], tracked[j], FirstMatch(areas[k], tracked, 0);
    var lo := if r.addr <= a.addr then a.addr else r.addr;
    var hi := if r.addr + r.len <= a.endAddr then r.addr + r.len else a.endAddr;
    x := if m < |tracked| && tracked[m].addr <= lo then hi - 1 else lo;
    assert InArea(a, x) && Tracks(r, x) && AreaOk(a);
    assert m < |tracked| ==> !Tracks(tracked[m], x);
    SavedIffPicked(areas, tracked, s, x);
    forall k' | 0 <= k' < |areas| && InArea(areas[k'], x) ensures k' == k {
      assert areas[k].endAddr <= areas[k'].addr || areas[k'].endAddr <= areas[k].addr || k == k';
    }
  }

  /** The usual shape: no region straddles the area's bounds, and one inside it is alone there. */
  ghost predicate CleanlyTracked(a: Area, tracked: seq<Region>) {
    forall j :: 0 <= j < |tracked| && Meets(tracked[j], a) ==>
      || RegionContains(tracked[j].addr, tracked[j].addr + tracked[j].len, a.addr, a.endAddr)
      || (RegionContains(a.addr, a.endAddr, tracked[j].addr, tracked[j].addr + tracked[j].len)
          && forall i :: 0 <= i < |tracked| && Meets(tracked[i], a) ==> i == j)
  }

  lemma CleanlyTrackedIsCovered(a: Area, tracked: seq<Region>)
    requires AreaOk(a) && LogOk(tracked) && CleanlyTracked(a, tracked)
    ensures FirstMatchCovers(a, tracked)
  {
    var k := FirstMatch(a, tracked, 0);
    forall j | 0 <= j < |tracked| && Meets(tracked[j], a)
      ensures k < |tracked| && Meets(tracked[k], a)
    {
      assert Matches(tracked[j], a);
      assert MmapArgsOk(tracked[k].addr, tracked[k].len);
    }
  }

  /** For regions that do not overlap each other, completeness means: at most one meets the area, and it matches. */
  lemma DisjointRegionsCompleteIff(a: Area, tracked: seq<Region>)
    requires AreaOk(a) && LogOk(tracked)
    requires forall i, j :: 0 <= i < j < |tracked| ==>
               tracked[i].addr + tracked[i].len <= tracked[j].addr
                   || tracked[j].addr + tracked[j].len <= tracked[i].addr
    ensures FirstMatchCovers(a, tracked) <==>
            && (forall j :: 0 <= j < |tracked| && Meets(tracked[j], a) ==> Matches(tracked[j], a))
            && (forall i, j :: 0 <= i < j < |tracked| ==> !(Meets(tracked[i], a) && Meets(tracked[j], a)))
  {
    var k := FirstMatch(a, tracked, 0);
    if FirstMatchCovers(a, tracked) {
      forall j | 0 <= j < |tracked| && Meets(tracked[j], a) ensures j == k {
        assert tracked[j] in tracked && tracked[k] in tracked;
      }
    }
  }

  /** A byte of a listed area is lost if the area's first match, should it have one, does not hold it. */
  lemma OffFirstMatchIsLost(areas: seq<Area>, tracked: seq<Region>, s: Space, k: nat, x: nat)
    requires Lists(areas, s) && WholePages(s) && LogOk(tracked) && k < |areas| && InArea(areas[k], x)
    requires var m := FirstMatch(areas[k], tracked, 0); m < |tracked| ==> !Tracks(tracked[m], x)
    ensures !Saved(areas, tracked, x)
  {
    SavedIffPicked(areas, tracked, s, x);
    forall k' | 0 <= k' < |areas| && InArea(areas[k'], x) ensures k' == k {
      assert areas[k].endAddr <= areas[k'].addr || areas[k'].endAddr <= areas[k].addr || k == k';
    }
  }

  /**
   A heap that grew past its first 100 pages: the first page is inaccessible, the rest is listed as one area that
   goes on beyond them, and the region of these pages straddles the area's start. Whatever else is tracked, if
   all that meets the area lies above them, no byte of the accessible ones is saved.
   */
  lemma GrownHeapLosesItsFirstPages(areas: seq<Area>, tracked: seq<Region>, s: Space, k: nat, i: nat, h: nat, x: nat)
    requires Lists(areas, s) && WholePages(s) && LogOk(tracked) && k < |areas|
    requires i < |tracked| && tracked[i] == Region(h, 100 * PAGE_SIZE)
    requires areas[k].addr == h + PAGE_SIZE && areas[k].endAddr > h + 100 * PAGE_SIZE
    requires forall j :: 0 <= j < |tracked| && j != i && Meets(tracked[j], areas[k]) ==>
               h + 100 * PAGE_SIZE <= tracked[j].addr
    requires h + PAGE_SIZE <= x < h + 100 * PAGE_SIZE
    ensures Tracks(tracked[i], x) && InArea(areas[k], x) && !Saved(areas, tracked, x)
  {
    var a, m := areas[k], FirstMatch(areas[k], tracked, 0);
    assert !Matches(tracked[i], a);
    if m < |tracked| && Tracks(tracked[m], x) {
      assert Meets(tracked[m], a) && m != i;
    }
    OffFirstMatchIsLost(areas, tracked, s, k, x);
  }

  /**
   Of regions that the kernel lists as one area only the first in the list is saved: where an earlier one lies in
   the area, every byte of a later one that overlaps none before it is lost.
   */
  lemma MergedNeighboursLoseTheSecond(areas: seq<Area>, tracked: seq<Region>, s: Space, k: nat, i: nat, j: nat, x: nat)
    requires Lists(areas, s) && WholePages(s) && LogOk(tracked) && k < |areas| && i < j < |tracked|
    requires areas[k].addr <= tracked[i].addr && tracked[i].addr + tracked[i].len <= areas[k].endAddr
    requires forall m :: 0 <= m < j ==> || tracked[m].addr + tracked[m].len <= tracked[j].addr
                                        || tracked[j].addr + tracked[j].len <= tracked[m].addr
    requires Tracks(tracked[j], x) && InArea(areas[k], x)
    ensures !Saved(areas, tracked, x)
  {
    assert Matches(tracked[i], areas[k]);
    OffFirstMatchIsLost(areas, tracked, s, k, x);
  }

  // ---------------------------------------------------------------- the writer as a program

  /** What writeRelevantMemoryRegion writes for an area: one record, or none. */
  ghost function MatchedRecord(a: Area, tracked: seq<Region>, s: Space): seq<Record>
    requires AreaOk(a) && LogOk(tracked) && Mapped(s, a.addr, a.endAddr)
  {
    if Readable(a.Prot()) && FirstMatch(a, tracked, 0) < |tracked| then
      var w := Written(a, tracked);
      assert Mapped(s, w.addr, w.addr + w.size) by {
        CutIsSection(a, tracked[FirstMatch(a, tracked, 0)]);
        RoundingIsTight(w.addr + w.size, a.endAddr);
      }
      [Record(w, Load(s, w.addr, w.size))]
    else []
  }

  /** The records that one listed area contributes: none if it is skipped. */
  ghost function Contribution(a: Area, tracked: seq<Region>, s: Space): seq<Record>
    requires AreaOk(a) && LogOk(tracked) && Mapped(s, a.addr, a.endAddr)
  {
    if SkipRegion(a) then [] else MatchedRecord(a, tracked, s)
  }

  /** The records of a whole checkpoint. */
  ghost function CheckpointRecords(areas: seq<Area>, tracked: seq<Region>, s: Space): (recs: seq<Record>)
    requires Lists(areas, s) && WholePages(s) && LogOk(tracked)
  {
    SelectedIsSound(areas, tracked, s);
    SoundIsMapped(Selected(areas, tracked), s);
    Snapshot(Selected(areas, tracked), s)
  }

  /** The image: the saved context, then the records. */
  ghost function ImageBytes(ctx: seq<Byte>, recs: seq<Record>): seq<Byte> {
    ctx + RecordBytes(recs)
  }

  /** writeMemoryRegion. */
  method WriteMemoryRegion(f: File, os: AddressSpace, a: Area)
    requires Mapped(os.space, a.addr, a.addr + a.size)
    modifies f`contents, f`schedule
    ensures Benign(old(f.schedule)) ==>
              Benign(f.schedule) && f.contents == old(f.contents) + Encode(a) + Load(os.space, a.addr, a.size)
  {
    var head, data := Encode(a), Load(os.space, a.addr, a.size);
    WritingIfBenign(f.schedule, head);
    var rc := WriteAll(f, head);
    WritingIfBenign(f.schedule, data);
    var rc' := WriteAll(f, data);
  }

  lemma WritingIfBenign(schedule: seq<Event>, buf: seq<Byte>)
    ensures Benign(schedule) ==>
              var t := Writing(schedule, |buf|); t.moved == |buf| && buf[..t.moved] == buf && Benign(t.rest)
  {
    if Benign(schedule) {
      WritingBenign(schedule, |buf|);
    }
  }

  /** What the upper half's list pointer answers; without one nothing is tracked. */
  ghost function TrackedBy(lh: Tracker?): seq<Region>
    reads lh
  {
    if lh == null then [] else ReportedList(lh.log)
  }

  /** One turn of the matching loop: go on, or write the area or the tracked part of it. */
  lemma MatchTurn(a: Area, tracked: seq<Region>, s: Space, k: nat)
    requires AreaOk(a) && LogOk(tracked) && Mapped(s, a.addr, a.endAddr) && Readable(a.Prot())
    requires k < |tracked| && FirstMatch(a, tracked, 0) == FirstMatch(a, tracked, k)
    ensures var r, saved := tracked[k], RecordBytes(MatchedRecord(a, tracked, s));
            var start, end := r.addr, r.addr + r.len;
            if RegionContains(start, end, a.addr, a.endAddr) then
              Mapped(s, a.addr, a.addr + a.size) && saved == Encode(a) + Load(s, a.addr, a.size)
            else if RegionContains(a.addr, a.endAddr, start, end) then
              end < WORD && Mapped(s, start, end)
                  && saved == Encode(a.(addr := start, endAddr := end, size := r.len)) + Load(s, start, r.len)
            else FirstMatch(a, tracked, 0) == FirstMatch(a, tracked, k + 1)
  {
    var r := tracked[k];
    assert r in tracked;
    if Matches(r, a) {
      var w := Cut(a, r);
      CutIsSection(a, r);
      RoundingIsTight(w.addr + w.size, a.endAddr);
      var rec := Record(w, Load(s, w.addr, w.size));
      assert MatchedRecord(a, tracked, s) == [rec];
      assert RecordBytes([rec]) == Encode(w) + rec.data + RecordBytes([]) == Encode(w) + rec.data;
    }
  }

  lemma NoMatch(a: Area, tracked: seq<Region>, s: Space)
    requires AreaOk(a) && LogOk(tracked) && Mapped(s, a.addr, a.endAddr)
    requires FirstMatch(a, tracked, 0) == FirstMatch(a, tracked, |tracked|)
    ensures RecordBytes(MatchedRecord(a, tracked, s)) == []
  {
  }

  /** writeRelevantMemoryRegion: the loop over the tracked list, up to its first match. */
  method WriteRelevantMemoryRegion(f: File, os: AddressSpace, lh: Tracker?, a: Area)
    requires AreaOk(a) && Mapped(os.space, a.addr, a.endAddr)
    requires (lh != null ==> lh.Valid()) && LogOk(TrackedBy(lh))
    modifies f`contents, f`schedule
    ensures Benign(old(f.schedule)) ==>
              Benign(f.schedule)
              && f.contents == old(f.contents) + RecordBytes(MatchedRecord(a, TrackedBy(lh), os.space))
  {
    if !Readable(a.Prot()) {
      return;
    }
    if lh == null {
      NoMatch(a, [], os.space);
      return;
    }
    var num, list := lh.GetMmappedList();
    WriteFirstMatch(f, os, list, num, a, TrackedBy(lh));
  }

  method WriteFirstMatch(f: File, os: AddressSpace, list: array<Region>, num: nat, a: Area, ghost tracked: seq<Region>)
    requires AreaOk(a) && Mapped(os.space, a.addr, a.endAddr) && Readable(a.Prot())
    requires num <= list.Length && list[..num] == tracked && LogOk(tracked)
    modifies f`contents, f`schedule
    ensures Benign(old(f.schedule)) ==>
              Benign(f.schedule) && f.contents == old(f.contents) + RecordBytes(MatchedRecord(a, tracked, os.space))
  {
    hide *;
    var i := 0;
    while i < num
      invariant i <= num && FirstMatch(a, tracked, 0) == FirstMatch(a, tracked, i)
      invariant f.contents == old(f.contents) && f.schedule == old(f.schedule)
    {
      assert list[i] == list[..num][i];
      MatchTurn(a, tracked, os.space, i);
      var start, end := list[i].addr, list[i].addr + list[i].len;
      if RegionContains(start, end, a.addr, a.endAddr) {
        WriteMemoryRegion(f, os, a);
        break;
      } else if RegionContains(a.addr, a.endAddr, start, end) {
        WriteMemoryRegion(f, os, a.(addr := start, endAddr := end, size := list[i].len));
        break;
      }
      i := i + 1;
    }
    if i == num {
      NoMatch(a, tracked, os.space);
    }
  }

  /** Records of the areas seen so far. */
  ghost predicate WrittenSoFar(contents: seq<Byte>, before: seq<Byte>, areas: seq<Area>, tracked: seq<Region>, s: Space)
    requires LogOk(tracked)
  {
    AllMapped(Selected(areas, tracked), s) && contents == before + RecordBytes(Snapshot(Selected(areas, tracked), s))
  }

  lemma WrittenNext(contents: seq<Byte>, before: seq<Byte>, areas: seq<Area>, a: Area, tracked: seq<Region>, s: Space)
    requires LogOk(tracked) && WrittenSoFar(contents, before, areas, tracked, s)
    requires AreaOk(a) && Mapped(s, a.addr, a.endAddr)
    ensures WrittenSoFar(contents + RecordBytes(Contribution(a, tracked, s)), before, areas + [a], tracked, s)
    ensures SkipRegion(a) ==> contents + RecordBytes(Contribution(a, tracked, s)) == contents
  {
    SelectedAppend(areas, tracked, a);
    var sel, sel' := Selected(areas, tracked), Selected(areas + [a], tracked);
    assert contents + [] == contents;
    if Picked(a, tracked) {
      var r := Contribution(a, tracked, s)[0];
      AllMappedNext(sel, r.area, s);
      assert sel' == sel + [r.area] && Contribution(a, tracked, s) == [r];
      AppendRecord(contents, before, Snapshot(sel, s), r);
      SnapshotAppend(sel, r.area, s);
    } else {
      assert sel' == sel;
    }
  }

  lemma AppendRecord(contents: seq<Byte>, before: seq<Byte>, recs: seq<Record>, r: Record)
    requires contents == before + RecordBytes(recs)
    ensures contents + RecordBytes([r]) == before + RecordBytes(recs + [r])
  {
    RecordBytesAppend(recs, r);
    assert RecordBytes([r]) == Encode(r.area) + r.data + RecordBytes([]) == Encode(r.area) + r.data;
    hide *;
  }

  lemma SnapshotAppend(sel: seq<Area>, w: Area, s: Space)
    requires AllMapped(sel, s) && AllMapped(sel + [w], s) && Mapped(s, w.addr, w.addr + w.size)
    ensures Snapshot(sel + [w], s) == Snapshot(sel, s) + [Record(w, Load(s, w.addr, w.size))]
  {
    hide Load;
    var longer := sel + [w];
    assert forall i :: 0 <= i < |sel| ==> longer[i] == sel[i];
  }

  lemma AllMappedNext(sel: seq<Area>, w: Area, s: Space)
    requires AllMapped(sel, s) && Mapped(s, w.addr, w.addr + w.size)
    ensures AllMapped(sel + [w], s)
  {
    var longer := sel + [w];
    forall i | 0 <= i < |longer| ensures Mapped(s, longer[i].addr, longer[i].addr + longer[i].size) {
      if i < |sel| {
        assert longer[i] == sel[i];
      }
    }
  }

  /**
   checkpointMemory: reads the maps file line by line and writes what is relevant. For some listing of
   the address space the image gets exactly that checkpoint's records.
   */
  method CheckpointMemory(f: File, os: AddressSpace, lh: Tracker?) returns (ghost areas: seq<Area>)
    requires os.Valid() && (lh != null ==> lh.Valid())
    modifies f`contents, f`schedule
    ensures Lists(areas, os.space) && LogOk(TrackedBy(lh))
    ensures Benign(old(f.schedule)) ==>
              Benign(f.schedule)
              && f.contents == old(f.contents) + RecordBytes(CheckpointRecords(areas, TrackedBy(lh), os.space))
  {
    ghost var lines;
    var maps;
    maps, lines := OpenMaps(os);
    TrackedIsOk(lh);
    areas := WriteListed(f, os, lh, maps, lines);
    DescribedAreasList(areas, lines, os.space);
    AllWritten(f.contents, old(f.contents), areas, TrackedBy(lh), os.space);
  }

  /**
   The writing half of checkpointHandler, on the image that open() has truncated: the context, then
   memory.
   */
  method WriteImage(f: File, os: AddressSpace, lh: Tracker?, ctx: seq<Byte>) returns (ghost areas: seq<Area>)
    requires f.contents == [] && os.Valid() && (lh != null ==> lh.Valid())
    modifies f`contents, f`schedule
    ensures Lists(areas, os.space) && LogOk(TrackedBy(lh))
    ensures Benign(old(f.schedule)) ==> f.contents == ImageBytes(ctx, CheckpointRecords(areas, TrackedBy(lh), os.space))
  {
    hide CheckpointRecords, RecordBytes, Lists, LogOk;
    WritingIfBenign(f.schedule, ctx);
    var rc := WriteAll(f, ctx);
    areas := CheckpointMemory(f, os, lh);
  }

  /** The loop of checkpointMemory. */
  method WriteListed(f: File, os: AddressSpace, lh: Tracker?, maps: File, ghost lines: seq<MapsLine>)
    returns (ghost areas: seq<Area>)
    requires (lh != null ==> lh.Valid()) && LogOk(TrackedBy(lh)) && LinesList(lines, os.space)
    requires maps != f && maps.Valid() && OnlyInterrupts(maps.schedule) && AtLine(maps.contents, maps.pos, lines, 0)
    modifies f`contents, f`schedule, maps`pos, maps`schedule
    ensures DescribeFirst(areas, lines) && |areas| == |lines|
    ensures Benign(old(f.schedule)) ==>
              Benign(f.schedule) && WrittenSoFar(f.contents, old(f.contents), areas, TrackedBy(lh), os.space)
  {
    hide *;
    ghost var clean, s := Benign(f.schedule), os.space;
    var area: Area := *;
    areas := [];
    NothingWritten(f.contents, TrackedBy(lh), s);
    LinesAreOk(lines, s);
    while true
      invariant maps.Valid() && OnlyInterrupts(maps.schedule)
      invariant AtLine(maps.contents, maps.pos, lines, |areas|) && DescribeFirst(areas, lines) && |areas| <= |lines|
      invariant clean ==> Benign(f.schedule) && WrittenSoFar(f.contents, old(f.contents), areas, TrackedBy(lh), s)
      decreases |lines| - |areas|
    {
      var p := NextArea(maps, area, lines, |areas|);
      if !p.Got? {
        break;
      }
      area := p.area;
      DescribedAreaMapped(area, lines, s, |areas|);
      WriteAreaUnlessSkipped(f, os, lh, area, areas, old(f.contents), clean);
      DescribeNext(areas, area, lines);
      areas := areas + [area];
    }
  }

  lemma TrackedIsOk(lh: Tracker?)
    requires lh != null ==> lh.Valid()
    ensures LogOk(TrackedBy(lh))
  {
    if lh != null {
      ReportIsWholeLogIffNotWrapped(lh.log);
    }
  }

  lemma NothingWritten(contents: seq<Byte>, tracked: seq<Region>, s: Space)
    requires LogOk(tracked)
    ensures WrittenSoFar(contents, contents, [], tracked, s)
  {
    assert contents + RecordBytes([]) == contents;
  }

  lemma AllWritten(contents: seq<Byte>, before: seq<Byte>, areas: seq<Area>, tracked: seq<Region>, s: Space)
    requires Lists(areas, s) && WholePages(s) && LogOk(tracked)
    ensures WrittenSoFar(contents, before, areas, tracked, s) ==>
              contents == before + RecordBytes(CheckpointRecords(areas, tracked, s))
  {
  }

  /** The body of checkpointMemory's loop. */
  method WriteAreaUnlessSkipped(f: File, os: AddressSpace, lh: Tracker?, a: Area,
                                ghost areas: seq<Area>, ghost before: seq<Byte>, ghost clean: bool)
    requires AreaOk(a) && Mapped(os.space, a.addr, a.endAddr)
    requires (lh != null ==> lh.Valid()) && LogOk(TrackedBy(lh))
    requires clean ==> Benign(f.schedule) && WrittenSoFar(f.contents, before, areas, TrackedBy(lh), os.space)
    modifies f`contents, f`schedule
    ensures clean ==> Benign(f.schedule) && WrittenSoFar(f.contents, before, areas + [a], TrackedBy(lh), os.space)
  {
    WhatAreaContributes(a, TrackedBy(lh), os.space);
    hide *;
    if clean {
      WrittenNext(f.contents, before, areas, a, TrackedBy(lh), os.space);
    }
    if !SkipRegion(a) {
      WriteRelevantMemoryRegion(f, os, lh, a);
    }
  }

  lemma WhatAreaContributes(a: Area, tracked: seq<Region>, s: Space)
    requires AreaOk(a) && LogOk(tracked) && Mapped(s, a.addr, a.endAddr)
    ensures !SkipRegion(a) ==> Contribution(a, tracked, s) == MatchedRecord(a, tracked, s)
  {
  }
}
