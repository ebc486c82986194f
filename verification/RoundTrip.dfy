/** What checkpoint and restore together promise: round trips for one rank, for many, and a second time. */
module RoundTrip {
  import opened Areas
  import opened Bytes
  import opened Checkpoint
  import opened Confine
  import opened Listing
  import opened Memory
  import opened MmapWrapper
  import opened Pages
  import opened ProcMaps
  import opened Restore
  import opened Transfer

  // ---------------------------------------------------------------- records put back into memory

  /** A record as a checkpoint writes it. */
  ghost predicate RecordOk(r: Record) {
    Restorable(r.area) && |r.data| == r.area.size && r.area.endAddr == r.area.addr + r.area.size
  }

  /** The records of one image: sound one by one, ascending, and apart after page rounding. */
  ghost predicate RecordsOk(recs: seq<Record>) {
    && (forall i :: 0 <= i < |recs| ==> RecordOk(recs[i]))
    && (forall i, j :: 0 <= i < j < |recs| ==> PagesBefore(recs[i].area, recs[j].area))
  }

  ghost predicate PagesFree(s: Space, a: Area) {
    Free(s, a.addr, RoundUp(a.addr + a.size))
  }

  /** Memory holds the record: its bytes, and its protection on all its pages. */
  ghost predicate HoldsRecord(t: Space, r: Record) {
    && (forall x: nat :: Holds(r.area, x) && r.area.size == |r.data| ==>
        x in t && t[x] == CellOf(r.data, r.area.addr, x, r.area.Prot()))
    && (forall x: nat :: OnPages(r.area, x) ==> x in t && t[x].prot == r.area.Prot())
  }

  ghost predicate InRecords(recs: seq<Record>, x: nat) {
    exists i :: 0 <= i < |recs| && OnPages(recs[i].area, x)
  }

  /** t is s with the records put in: all of them, nothing of s changed, and nothing else added. */
  ghost predicate Rebuilt(t: Space, s: Space, recs: seq<Record>) {
    && Extends(t, s)
    && (forall i :: 0 <= i < |recs| ==> HoldsRecord(t, recs[i]))
    && (forall x :: x in t ==> x in s || InRecords(recs, x))
  }

  function RegionsOf(recs: seq<Record>): (rs: seq<Region>)
    ensures |rs| == |recs|
  {
    seq(|recs|, i requires 0 <= i < |recs| => Region(recs[i].area.addr, recs[i].area.size))
  }

  /** One address after a region was mapped, filled and protected. */
  lemma GuardedCell(s: Space, addr: nat, size: nat, prot: nat, data: seq<Byte>, x: nat)
    requires MmapArgsOk(addr, size) && |data| == size
    ensures var t := GuardedPages(s, addr, size, prot, data);
            && (addr <= x < RoundUp(addr + size) ==> x in t && t[x].prot == prot)
            && (addr <= x < addr + size ==> x in t && t[x] == CellOf(data, addr, x, prot))
            && (!(addr <= x < RoundUp(addr + size)) ==> (x in t <==> x in s) && (x in s ==> t[x] == s[x]))
  {
    RoundUpShift(addr, size);
    RoundingIsTight(size, 0);
    var mapped := Place(s, addr, Zeros(RoundUp(size)), WithWrite(prot) % 8);
    assert addr <= x < RoundUp(addr + size) <==> addr <= x < addr + |Zeros(RoundUp(size))|;
    var filled := Store(mapped, addr, data);
    assert x in filled <==> x in mapped;
  }

  lemma GuardedPagesHold(s: Space, r: Record)
    requires RecordOk(r) && PagesFree(s, r.area)
    ensures var t := GuardedPages(s, r.area.addr, r.area.size, r.area.Prot(), r.data);
            Extends(t, s) && HoldsRecord(t, r) && forall x :: x in t ==> x in s || OnPages(r.area, x)
  {
    hide GuardedPages, RoundUp, MmapArgsOk;
    var t := GuardedPages(s, r.area.addr, r.area.size, r.area.Prot(), r.data);
    forall x: nat
      ensures OnPages(r.area, x) ==> x in t && t[x].prot == r.area.Prot()
      ensures Holds(r.area, x) ==> x in t && t[x] == CellOf(r.data, r.area.addr, x, r.area.Prot())
      ensures !OnPages(r.area, x) ==> (x in t <==> x in s) && (x in s ==> t[x] == s[x])
    {
      GuardedCell(s, r.area.addr, r.area.size, r.area.Prot(), r.data, x);
    }
    forall x | x in s ensures x in t && t[x] == s[x] {
      assert !OnPages(r.area, x);
    }
  }

  lemma RestoreOneRecord(m: Machine, r: Record, img: seq<Byte>, pos: nat, schedule: seq<Event>)
    requires WholePages(m.space) && m.refusals == [] && RecordOk(r) && PagesFree(m.space, r.area)
    requires At(img, pos, r.data) && Benign(schedule)
    ensures var out := RestoreRegion(m, r.area, img, pos, schedule);
            && out.rc == 0 && out.pos == pos + |r.data| && Benign(out.rest)
            && out.machine == Machine(GuardedPages(m.space, r.area.addr, r.area.size, r.area.Prot(), r.data), [],
                                      m.log + [Region(r.area.addr, r.area.size)])
  {
    hide GuardedPages, FilledPages, WholePages, Reading, Benign;
    RoundingIsTight(r.area.addr + r.area.size, 0);
    ReadingBenign(schedule, r.area.size, |img| - pos);
    assert !Conflict(m.space, r.area.addr, r.area.size);
  }

  lemma PagesStayFree(t: Space, s: Space, r: Record, a: Area)
    requires PagesBefore(r.area, a) && PagesFree(s, a)
    requires forall x :: x in t ==> x in s || OnPages(r.area, x)
    ensures PagesFree(t, a)
  {
  }

  lemma RebuiltInTwoSteps(u: Space, t: Space, s: Space, recs: seq<Record>)
    requires |recs| > 0 && Extends(t, s) && HoldsRecord(t, recs[0]) && forall x :: x in t ==>
             x in s || OnPages(recs[0].area, x)
    requires Rebuilt(u, t, recs[1..])
    ensures Rebuilt(u, s, recs)
  {
    assert HoldsRecord(u, recs[0]);
    forall i | 0 <= i < |recs| ensures HoldsRecord(u, recs[i]) {
      if i > 0 {
        assert recs[i] == recs[1..][i - 1];
      }
    }
    forall x | x in u ensures x in s || InRecords(recs, x) {
      if x !in t {
        var i :| 0 <= i < |recs[1..]| && OnPages(recs[1..][i].area, x);
        assert OnPages(recs[i + 1].area, x);
      }
    }
  }

  /** Reading back a whole record list, however the reads are cut up, rebuilds exactly those records. */
  lemma {:induction false} RestoreRecords(m: Machine, buf: seq<Byte>, img: seq<Byte>, pos: nat, schedule: seq<Event>,
                                          recs: seq<Record>)
    requires WholePages(m.space) && LogOk(m.log) && m.refusals == [] && |buf| == AREA_SIZE && Benign(schedule)
    requires RecordsOk(recs) && forall i :: 0 <= i < |recs| ==> PagesFree(m.space, recs[i].area)
    requires pos <= |img| && img[pos..] == RecordBytes(recs)
    ensures var r := RestoreMemory(m, buf, img, pos, schedule);
            && r.rc == 0 && r.pos == |img|
            && Rebuilt(r.machine.space, m.space, recs)
            && r.machine.log == m.log + RegionsOf(recs) && r.machine.refusals == []
    decreases |recs|
  {
    hide GuardedPages, RestoreRegion, Encode, Decode, WholePages, HoldsRecord, Extends, LogOk, RecordOk, PagesFree,
         PagesBefore, Reading, Benign;
    ReadingBenign(schedule, AREA_SIZE, |img| - pos);
    if recs == [] {
      EmptyRebuild(m.space);
    } else {
      var r := recs[0];
      var read, at := RecordHeader(buf, img, pos, recs);
      var rest := Reading(schedule, AREA_SIZE, |img| - pos).rest;
      assert RecordOk(r) && PagesFree(m.space, r.area);
      RestoreOneRecord(m, r, img, at, rest);
      var first := RestoreRegion(m, r.area, img, at, rest);
      RegionNeverClobbers(m, r.area, img, at, rest);
      GuardedPagesHold(m.space, r);
      forall i | 0 <= i < |recs[1..]|
        ensures PagesFree(first.machine.space, recs[1..][i].area) && RecordOk(recs[1..][i])
      {
        assert recs[1..][i] == recs[i + 1];
        PagesStayFree(first.machine.space, m.space, r, recs[i + 1].area);
      }
      assert RecordsOk(recs[1..]);
      RestoreRecords(first.machine, read, img, first.pos, first.rest, recs[1..]);
      RebuiltInTwoSteps(RestoreMemory(first.machine, read, img, first.pos, first.rest).machine.space,
                        first.machine.space, m.space, recs);
      assert RegionsOf(recs) == [Region(r.area.addr, r.area.size)] + RegionsOf(recs[1..]);
    }
  }

  lemma EmptyRebuild(s: Space)
    ensures Rebuilt(s, s, [])
  {
  }

  /** Where a record's header and bytes lie in the image, and what reading the header leaves in the buffer. */
  lemma RecordHeader(buf: seq<Byte>, img: seq<Byte>, pos: nat, recs: seq<Record>) returns (read: seq<Byte>, at: nat)
    requires |buf| == AREA_SIZE && recs != [] && pos <= |img| && img[pos..] == RecordBytes(recs)
    ensures at == pos + AREA_SIZE && at <= |img| && pos < |img|
    ensures Min(AREA_SIZE, |img| - pos) == AREA_SIZE && read == Overwrite(buf, img[pos..at]) && |read| == AREA_SIZE
    ensures Decode(read) == recs[0].area
    ensures At(img, at, recs[0].data) && img[at + |recs[0].data|..] == RecordBytes(recs[1..])
  {
    var r := recs[0];
    var rest := img[pos..];
    at := pos + AREA_SIZE;
    assert rest == Encode(r.area) + (r.data + RecordBytes(recs[1..]));
    assert img[pos..at] == rest[..AREA_SIZE] == Encode(r.area);
    assert img[at..at + |r.data|] == rest[AREA_SIZE..AREA_SIZE + |r.data|] == r.data;
    assert img[at + |r.data|..] == rest[AREA_SIZE + |r.data|..] == RecordBytes(recs[1..]);
    read := Overwrite(buf, img[pos..at]);
    assert read == Encode(r.area);
    DecodeEncode(r.area);
  }

  // ---------------------------------------------------------------- one rank

  /** The records of a checkpoint are records that restore can put back. */
  lemma CheckpointRecordsOk(areas: seq<Area>, tracked: seq<Region>, s: Space)
    requires Lists(areas, s) && WholePages(s) && LogOk(tracked)
    ensures var recs := CheckpointRecords(areas, tracked, s);
            && RecordsOk(recs) && |recs| == |Selected(areas, tracked)|
            && forall i :: 0 <= i < |recs| ==> recs[i].area == Selected(areas, tracked)[i] && SavedFrom(recs[i], s)
  {
    var recs, sel := CheckpointRecords(areas, tracked, s), Selected(areas, tracked);
    SelectedIsSound(areas, tracked, s);
    SelectedIsPageDisjoint(areas, tracked, s);
    forall i | 0 <= i < |recs| ensures recs[i].area == sel[i] && RecordOk(recs[i]) && SavedFrom(recs[i], s) {
      SelectedAt(areas, tracked, s, i);
      SavedFromMemory(recs[i], s);
    }
    hide *;
    forall i, j | 0 <= i < j < |recs| ensures PagesBefore(recs[i].area, recs[j].area) {
      PageDisjointAt(sel, i, j);
    }
    RecordsOkFrom(recs);
  }

  lemma PageDisjointAt(sel: seq<Area>, i: nat, j: nat)
    requires PageDisjoint(sel) && i < j < |sel|
    ensures PagesBefore(sel[i], sel[j])
  {
  }

  lemma RecordsOkFrom(recs: seq<Record>)
    requires forall i :: 0 <= i < |recs| ==> RecordOk(recs[i])
    requires forall i, j :: 0 <= i < j < |recs| ==> PagesBefore(recs[i].area, recs[j].area)
    ensures RecordsOk(recs)
  {
  }

  /** The record's bytes and protection are those of memory. */
  ghost predicate SavedFrom(r: Record, s: Space) {
    |r.data| == r.area.size &&
    forall x: nat :: Holds(r.area, x) ==> x in s && s[x] == CellOf(r.data, r.area.addr, x, r.area.Prot())
  }

  lemma SavedFromMemory(r: Record, s: Space)
    requires Sound(r.area, s) && Mapped(s, r.area.addr, r.area.addr + r.area.size)
    requires r.data == Load(s, r.area.addr, r.area.size)
    ensures SavedFrom(r, s)
  {
    RoundingIsTight(r.area.addr + r.area.size, 0);
  }

  /** x lies on a page of some area that the checkpoint writes. */
  ghost predicate OnSavedPage(areas: seq<Area>, tracked: seq<Region>, x: nat)
    requires LogOk(tracked)
  {
    exists i :: 0 <= i < |Selected(areas, tracked)| && OnPages(Selected(areas, tracked)[i], x)
  }

  /** t holds every byte that a checkpoint of s saves, with the protection it had. */
  ghost predicate Recovered(t: Space, s: Space, areas: seq<Area>, tracked: seq<Region>)
    requires LogOk(tracked)
  {
    forall x :: Saved(areas, tracked, x) ==> x in s && x in t && t[x] == s[x]
  }

  lemma HeldByte(t: Space, s: Space, r: Record, x: nat)
    requires HoldsRecord(t, r) && SavedFrom(r, s) && Holds(r.area, x)
    ensures x in s && x in t && t[x] == s[x]
  {
  }

  lemma RebuiltRecovers(t: Space, u: Space, s: Space, areas: seq<Area>, tracked: seq<Region>)
    requires Lists(areas, s) && WholePages(s) && LogOk(tracked)
    requires Rebuilt(t, u, CheckpointRecords(areas, tracked, s))
    ensures Recovered(t, s, areas, tracked)
  {
    hide CheckpointRecords, Lists, WholePages, LogOk, Selected, RecordsOk, HoldsRecord, SavedFrom, Extends, OnPages,
         Holds;
    var recs, sel := CheckpointRecords(areas, tracked, s), Selected(areas, tracked);
    CheckpointRecordsOk(areas, tracked, s);
    forall x | Saved(areas, tracked, x) ensures x in s && x in t && t[x] == s[x] {
      var i :| 0 <= i < |sel| && Holds(sel[i], x);
      HeldByte(t, s, recs[i], x);
    }
  }

  lemma RebuiltAddsSavedPages(t: Space, u: Space, s: Space, areas: seq<Area>, tracked: seq<Region>)
    requires Lists(areas, s) && WholePages(s) && LogOk(tracked)
    requires Rebuilt(t, u, CheckpointRecords(areas, tracked, s))
    ensures forall x :: x in t ==> x in u || OnSavedPage(areas, tracked, x)
  {
    hide CheckpointRecords, Lists, WholePages, LogOk, Selected, RecordsOk, HoldsRecord, SavedFrom, Extends, OnPages,
         Holds;
    var recs, sel := CheckpointRecords(areas, tracked, s), Selected(areas, tracked);
    CheckpointRecordsOk(areas, tracked, s);
    forall x | x in t && x !in u ensures OnSavedPage(areas, tracked, x) {
      assert InRecords(recs, x);
      var i :| 0 <= i < |recs| && OnPages(recs[i].area, x);
      assert OnPages(sel[i], x);
    }
  }

  /** An image whose records find room restores completely. */
  lemma RestoreOfRecords(m: Machine, ctx: seq<Byte>, recs: seq<Record>, schedule: seq<Event>)
    requires WholePages(m.space) && LogOk(m.log) && m.refusals == [] && |ctx| == CONTEXT_SIZE && Benign(schedule)
    requires RecordsOk(recs) && forall i :: 0 <= i < |recs| ==> PagesFree(m.space, recs[i].area)
    ensures var r := RestoreImage(m, Present(ImageBytes(ctx, recs), schedule));
            && r.outcome == Done && r.contexts == [ctx]
            && Rebuilt(r.machine.space, m.space, recs)
            && r.machine.log == m.log + RegionsOf(recs) && r.machine.refusals == []
            && WholePages(r.machine.space) && LogOk(r.machine.log)
  {
    var img := ImageBytes(ctx, recs);
    assert img[CONTEXT_SIZE..] == RecordBytes(recs) && img[..CONTEXT_SIZE] == ctx;
    ReadingBenign(schedule, CONTEXT_SIZE, |img|);
    var rest := Reading(schedule, CONTEXT_SIZE, |img|).rest;
    RestoreRecords(m, Zeros(AREA_SIZE), img, CONTEXT_SIZE, rest, recs);
    RestoreNeverClobbers(m, Zeros(AREA_SIZE), img, CONTEXT_SIZE, rest);
    hide RestoreMemory, Reading, Rebuilt, WholePages, LogOk, RecordBytes;
  }

  /**
   Checkpoint, then restore: for every address space, listing and tracked list, and however the reads of the
   image are cut up and interrupted, restoring it into a machine where the saved pages are free succeeds, gives
   back the context and every saved byte with its protection at its address, changes nothing that was mapped, and
   adds nothing but the saved pages.
   */
  lemma CheckpointRestoreRoundTrip(areas: seq<Area>, tracked: seq<Region>, s: Space, ctx: seq<Byte>, m: Machine,
                                   schedule: seq<Event>)
    requires Lists(areas, s) && WholePages(s) && LogOk(tracked) && |ctx| == CONTEXT_SIZE
    requires WholePages(m.space) && LogOk(m.log) && m.refusals == [] && Benign(schedule)
    requires forall x :: OnSavedPage(areas, tracked, x) ==> x !in m.space
    ensures var r := RestoreImage(m, Present(ImageBytes(ctx, CheckpointRecords(areas, tracked, s)), schedule));
            && r.outcome == Done && r.contexts == [ctx]
            && Recovered(r.machine.space, s, areas, tracked)
            && Extends(r.machine.space, m.space)
            && forall x :: x in r.machine.space ==> x in m.space || OnSavedPage(areas, tracked, x)
  {
    hide CheckpointRecords, RestoreImage, ImageBytes, WholePages, LogOk, Lists, Recovered, RecordsOk, HoldsRecord,
         Selected, Extends;
    var recs := CheckpointRecords(areas, tracked, s);
    SavedPagesFree(areas, tracked, s, m.space);
    RestoreOfRecords(m, ctx, recs, schedule);
    var t := RestoreImage(m, Present(ImageBytes(ctx, recs), schedule)).machine.space;
    RebuiltRecovers(t, m.space, s, areas, tracked);
    RebuiltAddsSavedPages(t, m.space, s, areas, tracked);
  }

  /** Every record of the checkpoint finds its pages free. */
  lemma SavedPagesFree(areas: seq<Area>, tracked: seq<Region>, s: Space, u: Space)
    requires Lists(areas, s) && WholePages(s) && LogOk(tracked)
    requires forall x :: OnSavedPage(areas, tracked, x) ==> x !in u
    ensures var recs := CheckpointRecords(areas, tracked, s);
            RecordsOk(recs) && forall i :: 0 <= i < |recs| ==> PagesFree(u, recs[i].area)
  {
    hide CheckpointRecords, WholePages, LogOk, Lists, RecordsOk, Selected, SavedFrom;
    var recs := CheckpointRecords(areas, tracked, s);
    CheckpointRecordsOk(areas, tracked, s);
    forall i | 0 <= i < |recs| ensures PagesFree(u, recs[i].area) {
      forall x: nat | OnPages(recs[i].area, x) ensures x !in u {
        assert OnPages(Selected(areas, tracked)[i], x);
      }
    }
  }

  lemma RecoveredAt(t: Space, s: Space, areas: seq<Area>, tracked: seq<Region>, x: nat)
    requires LogOk(tracked) && Recovered(t, s, areas, tracked) && Saved(areas, tracked, x)
    ensures x in s && x in t && t[x] == s[x]
  {
  }

  lemma ConflictPersists(t: Space, s: Space, a: Area)
    requires Extends(t, s) && Conflict(s, a.addr, a.size)
    ensures Conflict(t, a.addr, a.size)
  {
  }

  /** One occupied record is enough for the whole image to be refused. */
  lemma {:induction false} ConflictRefusesImage(m: Machine, buf: seq<Byte>, img: seq<Byte>, pos: nat,
                                                schedule: seq<Event>,
                                                recs: seq<Record>, i: nat)
    requires WholePages(m.space) && LogOk(m.log) && |buf| == AREA_SIZE && pos <= |img| && Benign(schedule)
    requires img[pos..] == RecordBytes(recs) && (forall j :: 0 <= j < |recs| ==> RecordOk(recs[j]))
    requires i < |recs| && Conflict(m.space, recs[i].area.addr, recs[i].area.size)
    ensures RestoreMemory(m, buf, img, pos, schedule).rc == -1
    decreases |recs|
  {
    hide RestoreRegion, Encode, Decode, WholePages, Extends, LogOk, Conflict, RecordBytes, Reading, Benign;
    var r := recs[0];
    var read, at := RecordHeader(buf, img, pos, recs);
    ReadingBenign(schedule, AREA_SIZE, |img| - pos);
    var rest := Reading(schedule, AREA_SIZE, |img| - pos).rest;
    RegionNeverClobbers(m, r.area, img, at, rest);
    var first := RestoreRegion(m, r.area, img, at, rest);
    RegionCodes(m, r.area, img, at, rest);
    if i > 0 && first.rc == 0 {
      assert recs[1..][i - 1] == recs[i];
      ConflictPersists(first.machine.space, m.space, recs[i].area);
      ConflictRefusesImage(first.machine, read, img, first.pos, first.rest, recs[1..], i - 1);
    }
  }

  lemma RegionCodes(m: Machine, a: Area, img: seq<Byte>, pos: nat, schedule: seq<Event>)
    requires pos <= |img| && Benign(schedule)
    ensures Benign(RestoreRegion(m, a, img, pos, schedule).rest)
    ensures var r := RestoreRegion(m, a, img, pos, schedule); r.rc == 0 ==> r.pos == pos + a.size
  {
    hide *;
    ReadingBenign(schedule, a.size, |img| - pos);
    RegionRest(m, a, img, pos, schedule);
    RegionLength(m, a, img, pos, schedule);
  }

  lemma RegionRest(m: Machine, a: Area, img: seq<Byte>, pos: nat, schedule: seq<Event>)
    requires pos <= |img|
    ensures var rest := RestoreRegion(m, a, img, pos, schedule).rest;
            rest == schedule || rest == Reading(schedule, a.size, |img| - pos).rest
  {
    hide Conflict, Reading, FilledPages, GuardedPages, MmapArgsOk, Refused, NextRefusals, ValidProt, AsSize;
  }

  lemma RegionLength(m: Machine, a: Area, img: seq<Byte>, pos: nat, schedule: seq<Event>)
    requires pos <= |img|
    ensures var r := RestoreRegion(m, a, img, pos, schedule);
            r.rc == 0 && !Reading(schedule, a.size, |img| - pos).failed ==> r.pos == pos + a.size
  {
    hide Conflict, Reading, FilledPages, GuardedPages, MmapArgsOk, Refused, NextRefusals, ValidProt;
  }

  lemma ConflictIffPagesTaken(s: Space, a: Area)
    requires WholePages(s) && Restorable(a)
    ensures Conflict(s, a.addr, a.size) <==> !PagesFree(s, a)
  {
    RoundingIsTight(a.addr + a.size, 0);
    if !Conflict(s, a.addr, a.size) {
      FreeUpToPage(s, a.addr, a.size);
    }
  }

  /** Without memory pressure a checkpoint's image is restored if and only if none of its pages is in use. */
  lemma RestoredIffPagesFree(areas: seq<Area>, tracked: seq<Region>, s: Space, ctx: seq<Byte>, m: Machine,
                             schedule: seq<Event>)
    requires Lists(areas, s) && WholePages(s) && LogOk(tracked) && |ctx| == CONTEXT_SIZE
    requires WholePages(m.space) && LogOk(m.log) && m.refusals == [] && Benign(schedule)
    ensures RestoreImage(m, Present(ImageBytes(ctx, CheckpointRecords(areas, tracked, s)), schedule)).outcome == Done
            <==> forall x :: OnSavedPage(areas, tracked, x) ==> x !in m.space
  {
    hide CheckpointRecords, ImageBytes, RestoreImage, Lists, WholePages, LogOk;
    if x :| OnSavedPage(areas, tracked, x) && x in m.space {
      TakenPageRefusesImage(areas, tracked, s, ctx, m, schedule, x);
    } else {
      CheckpointRestoreRoundTrip(areas, tracked, s, ctx, m, schedule);
    }
  }

  lemma TakenPageRefusesImage(areas: seq<Area>, tracked: seq<Region>, s: Space, ctx: seq<Byte>, m: Machine,
                              schedule: seq<Event>, x: nat)
    requires Lists(areas, s) && WholePages(s) && LogOk(tracked) && |ctx| == CONTEXT_SIZE
    requires WholePages(m.space) && LogOk(m.log) && Benign(schedule)
    requires OnSavedPage(areas, tracked, x) && x in m.space
    ensures RestoreImage(m, Present(ImageBytes(ctx, CheckpointRecords(areas, tracked, s)), schedule)).outcome == Failed
  {
    hide Conflict, RestoreMemory, RecordBytes, Lists, WholePages, LogOk, CheckpointRecords, Selected, RecordOk, Reading,
         Benign;
    var recs, sel := CheckpointRecords(areas, tracked, s), Selected(areas, tracked);
    var img := ImageBytes(ctx, recs);
    assert img[CONTEXT_SIZE..] == RecordBytes(recs);
    CheckpointRecordsOk(areas, tracked, s);
    var i :| 0 <= i < |sel| && OnPages(sel[i], x);
    TakenPageConflicts(m.space, recs[i], x);
    ReadingBenign(schedule, CONTEXT_SIZE, |img|);
    ConflictRefusesImage(m, Zeros(AREA_SIZE), img, CONTEXT_SIZE, Reading(schedule, CONTEXT_SIZE, |img|).rest, recs, i);
  }

  lemma TakenPageConflicts(s: Space, r: Record, x: nat)
    requires WholePages(s) && RecordOk(r) && OnPages(r.area, x) && x in s
    ensures Conflict(s, r.area.addr, r.area.size)
  {
    ConflictIffPagesTaken(s, r.area);
  }

  // ---------------------------------------------------------------- many ranks

  ghost predicate WindowFree(s: Space, rank: nat) {
    forall x :: InWindow(rank, x) ==> x !in s
  }

  /**
   A rank at its checkpoint: its memory, the kernel's listing, the tracked regions and the context; and how the
   reads of its image will go.
   */
  datatype Rank = Rank(id: nat, space: Space, areas: seq<Area>, tracked: seq<Region>, context: seq<Byte>,
                       schedule: seq<Event>)

  ghost predicate RankOk(k: Rank) {
    && Lists(k.areas, k.space) && WholePages(k.space) && LogOk(k.tracked)
    && Confined(k.tracked, k.id) && |k.context| == CONTEXT_SIZE && Benign(k.schedule)
  }

  /** The image file that the rank's checkpoint left. */
  ghost function ImageOf(k: Rank): DiskImage
    requires RankOk(k)
  {
    Present(ImageBytes(k.context, CheckpointRecords(k.areas, k.tracked, k.space)), k.schedule)
  }

  /** What is cut from a region in the window stays there, even rounded up to a page. */
  lemma CutInWindow(a: Area, r: Region, rank: nat, x: nat)
    requires AreaOk(a) && MmapArgsOk(r.addr, r.len) && Matches(r, a)
    requires WindowStart(rank) <= r.addr && r.addr + r.len <= WindowStart(rank) + WINDOW
    requires OnPages(Cut(a, r), x)
    ensures InWindow(rank, x)
  {
    var w := Cut(a, r);
    assert r.addr <= w.addr && w.addr + w.size <= r.addr + r.len;
    WindowAligned(rank);
    RoundingIsTight(w.addr + w.size, WindowStart(rank) + WINDOW);
  }

  lemma SavedPagesInWindow(k: Rank, x: nat)
    requires RankOk(k) && OnSavedPage(k.areas, k.tracked, x)
    ensures InWindow(k.id, x)
  {
    hide InWindow, OnPages, Cut, AreaOk, MmapArgsOk;
    var sel := Selected(k.areas, k.tracked);
    var i :| 0 <= i < |sel| && OnPages(sel[i], x);
    var a := k.areas[Sources(k.areas, k.tracked)[i]];
    var r := k.tracked[FirstMatch(a, k.tracked, 0)];
    assert r in k.tracked && AreaOk(a);
    CutInWindow(a, r, k.id, x);
  }

  /** One rank restored next to others: its window fills, the other windows stay free. */
  lemma RestoreOneRank(m: Machine, k: Rank)
    requires WholePages(m.space) && LogOk(m.log) && m.refusals == [] && RankOk(k) && WindowFree(m.space, k.id)
    ensures var r := RestoreImage(m, ImageOf(k));
            && r.outcome == Done && r.contexts == [k.context]
            && Recovered(r.machine.space, k.space, k.areas, k.tracked) && Extends(r.machine.space, m.space)
            && WholePages(r.machine.space) && LogOk(r.machine.log) && r.machine.refusals == []
            && forall q :: q != k.id && WindowFree(m.space, q) ==> WindowFree(r.machine.space, q)
  {
    var recs := CheckpointRecords(k.areas, k.tracked, k.space);
    forall x | OnSavedPage(k.areas, k.tracked, x) ensures x !in m.space && InWindow(k.id, x) {
      SavedPagesInWindow(k, x);
    }
    CheckpointRestoreRoundTrip(k.areas, k.tracked, k.space, k.context, m, k.schedule);
    CheckpointRecordsOk(k.areas, k.tracked, k.space);
    var t := RestoreImage(m, ImageOf(k)).machine.space;
    hide CheckpointRecords, RestoreImage, ImageBytes, Lists, Recovered, RecordsOk, Selected, Extends, WholePages, LogOk,
         OnSavedPage, InWindow;
    forall i | 0 <= i < |recs| ensures PagesFree(m.space, recs[i].area) {
      RecordOnSavedPages(k, m.space, i);
    }
    RestoreOfRecords(m, k.context, recs, k.schedule);
    forall q, x | q != k.id && WindowFree(m.space, q) && InWindow(q, x) ensures x !in t {
      if x in t && OnSavedPage(k.areas, k.tracked, x) {
        WindowsDisjoint(k.id, q, x);
      }
    }
  }

  lemma RecordOnSavedPages(k: Rank, s: Space, i: nat)
    requires RankOk(k) && i < |CheckpointRecords(k.areas, k.tracked, k.space)|
    requires forall x :: OnSavedPage(k.areas, k.tracked, x) ==> x !in s
    ensures PagesFree(s, CheckpointRecords(k.areas, k.tracked, k.space)[i].area)
  {
    CheckpointRecordsOk(k.areas, k.tracked, k.space);
    var a := CheckpointRecords(k.areas, k.tracked, k.space)[i].area;
    forall x: nat | OnPages(a, x) ensures x !in s {
      assert OnPages(Selected(k.areas, k.tracked)[i], x);
    }
  }

  predicate DistinctIds(ranks: seq<Rank>) {
    forall i, j :: 0 <= i < j < |ranks| ==> ranks[i].id != ranks[j].id
  }

  ghost function ImagesOf(ranks: seq<Rank>): (images: seq<DiskImage>)
    requires forall i :: 0 <= i < |ranks| ==> RankOk(ranks[i])
    ensures |images| == |ranks|
  {
    seq(|ranks|, i requires 0 <= i < |ranks| => ImageOf(ranks[i]))
  }

  function ContextsOf(ranks: seq<Rank>): seq<seq<Byte>> {
    seq(|ranks|, i requires 0 <= i < |ranks| => ranks[i].context)
  }

  lemma RecoveredPersists(u: Space, t: Space, k: Rank)
    requires RankOk(k) && Extends(u, t) && Recovered(t, k.space, k.areas, k.tracked)
    ensures Recovered(u, k.space, k.areas, k.tracked)
  {
    hide Lists, Saved, WholePages, Confined;
  }

  /**
   Any number of confined ranks, in any order: all images are restored, all contexts come back in order, and
   in the end every rank's saved bytes and protections are in place: no later restore disturbs an earlier
   one, nor anything that the restarting process had mapped.
   */
  lemma {:induction false} AllRanksRestored(m: Machine, ranks: seq<Rank>)
    requires WholePages(m.space) && LogOk(m.log) && m.refusals == []
    requires forall i :: 0 <= i < |ranks| ==> RankOk(ranks[i]) && WindowFree(m.space, ranks[i].id)
    requires DistinctIds(ranks)
    ensures var r := RestoreImages(m, ImagesOf(ranks));
            && r.outcome == Done && r.contexts == ContextsOf(ranks)
            && Extends(r.machine.space, m.space)
            && forall i :: 0 <= i < |ranks| ==>
               Recovered(r.machine.space, ranks[i].space, ranks[i].areas, ranks[i].tracked)
    decreases |ranks|
  {
    hide RankOk, WholePages, LogOk, RestoreImage, ImageOf, Recovered, WindowFree, Extends;
    SpaceExtendsItself(m.space);
    if ranks != [] {
      var k, rest := ranks[0], ranks[1..];
      RestoreOneRank(m, k);
      var first := RestoreImage(m, ImageOf(k));
      assert forall i :: 0 <= i < |rest| ==> rest[i] == ranks[i + 1];
      AllRanksRestored(first.machine, rest);
      assert ImagesOf(ranks)[1..] == ImagesOf(rest);
      assert ContextsOf(ranks) == [k.context] + ContextsOf(rest);
      var u := RestoreImages(first.machine, ImagesOf(rest)).machine.space;
      ExtendsIsTransitive(u, first.machine.space, m.space);
      RecoveredPersists(u, first.machine.space, k);
    }
  }

  // ---------------------------------------------------------------- the programs, one after the other

  /**
   A process about to be checkpointed: its address space, its lower half's tracking array if the upper half
   knows one, its context, and how the writes to its image and the reads of it will go.
   */
  datatype Process = Process(id: nat, os: AddressSpace, lh: Tracker?, context: seq<Byte>, writing: seq<Event>,
                             reading: seq<Event>)
  {
    ghost predicate Valid()
      reads os, lh, if lh != null then {lh.os, lh.mmaps} else {}
    {
      && os.Valid() && (lh != null ==> lh.Valid())
      && |context| == CONTEXT_SIZE && Benign(writing) && Benign(reading)
    }
  }

  /** checkpointHandler's image of one process; as a rank, with the listing that the kernel gave. */
  method WriteImageOf(p: Process) returns (image: DiskImage, ghost k: Rank)
    requires p.Valid() && Confined(TrackedBy(p.lh), p.id)
    ensures ImageWritten(image, k, p)
  {
    var f := new File([], p.writing);
    ghost var areas := WriteImage(f, p.os, p.lh, p.context);
    image := Present(f.contents, p.reading);
    k := Rank(p.id, p.os.space, areas, TrackedBy(p.lh), p.context, p.reading);
    hide CheckpointRecords, ImageBytes, Lists, LogOk, Confined;
  }

  method WriteImages(processes: seq<Process>) returns (images: seq<DiskImage>, ghost ranks: seq<Rank>)
    requires forall i :: 0 <= i < |processes| ==>
             processes[i].Valid() && Confined(TrackedBy(processes[i].lh), processes[i].id)
    ensures |ranks| == |processes| && forall i :: 0 <= i < |ranks| ==> RankOk(ranks[i])
    ensures forall i :: 0 <= i < |ranks| ==> RankOf(ranks[i], processes[i])
    ensures images == ImagesOf(ranks)
  {
    hide *;
    images, ranks := [], [];
    var i := 0;
    while i < |processes|
      invariant 0 <= i <= |processes| && |images| == |ranks| == i
      invariant forall j :: 0 <= j < i ==> ImageWritten(images[j], ranks[j], processes[j])
    {
      var image;
      ghost var k;
      image, k := WriteImageOf(processes[i]);
      images, ranks := images + [image], ranks + [k];
      i := i + 1;
    }
    ImagesWritten(images, ranks, processes);
  }

  ghost predicate ImageWritten(image: DiskImage, k: Rank, p: Process)
    reads p.os, p.lh
  {
    RankOf(k, p) && RankOk(k) && image == ImageOf(k)
  }

  lemma ImagesWritten(images: seq<DiskImage>, ranks: seq<Rank>, processes: seq<Process>)
    requires |images| == |ranks| == |processes| && forall j :: 0 <= j < |ranks| ==>
             ImageWritten(images[j], ranks[j], processes[j])
    ensures forall i :: 0 <= i < |ranks| ==> RankOk(ranks[i]) && RankOf(ranks[i], processes[i])
    ensures images == ImagesOf(ranks)
  {
    hide RankOk, RankOf, ImageOf;
  }

  /**
   Every process is checkpointed, and one new process restores all the images: however writes and reads are
   cut up and interrupted, restoring succeeds, each context is back, and so is every byte saved of each.
   */
  method CheckpointThenRestore(processes: seq<Process>, lower: Tracker, contexts: array<seq<Byte>>)
    returns (outcome: Outcome, ghost ranks: seq<Rank>)
    requires lower.Valid() && lower.os.refusals == [] && contexts.Length == |processes|
    requires forall i :: 0 <= i < |processes| ==>
             processes[i].Valid() && Confined(TrackedBy(processes[i].lh), processes[i].id)
    requires forall i, j :: 0 <= i < j < |processes| ==> processes[i].id != processes[j].id
    requires forall i :: 0 <= i < |processes| ==> WindowFree(lower.os.space, processes[i].id)
    modifies contexts, lower, lower.mmaps, lower.os
    ensures lower.Valid() && Extends(lower.os.space, old(lower.os.space)) && outcome == Done
    ensures |ranks| == |processes| && forall i :: 0 <= i < |ranks| ==> contexts[i] == processes[i].context
    ensures forall i :: 0 <= i < |ranks| ==>
            old(RankOf(ranks[i], processes[i])) && RankRecovered(lower.os.space, ranks[i])
    ensures forall i :: 0 <= i < |ranks| && Covered(ranks[i].areas, old(LogOf(processes[i].lh))) ==>
              TrackedBytesBack(lower.os.space, ranks[i], old(LogOf(processes[i].lh)))
  {
    hide *;
    var images;
    images, ranks := WriteImages(processes);
    NewRestart(lower);
    SameIds(ranks, processes);
    TrackedIsReported(ranks, processes);
    AllRanksRestored(lower.View(), ranks);
    outcome := RestoreMemoryForImages(images, contexts, lower);
    lower.ViewParts();
    ContextsAre(ranks, contexts[..]);
    RanksRecovered(lower.os.space, ranks);
    forall i | 0 <= i < |ranks| && Covered(ranks[i].areas, old(LogOf(processes[i].lh)))
      ensures TrackedBytesBack(lower.os.space, ranks[i], old(LogOf(processes[i].lh)))
    {
      TrackedBytesAreBack(lower.os.space, ranks[i], old(LogOf(processes[i].lh)));
    }
  }

  /** All that the lower half has tracked since it started. */
  ghost function LogOf(lh: Tracker?): seq<Region>
    reads lh
  {
    if lh == null then [] else lh.log
  }

  /** Nothing has been forgotten, and no area that is written has tracked bytes outside its first match. */
  ghost predicate Covered(areas: seq<Area>, log: seq<Region>) {
    |log| < 1000 && forall i :: 0 <= i < |areas| && !SkipRegion(areas[i]) ==> FirstMatchCovers(areas[i], log)
  }

  ghost predicate TrackedBytesBack(t: Space, k: Rank, log: seq<Region>) {
    forall i, j, x :: 0 <= i < |k.areas| && !SkipRegion(k.areas[i]) && InArea(k.areas[i], x)
                      && 0 <= j < |log| && Tracks(log[j], x) ==>
                        x in k.space && x in t && t[x] == k.space[x]
  }

  /** Then every tracked byte of every area that is not skipped is back. */
  lemma TrackedBytesAreBack(t: Space, k: Rank, log: seq<Region>)
    requires RankRecovered(t, k) && k.tracked == ReportedList(log) && Covered(k.areas, log)
    ensures TrackedBytesBack(t, k, log)
  {
    ReportIsWholeLogIffNotWrapped(log);
    forall i, j, x | 0 <= i < |k.areas| && !SkipRegion(k.areas[i]) && InArea(k.areas[i], x)
                     && 0 <= j < |log| && Tracks(log[j], x)
      ensures x in k.space && x in t && t[x] == k.space[x]
    {
      hide SkipRegion, InArea, Tracks, Lists, WholePages, LogOk, FirstMatchCovers, Saved;
      AreaCompleteIff(k.areas, log, k.space, i);
      RecoveredAt(t, k.space, k.areas, log, x);
    }
  }

  lemma TrackedIsReported(ranks: seq<Rank>, processes: seq<Process>)
    requires |ranks| == |processes| && forall i :: 0 <= i < |ranks| ==> RankOf(ranks[i], processes[i])
    ensures forall i :: 0 <= i < |ranks| ==> ranks[i].tracked == ReportedList(LogOf(processes[i].lh))
  {
  }

  lemma NewRestart(lower: Tracker)
    requires lower.Valid()
    ensures lower.View() == Machine(lower.os.space, lower.os.refusals, lower.log)
    ensures WholePages(lower.os.space) && LogOk(lower.log)
  {
  }

  lemma SameIds(ranks: seq<Rank>, processes: seq<Process>)
    requires |ranks| == |processes| && forall i :: 0 <= i < |ranks| ==> RankOf(ranks[i], processes[i])
    ensures forall i :: 0 <= i < |ranks| ==> ranks[i].id == processes[i].id && ranks[i].context == processes[i].context
    ensures (forall i, j :: 0 <= i < j < |ranks| ==> processes[i].id != processes[j].id) ==> DistinctIds(ranks)
  {
  }

  lemma ContextsAre(ranks: seq<Rank>, contexts: seq<seq<Byte>>)
    ensures contexts == ContextsOf(ranks) ==> |contexts| == |ranks| && forall i :: 0 <= i < |ranks| ==>
            contexts[i] == ranks[i].context
  {
  }

  lemma RanksRecovered(t: Space, ranks: seq<Rank>)
    requires forall i :: 0 <= i < |ranks| ==>
             RankOk(ranks[i]) && Recovered(t, ranks[i].space, ranks[i].areas, ranks[i].tracked)
    ensures forall i :: 0 <= i < |ranks| ==> RankRecovered(t, ranks[i])
  {
    hide RankOk, Recovered;
  }

  /** The rank is the process at its checkpoint. */
  ghost predicate RankOf(k: Rank, p: Process)
    reads p.os, p.lh
  {
    k.id == p.id && k.space == p.os.space && k.tracked == TrackedBy(p.lh) && k.context == p.context
        && k.schedule == p.reading
  }

  ghost predicate RankRecovered(t: Space, k: Rank) {
    RankOk(k) && Recovered(t, k.space, k.areas, k.tracked)
  }

  /**
   With no list of tracked regions the image is the context alone. Restoring it succeeds, and brings nothing
   back: memory is what it was.
   */
  lemma HollowImageRestoresNothing(areas: seq<Area>, s: Space, ctx: seq<Byte>, m: Machine, schedule: seq<Event>)
    requires Lists(areas, s) && WholePages(s) && |ctx| == CONTEXT_SIZE && Benign(schedule)
    ensures CheckpointRecords(areas, [], s) == [] && ImageBytes(ctx, []) == ctx
    ensures RestoreImage(m, Present(ctx, schedule)) == ImagesRestored(Done, m, [ctx])
  {
    NothingPicked(areas);
    assert Selected(areas, []) == [];
    ReadingBenign(schedule, CONTEXT_SIZE, |ctx|);
    var rest := Reading(schedule, CONTEXT_SIZE, |ctx|).rest;
    ReadingBenign(rest, AREA_SIZE, 0);
    assert ctx[..CONTEXT_SIZE] == ctx;
    hide Reading, Benign;
  }

  lemma {:induction false} NothingPicked(areas: seq<Area>)
    ensures Sources(areas, []) == []
  {
    if areas != [] {
      NothingPicked(areas[..|areas| - 1]);
      assert !Picked(areas[|areas| - 1], []);
    }
  }

  // ---------------------------------------------------------------- a second checkpoint

  ghost predicate Increasing(ks: seq<nat>) {
    forall i, j :: 0 <= i < j < |ks| ==> ks[i] < ks[j]
  }

  lemma EmptyIffNoMember(a: seq<nat>)
    ensures a == [] <==> forall k :: k !in a
  {
    assert a != [] ==> a[0] in a;
  }

  /** Two increasing lists with the same members are the same list. */
  lemma {:induction false} IncreasingListsAgree(a: seq<nat>, b: seq<nat>)
    requires Increasing(a) && Increasing(b) && forall k :: k in a <==> k in b
    ensures a == b
    decreases |a|
  {
    EmptyIffNoMember(a);
    EmptyIffNoMember(b);
    if a != [] && b != [] {
      var x, y := a[|a| - 1], b[|b| - 1];
      var a', b' := a[..|a| - 1], b[..|b| - 1];
      assert x in a && y in b;
      assert x == y;
      forall k ensures k in a' <==> k in b' {
        assert k in a <==> k in a' || k == x;
        assert k in b <==> k in b' || k == y;
        assert x !in a' && y !in b';
      }
      IncreasingListsAgree(a', b');
      assert a == a' + [x] && b == b' + [y];
    }
  }

  /**
   The listing after the restart follows the records: area at[i] is record i rounded up to pages, under a
   name that is not skipped. The kernel may have listed anything else besides.
   */
  ghost predicate FollowsRecords(areas: seq<Area>, recs: seq<Record>, at: seq<nat>) {
    && |at| == |recs|
    && (forall i :: 0 <= i < |recs| ==> at[i] < |areas| && AreaFollows(areas[at[i]], recs[i]))
  }

  ghost predicate AreaFollows(a: Area, r: Record) {
    a.addr == r.area.addr && a.endAddr == RoundUp(r.area.addr + r.area.size) && !SkipRegion(a)
  }

  /** The regions that restore tracked, one for each record: mappable, ascending, and apart by whole pages. */
  lemma RestoredRegions(recs: seq<Record>)
    requires RecordsOk(recs)
    ensures LogOk(RegionsOf(recs))
    ensures forall i, j :: 0 <= i < j < |recs| ==>
              RegionsOf(recs)[i].addr + RoundUp(RegionsOf(recs)[i].len) <= RegionsOf(recs)[j].addr
  {
    forall r | r in RegionsOf(recs) ensures MmapArgsOk(r.addr, r.len) {
      var i :| 0 <= i < |recs| && RegionsOf(recs)[i] == r;
      assert RecordOk(recs[i]);
    }
    forall i, j | 0 <= i < j < |recs|
      ensures RegionsOf(recs)[i].addr + RoundUp(RegionsOf(recs)[i].len) <= RegionsOf(recs)[j].addr
    {
      assert RecordOk(recs[i]) && PagesBefore(recs[i].area, recs[j].area);
      RoundUpShift(recs[i].area.addr, recs[i].area.size);
    }
  }

  /** A tracked region matches only areas that share an address with it. */
  lemma MatchedAreaShares(a: Area, r: Record)
    requires AreaOk(a) && RecordOk(r) && Matches(Region(r.area.addr, r.area.size), a)
    ensures a.addr < r.area.addr + r.area.size && r.area.addr < a.endAddr
  {
  }

  /** Area at[i] picks region i and no other. */
  lemma FollowedAreaPicksItsRegion(areas: seq<Area>, recs: seq<Record>, at: seq<nat>, i: nat)
    requires RecordsOk(recs) && FollowsRecords(areas, recs, at) && i < |recs| && AreaOk(areas[at[i]])
    ensures FirstMatch(areas[at[i]], RegionsOf(recs), 0) == i
    ensures Matches(RegionsOf(recs)[i], areas[at[i]]) && !SkipRegion(areas[at[i]])
  {
    var a, tracked := areas[at[i]], RegionsOf(recs);
    assert AreaFollows(a, recs[i]) && RecordOk(recs[i]);
    RoundingIsTight(recs[i].area.addr + recs[i].area.size, 0);
    assert Matches(tracked[i], a);
    var k := FirstMatch(a, tracked, 0);
    if k < i {
      assert Matches(tracked[k], a) && RecordOk(recs[k]) && PagesBefore(recs[k].area, recs[i].area);
      RoundingIsTight(recs[k].area.addr + recs[k].area.size, 0);
      MatchedAreaShares(a, recs[k]);
    }
  }

  /** An area that some region matches is one of those that follow the records. */
  lemma PickedAreaFollows(areas: seq<Area>, recs: seq<Record>, at: seq<nat>, s: Space, k: nat)
    requires Lists(areas, s) && RecordsOk(recs) && FollowsRecords(areas, recs, at)
    requires k < |areas| && Picked(areas[k], RegionsOf(recs))
    ensures k in at
  {
    var tracked := RegionsOf(recs);
    var i := FirstMatch(areas[k], tracked, 0);
    assert RecordOk(recs[i]) && AreaFollows(areas[at[i]], recs[i]) && AreaOk(areas[k]);
    MatchedAreaShares(areas[k], recs[i]);
    RoundingIsTight(recs[i].area.addr + recs[i].area.size, 0);
    assert !(areas[k].endAddr <= areas[at[i]].addr) && !(areas[at[i]].endAddr <= areas[k].addr);
    assert at[i] == k;
  }

  lemma FollowedAreasIncrease(areas: seq<Area>, recs: seq<Record>, at: seq<nat>, s: Space)
    requires Lists(areas, s) && RecordsOk(recs) && FollowsRecords(areas, recs, at)
    ensures Increasing(at)
  {
    forall i, j | 0 <= i < j < |at| ensures at[i] < at[j] {
      assert AreaFollows(areas[at[i]], recs[i]) && AreaFollows(areas[at[j]], recs[j]);
      assert PagesBefore(recs[i].area, recs[j].area) && AreaOk(areas[at[i]]) && AreaOk(areas[at[j]]);
      assert areas[at[i]].addr < areas[at[j]].addr;
    }
  }

  lemma SourcesFollowRecords(areas: seq<Area>, recs: seq<Record>, at: seq<nat>, s: Space)
    requires Lists(areas, s) && RecordsOk(recs) && FollowsRecords(areas, recs, at)
    ensures Sources(areas, RegionsOf(recs)) == at
  {
    var tracked := RegionsOf(recs);
    var src := Sources(areas, tracked);
    FollowedAreasIncrease(areas, recs, at, s);
    forall i | 0 <= i < |at| ensures Picked(areas[at[i]], tracked) && at[i] < |areas| {
      assert AreaOk(areas[at[i]]);
      FollowedAreaPicksItsRegion(areas, recs, at, i);
    }
    forall k | 0 <= k < |areas| && Picked(areas[k], tracked) ensures k in at {
      PickedAreaFollows(areas, recs, at, s, k);
    }
    hide Lists, RecordsOk, FollowsRecords, Picked, RegionsOf;
    IncreasingListsAgree(src, at);
  }

  /** The same place, size and protection. */
  predicate SameRecordShape(w: Area, r: Area) {
    w.addr == r.addr && w.size == r.size && w.endAddr == r.endAddr && w.Prot() == r.Prot()
  }

  lemma CutFollows(a: Area, r: Record, s: Space)
    requires AreaOk(a) && RecordOk(r) && AreaFollows(a, r) && Matches(Region(r.area.addr, r.area.size), a)
    requires r.area.addr in s && s[r.area.addr].prot == r.area.Prot() == a.Prot()
    ensures SameRecordShape(Cut(a, Region(r.area.addr, r.area.size)), r.area)
  {
    RoundingIsTight(r.area.addr + r.area.size, 0);
  }

  /** The records' pages still have their protections; the bytes, and all other memory, may have changed. */
  ghost predicate KeepsProtections(s: Space, recs: seq<Record>) {
    forall i, x: nat :: 0 <= i < |recs| && OnPages(recs[i].area, x) ==> x in s && s[x].prot == recs[i].area.Prot()
  }

  /** Record w has r's byte exactly at those addresses where s still has what t had. */
  ghost predicate SameBytesWhereKept(w: Record, r: Record, s: Space, t: Space) {
    && w.area.addr == r.area.addr && |w.data| == |r.data| == r.area.size
    && forall x: nat :: Holds(r.area, x) ==>
         x in s && x in t && (s[x] == t[x] <==> w.data[x - r.area.addr] == r.data[x - r.area.addr])
  }

  /**
   Checkpoint is a fixed point of restart. A process restored by a fresh lower half from fewer than 1000
   records, whose listing follows the records, checkpoints again into records with the same addresses,
   sizes and protections, in the same order. Byte for byte, a record repeats what it was restored
   from exactly where the process has not changed memory since.
   */
  lemma SecondCheckpointRepeatsFirst(m: Machine, ctx: seq<Byte>, recs: seq<Record>, schedule: seq<Event>,
                                     s: Space, areas: seq<Area>, at: seq<nat>)
    requires WholePages(m.space) && m.refusals == [] && m.log == [] && |ctx| == CONTEXT_SIZE && Benign(schedule)
    requires RecordsOk(recs) && |recs| < MAX_TRACK && forall i :: 0 <= i < |recs| ==> PagesFree(m.space, recs[i].area)
    requires WholePages(s) && KeepsProtections(s, recs)
    requires Lists(areas, s) && FollowsRecords(areas, recs, at)
    ensures var restored := RestoreImage(m, Present(ImageBytes(ctx, recs), schedule)).machine;
            LogOk(ReportedList(restored.log)) &&
            var again := CheckpointRecords(areas, ReportedList(restored.log), s);
            && |again| == |recs|
            && (forall i :: 0 <= i < |recs| ==> SameRecordShape(again[i].area, recs[i].area))
            && (forall i :: 0 <= i < |recs| ==> SameBytesWhereKept(again[i], recs[i], s, restored.space))
  {
    RestoreOfRecords(m, ctx, recs, schedule);
    var restored := RestoreImage(m, Present(ImageBytes(ctx, recs), schedule)).machine;
    var tracked := RegionsOf(recs);
    ReportIsWholeLogIffNotWrapped(tracked);
    assert [] + tracked == tracked && ReportedList(restored.log) == tracked;
    SourcesFollowRecords(areas, recs, at, s);
    var again := CheckpointRecords(areas, tracked, s);
    CheckpointRecordsOk(areas, tracked, s);
    hide RestoreImage, ImageBytes, RecordBytes, CheckpointRecords, Lists, RecordsOk, FollowsRecords, RecordOk, Selected,
         Sources, WholePages, LogOk, SavedFrom, KeepsProtections;
    forall i | 0 <= i < |recs|
      ensures SameRecordShape(again[i].area, recs[i].area) && SameBytesWhereKept(again[i], recs[i], s, restored.space)
    {
      RecordRepeats(areas, recs, at, s, restored.space, m.space, again, i);
    }
  }

  lemma RecordRepeats(areas: seq<Area>, recs: seq<Record>, at: seq<nat>, s: Space, t: Space, u: Space,
                      again: seq<Record>, i: nat)
    requires Lists(areas, s) && WholePages(s) && RecordsOk(recs) && FollowsRecords(areas, recs, at) && i < |recs|
    requires LogOk(RegionsOf(recs)) && again == CheckpointRecords(areas, RegionsOf(recs), s)
    requires Rebuilt(t, u, recs) && KeepsProtections(s, recs)
    requires Sources(areas, RegionsOf(recs)) == at && |again| == |recs|
    ensures SameRecordShape(again[i].area, recs[i].area) && SameBytesWhereKept(again[i], recs[i], s, t)
  {
    hide *;
    FollowedAreaProtection(areas, recs, at, s, i);
    var a, r := areas[at[i]], recs[i];
    FollowedAreaPicksItsRegion(areas, recs, at, i);
    CheckpointRecordsOk(areas, RegionsOf(recs), s);
    SelectedFromFirstMatch(areas, RegionsOf(recs), i);
    RegionOfRecord(recs, i);
    CutFollows(a, r, s);
    RebuiltHolds(t, u, recs, i);
    SameBytes(again[i], r, s, t);
  }

  lemma FollowedAreaProtection(areas: seq<Area>, recs: seq<Record>, at: seq<nat>, s: Space, i: nat)
    requires Lists(areas, s) && RecordsOk(recs) && FollowsRecords(areas, recs, at) && i < |recs|
    requires KeepsProtections(s, recs)
    ensures |at| == |recs| && at[i] < |areas| && AreaOk(areas[at[i]]) && RecordOk(recs[i])
    ensures AreaFollows(areas[at[i]], recs[i])
    ensures var x := recs[i].area.addr; x in s && s[x].prot == recs[i].area.Prot() == areas[at[i]].Prot()
  {
    hide FirstMatch, SkipRegion;
    var a, r := areas[at[i]], recs[i];
    RoundingIsTight(r.area.addr + r.area.size, 0);
    assert AreaFollows(a, r) && RecordOk(r) && AreaOk(a);
    assert OnPages(r.area, r.area.addr) && InArea(a, r.area.addr);
  }

  lemma SelectedFromFirstMatch(areas: seq<Area>, tracked: seq<Region>, i: nat)
    requires LogOk(tracked) && i < |Selected(areas, tracked)|
    ensures var k := Sources(areas, tracked)[i];
            FirstMatch(areas[k], tracked, 0) < |tracked| && tracked[FirstMatch(areas[k], tracked, 0)] in tracked
    ensures var a := areas[Sources(areas, tracked)[i]];
            var r := tracked[FirstMatch(a, tracked, 0)];
            MmapArgsOk(r.addr, r.len) && Selected(areas, tracked)[i] == Cut(a, r)
  {
    hide Cut, MmapArgsOk, FirstMatch, SkipRegion, Sources;
    assert Picked(areas[Sources(areas, tracked)[i]], tracked);
  }

  lemma RegionOfRecord(recs: seq<Record>, i: nat)
    requires i < |recs|
    ensures RegionsOf(recs)[i] == Region(recs[i].area.addr, recs[i].area.size)
  {
  }

  lemma RebuiltHolds(t: Space, s: Space, recs: seq<Record>, i: nat)
    requires Rebuilt(t, s, recs) && i < |recs|
    ensures HoldsRecord(t, recs[i])
  {
    hide HoldsRecord;
  }

  lemma SameBytes(w: Record, r: Record, s: Space, t: Space)
    requires SavedFrom(w, s) && HoldsRecord(t, r) && SameRecordShape(w.area, r.area) && RecordOk(r)
    ensures SameBytesWhereKept(w, r, s, t)
  {
    forall x: nat | Holds(r.area, x)
      ensures x in s && x in t && (s[x] == t[x] <==> w.data[x - r.area.addr] == r.data[x - r.area.addr])
    {
      assert Holds(w.area, x);
    }
  }
}
