/** The kernel's listing of an address space, as areas and as the text of /proc/self/maps. */
module Listing {
  import opened Areas
  import opened Bytes
  import opened Memory
  import opened Pages
  import opened ProcMaps
  import opened Transfer

  predicate InArea(a: Area, x: nat) {
    a.addr <= x < a.endAddr
  }

  /** A listed area: a non-empty range of whole pages. */
  predicate AreaOk(a: Area) {
    && a.addr < a.endAddr && a.size == a.endAddr - a.addr
    && Aligned(a.addr) && Aligned(a.endAddr)
  }

  ghost predicate Ascending(areas: seq<Area>) {
    forall i, j :: 0 <= i < j < |areas| ==> areas[i].endAddr <= areas[j].addr
  }

  /**
   The areas cover exactly the mapped bytes, in ascending order, each with one protection. How the
   kernel merges neighbouring mappings into areas, and what it names them, is left open.
   */
  ghost predicate Lists(areas: seq<Area>, s: Space) {
    && (forall i :: 0 <= i < |areas| ==> AreaOk(areas[i]))
    && Ascending(areas)
    && (forall x :: x in s ==> exists i :: 0 <= i < |areas| && InArea(areas[i], x))
    && (forall i, x :: 0 <= i < |areas| && InArea(areas[i], x) ==> x in s && s[x].prot == areas[i].Prot())
  }

  /** A printable line about a non-empty range of whole pages, with a name that readMapsLine accepts. */
  ghost predicate LineOk(l: MapsLine) {
    && Printable(l) && NameAccepted(l.name)
    && l.addr < l.endAddr && Aligned(l.addr) && Aligned(l.endAddr)
  }

  /** The lines describe exactly the mapped bytes below `bound`. */
  ghost predicate LinesListBelow(lines: seq<MapsLine>, s: Space, bound: nat) {
    && (forall i :: 0 <= i < |lines| ==> LineOk(lines[i]) && lines[i].endAddr <= bound)
    && (forall i, j :: 0 <= i < j < |lines| ==> lines[i].endAddr <= lines[j].addr)
    && (forall x :: x in s && x < bound ==> exists i :: 0 <= i < |lines| && InLine(lines[i], x))
    && (forall i, x :: 0 <= i < |lines| && InLine(lines[i], x) ==> LineProt(lines[i], s, x))
  }

  /** The same relation between a space and the lines of its maps file. */
  ghost predicate LinesList(lines: seq<MapsLine>, s: Space) {
    LinesListBelow(lines, s, WORD)
  }

  predicate LineProt(l: MapsLine, s: Space, x: nat) {
    x in s && ProtIs(s[x].prot, l.r, l.w, l.x)
  }

  predicate InLine(l: MapsLine, x: nat) {
    l.addr <= x < l.endAddr
  }

  /** The areas describe the first |areas| lines. */
  ghost predicate DescribeFirst(areas: seq<Area>, lines: seq<MapsLine>) {
    |areas| <= |lines| && forall i :: 0 <= i < |areas| ==> Describes(areas[i], lines[i])
  }

  lemma DescribedLine(a: Area, l: MapsLine)
    requires Describes(a, l)
    ensures LineOk(l) ==> AreaOk(a)
    ensures forall x :: InArea(a, x) <==> InLine(l, x)
    ensures forall p: nat :: ProtIs(p, l.r, l.w, l.x) ==> p == a.Prot()
  {
    forall p: nat ensures ProtIs(p, l.r, l.w, l.x) <==> p == ProtBits(l.r, l.w, l.x) {
      BitsDetermine(p, l.r, l.w, l.x);
    }
  }

  /** Areas parsed from all the lines of a space list that space. */
  lemma DescribedAreasList(areas: seq<Area>, lines: seq<MapsLine>, s: Space)
    requires WholePages(s) && LinesList(lines, s) && DescribeFirst(areas, lines) && |areas| == |lines|
    ensures Lists(areas, s)
  {
    forall i | 0 <= i < |areas|
      ensures AreaOk(areas[i]) && areas[i].addr == lines[i].addr && areas[i].endAddr == lines[i].endAddr
      ensures forall x :: InArea(areas[i], x) <==> InLine(lines[i], x)
      ensures forall p: nat :: ProtIs(p, lines[i].r, lines[i].w, lines[i].x) ==> p == areas[i].Prot()
    {
      DescribedLine(areas[i], lines[i]);
    }
    hide Describes, LineOk, AreaOk, DescribeFirst, InArea, InLine;
    forall x | x in s ensures exists i :: 0 <= i < |areas| && InArea(areas[i], x) {
      assert x < WORD;
      var i :| 0 <= i < |lines| && InLine(lines[i], x);
      assert InArea(areas[i], x);
    }
    forall i, x | 0 <= i < |areas| && InArea(areas[i], x) ensures x in s && s[x].prot == areas[i].Prot() {
      assert InLine(lines[i], x);
    }
  }

  lemma LinesAreOk(lines: seq<MapsLine>, s: Space)
    requires LinesList(lines, s)
    ensures DescribeFirst([], lines) && forall i :: 0 <= i < |lines| ==> LineOk(lines[i])
  {
  }

  lemma DescribeNext(areas: seq<Area>, a: Area, lines: seq<MapsLine>)
    requires DescribeFirst(areas, lines) && |areas| < |lines| && Describes(a, lines[|areas|])
    ensures DescribeFirst(areas + [a], lines)
  {
  }

  lemma DescribedAreaMapped(a: Area, lines: seq<MapsLine>, s: Space, k: nat)
    requires LinesList(lines, s) && k < |lines| && Describes(a, lines[k])
    ensures AreaOk(a) && Mapped(s, a.addr, a.endAddr)
  {
    forall x | a.addr <= x < a.endAddr ensures x in s {
      assert InLine(lines[k], x);
    }
  }

  /** The file stands at the beginning of line k. */
  ghost predicate AtLine(contents: seq<Byte>, pos: nat, lines: seq<MapsLine>, k: nat) {
    pos <= |contents| && k <= |lines| && contents[pos..] == PrintLines(lines[k..])
  }

  lemma ParseAtLine(contents: seq<Byte>, pos: nat, lines: seq<MapsLine>, k: nat, prior: Area)
    requires AtLine(contents, pos, lines, k) && forall i :: 0 <= i < |lines| ==> LineOk(lines[i])
    ensures var p := ParseLine(contents, pos, prior);
            if k < |lines| then p.Line? && Describes(p.area, lines[k]) && AtLine(contents, p.next, lines, k + 1)
                else p.End?
  {
    var rest := contents[pos..];
    if k == |lines| {
      assert ReadNumber(contents, pos, 16, 0) == Number(0, 0, pos);
    } else {
      var l := lines[k];
      assert lines[k..][0] == l && lines[k..][1..] == lines[k + 1..];
      assert rest[..|PrintLine(l)|] == PrintLine(l) && LineOk(l);
      ParsePrinted(contents, l, pos, prior);
      assert contents[pos + |PrintLine(l)|..] == rest[|PrintLine(l)|..];
    }
  }

  /** readMapsLine on the file of a listed space: line after line, then 0. */
  method NextArea(maps: File, prior: Area, ghost lines: seq<MapsLine>, ghost k: nat) returns (p: LineRead)
    requires maps.Valid() && OnlyInterrupts(maps.schedule) && AtLine(maps.contents, maps.pos, lines, k)
    requires forall i :: 0 <= i < |lines| ==> LineOk(lines[i])
    modifies maps`pos, maps`schedule
    ensures maps.Valid() && OnlyInterrupts(maps.schedule)
    ensures if k < |lines| then p.Got? && Describes(p.area, lines[k]) && AtLine(maps.contents, maps.pos, lines, k + 1)
            else p.Ended?
  {
    hide *;
    ParseAtLine(maps.contents, maps.pos, lines, k, prior);
    DeliversContents(maps);
    ghost var next := ParseLine(maps.contents, maps.pos, prior);
    p := ReadMapsLine(maps, prior, maps.contents, maps.pos);
    StillValid(maps, maps.contents, next, p);
  }

  lemma StillValid(maps: File, text: seq<Byte>, parsed: Parse, p: LineRead)
    requires !parsed.Bad? ==>
             Delivers(maps, text, parsed.next) && maps.contents == text && OnlyInterrupts(maps.schedule)
    ensures !parsed.Bad? ==> maps.Valid() && maps.pos == parsed.next
  {
    if !parsed.Bad? {
      DeliversContents(maps);
    }
  }

  function PageLine(p: Word, prot: nat): MapsLine
    requires p + PAGE_SIZE < WORD
  {
    MapsLine(p, p + PAGE_SIZE, Readable(prot), Writable(prot), prot >= 4, false, 0, 0, 0, 0, 1, [])
  }

  lemma PageLineOk(p: Word, prot: nat)
    requires p + PAGE_SIZE < WORD && Aligned(p) && prot < 8
    ensures var l := PageLine(p, prot); LineOk(l) && ProtIs(prot, l.r, l.w, l.x)
  {
  }

  lemma PageIsUniform(s: Space, p: nat, x: nat)
    requires WholePages(s) && Aligned(p) && p <= x < p + PAGE_SIZE
    ensures x in s <==> p in s
    ensures x in s ==> s[x].prot == s[p].prot
  {
    assert SamePage(p, x) && SamePage(x, p);
  }

  lemma MappedPageListed(lines: seq<MapsLine>, s: Space, p: nat)
    requires WholePages(s) && Aligned(p) && p + PAGE_SIZE < WORD && LinesListBelow(lines, s, p) && p in s
    ensures LinesListBelow(lines + [PageLine(p, s[p].prot)], s, p + PAGE_SIZE)
  {
    var l := PageLine(p, s[p].prot);
    var longer := lines + [l];
    MappedPageCovered(lines, l, s, p);
    PageLineOk(p, s[p].prot);
    assert l.addr == p && l.endAddr == p + PAGE_SIZE;
    hide LineOk, PageLine, WholePages;
    forall i, x | 0 <= i < |longer| && InLine(longer[i], x) ensures LineProt(longer[i], s, x) {
      if i == |lines| {
        PageIsUniform(s, p, x);
      } else {
        assert InLine(lines[i], x);
      }
    }
  }

  lemma MappedPageCovered(lines: seq<MapsLine>, l: MapsLine, s: Space, p: nat)
    requires LinesListBelow(lines, s, p) && l.addr == p && l.endAddr == p + PAGE_SIZE
    ensures forall x :: x in s && x < p + PAGE_SIZE ==>
              exists i :: 0 <= i < |lines + [l]| && InLine((lines + [l])[i], x)
  {
    var longer := lines + [l];
    forall x | x in s && x < p + PAGE_SIZE ensures exists i :: 0 <= i < |longer| && InLine(longer[i], x) {
      if x < p {
        var i :| 0 <= i < |lines| && InLine(lines[i], x);
        assert InLine(longer[i], x);
      } else {
        assert InLine(longer[|lines|], x);
      }
    }
  }

  lemma UnmappedPageListed(lines: seq<MapsLine>, s: Space, p: nat)
    requires WholePages(s) && Aligned(p) && LinesListBelow(lines, s, p) && p !in s
    ensures LinesListBelow(lines, s, p + PAGE_SIZE)
  {
    forall x | x in s && x < p + PAGE_SIZE ensures x < p {
      if p <= x {
        PageIsUniform(s, p, x);
      }
    }
  }

  /** Opening /proc/self/maps: some listing of the space, read through interruptible reads. */
  method OpenMaps(os: AddressSpace) returns (f: File, ghost lines: seq<MapsLine>)
    requires os.Valid()
    ensures fresh(f) && f.Valid() && f.pos == 0 && OnlyInterrupts(f.schedule)
    ensures LinesList(lines, os.space) && AtLine(f.contents, 0, lines, 0)
  {
    var ls := ListPages(os);
    lines := ls;
    f := new File(PrintLines(ls), []);
    assert ls[0..] == ls && f.contents[0..] == f.contents;
  }

  /** One possible listing: a line for each page. */
  method ListPages(os: AddressSpace) returns (lines: seq<MapsLine>)
    requires os.Valid()
    ensures LinesList(lines, os.space)
  {
    assert LinesListBelow([], os.space, 0) && WholePages(os.space);
    hide LinesListBelow, PageLine, WholePages, LinesList;
    lines := [];
    var p := 0;
    while p + PAGE_SIZE < WORD
      invariant Aligned(p) && p < WORD
      invariant LinesListBelow(lines, os.space, p)
      decreases WORD - p
    {
      if p in os.space {
        MappedPageListed(lines, os.space, p);
        lines := lines + [PageLine(p, os.space[p].prot)];
      } else {
        UnmappedPageListed(lines, os.space, p);
      }
      p := p + PAGE_SIZE;
    }
    LastPageListed(lines, os.space, p);
  }

  lemma LastPageListed(lines: seq<MapsLine>, s: Space, p: nat)
    requires WholePages(s) && LinesListBelow(lines, s, p) && WORD - PAGE_SIZE <= p <= WORD
    ensures LinesList(lines, s)
  {
    forall x | x in s && x < WORD ensures x < p {
    }
  }
}
