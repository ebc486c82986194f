/** The image reader of mem-restore.c: it maps, fills and protects one region after another. */
module Restore {
  import opened Areas
  import opened Bytes
  import opened Checkpoint
  import opened Listing
  import opened Memory
  import opened MmapWrapper
  import opened Pages
  import opened ProcMaps
  import opened Transfer

  // ---------------------------------------------------------------- the conflict test

  /** What anyOverlappingRegion answers; a range that wraps around counts only as its first address. */
  ghost predicate Conflict(s: Space, addr: Word, size: Word) {
    addr in s || (addr + size < WORD && !Free(s, addr, addr + size))
  }

  /** One listed area against the wanted range. */
  ghost predicate AreaConflicts(p: Area, addr: Word, size: Word) {
    InArea(p, addr) || (addr + size < WORD && exists x: nat :: InArea(p, x) && Covers(addr, size, x))
  }

  lemma OverlapIsAreaConflict(p: Area, addr: Word, size: Word)
    requires AreaOk(p)
    ensures DoAreasOverlap(p.addr, p.size, addr, size) <==> AreaConflicts(p, addr, size)
  {
    OverlapMeansCommonAddress(p.addr, p.size, addr, size);
    if x: nat :| (Spans(p.addr, p.size, x) && (x == addr || Spans(addr, size, x)))
                 || (Spans(addr, size, x) && (x == p.addr || Spans(p.addr, p.size, x))) {
      assert InArea(p, x);
    }
    if x: nat :| InArea(p, x) && Covers(addr, size, x) && addr + size < WORD {
      assert Spans(p.addr, p.size, x) && Spans(addr, size, x);
    }
    if InArea(p, addr) {
      assert Spans(p.addr, p.size, addr);
    }
  }

  lemma ConflictIffSomeArea(areas: seq<Area>, s: Space, addr: Word, size: Word)
    requires Lists(areas, s)
    ensures Conflict(s, addr, size) <==> exists i :: 0 <= i < |areas| && AreaConflicts(areas[i], addr, size)
  {
    if addr in s {
      var i :| 0 <= i < |areas| && InArea(areas[i], addr);
      assert AreaConflicts(areas[i], addr, size);
    } else if addr + size < WORD && !Free(s, addr, addr + size) {
      var x :| addr <= x < addr + size && x in s;
      var i :| 0 <= i < |areas| && InArea(areas[i], x);
      assert Covers(addr, size, x) && AreaConflicts(areas[i], addr, size);
    }
    if i :| 0 <= i < |areas| && AreaConflicts(areas[i], addr, size) {
      if !InArea(areas[i], addr) {
        var x: nat :| InArea(areas[i], x) && Covers(addr, size, x);
        assert x in s;
      }
    }
  }

  /** anyOverlappingRegion: reads the maps file until a listed area overlaps. */
  method AnyOverlappingRegion(os: AddressSpace, a: Area) returns (hit: bool)
    requires os.Valid()
    ensures hit == Conflict(os.space, a.addr, a.size)
  {
    ghost var lines;
    var maps;
    maps, lines := OpenMaps(os);
    ghost var areas;
    hit, areas := SearchMaps(maps, a, lines, os.space);
    if !hit {
      DescribedAreasList(areas, lines, os.space);
      ConflictIffSomeArea(areas, os.space, a.addr, a.size);
    }
  }

  lemma LineConflict(p: Area, a: Area, lines: seq<MapsLine>, s: Space, k: nat)
    requires LinesList(lines, s) && k < |lines| && Describes(p, lines[k])
    ensures AreaOk(p) && (AreaConflicts(p, a.addr, a.size) ==> Conflict(s, a.addr, a.size))
  {
    DescribedAreaMapped(p, lines, s, k);
    if x: nat :| InArea(p, x) && Covers(a.addr, a.size, x) {
      assert x in s;
    }
  }

  method SearchMaps(maps: File, a: Area, ghost lines: seq<MapsLine>, ghost s: Space)
      returns (hit: bool, ghost areas: seq<Area>)
    requires LinesList(lines, s)
    requires maps.Valid() && OnlyInterrupts(maps.schedule) && AtLine(maps.contents, maps.pos, lines, 0)
    modifies maps`pos, maps`schedule
    ensures hit ==> Conflict(s, a.addr, a.size)
    ensures !hit ==> DescribeFirst(areas, lines) && |areas| == |lines|
                     && forall i :: 0 <= i < |areas| ==> !AreaConflicts(areas[i], a.addr, a.size)
  {
    hide *;
    var pArea: Area := *;
    areas := [];
    LinesAreOk(lines, s);
    while true
      invariant maps.Valid() && OnlyInterrupts(maps.schedule)
      invariant AtLine(maps.contents, maps.pos, lines, |areas|) && DescribeFirst(areas, lines) && |areas| <= |lines|
      invariant forall i :: 0 <= i < |areas| ==> !AreaConflicts(areas[i], a.addr, a.size)
      decreases |lines| - |areas|
    {
      var p := NextArea(maps, pArea, lines, |areas|);
      if !p.Got? {
        break;
      }
      pArea := p.area;
      LineConflict(pArea, a, lines, s, |areas|);
      OverlapIsAreaConflict(pArea, a.addr, a.size);
      if DoAreasOverlap(pArea.addr, pArea.size, a.addr, a.size) {
        return true, areas;
      }
      DescribeNext(areas, pArea, lines);
      areas := areas + [pArea];
    }
    hit := false;
  }

  // ---------------------------------------------------------------- one region

  /** A result code, the machine, how much of the image has been read, and what is left of the schedule. */
  datatype Restored = Restored(rc: int, machine: Machine, pos: nat, rest: seq<Event>)

  /** The region once mapped and filled, and once protected. */
  function FilledPages(s: Space, addr: nat, size: nat, prot: nat, stored: seq<Byte>): Space {
    Store(Place(s, addr, Zeros(RoundUp(size)), WithWrite(prot) % 8), addr, stored)
  }

  function GuardedPages(s: Space, addr: nat, size: nat, prot: nat, stored: seq<Byte>): Space {
    Protect(FilledPages(s, addr, size, prot, stored), addr, RoundUp(addr + size), prot)
  }

  /** The conversion in `bytes < area->size`: -1 becomes the largest size_t. */
  function AsSize(rc: int): Word
    requires -1 <= rc < WORD
  {
    if rc < 0 then WORD - 1 else rc
  }

  /** restoreMemoryRegion, reading the image as the schedule has it. */
  ghost function RestoreRegion(m: Machine, a: Area, img: seq<Byte>, pos: nat, schedule: seq<Event>): (r: Restored)
    requires pos <= |img|
    ensures pos <= r.pos <= |img| && |r.rest| <= |schedule|
    ensures (r.rc == 0 || r.rc == -1) && (Conflict(m.space, a.addr, a.size) ==> r.rc == -1)
  {
    if Conflict(m.space, a.addr, a.size) then Restored(-1, m, pos, schedule)
    else if !MmapArgsOk(a.addr, a.size) || Refused(m.refusals) then
      Restored(-1, m.(refusals := NextRefusals(m.refusals)), pos, schedule)
    else
      var t := Reading(schedule, a.size, |img| - pos);
      var stored := img[pos..pos + t.moved];
      var done := !(AsSize(if t.failed then -1 else t.moved) < a.size) && ValidProt(a.Prot());
      var pages := if done then GuardedPages(m.space, a.addr, a.size, a.Prot(), stored)
                   else FilledPages(m.space, a.addr, a.size, a.Prot(), stored);
      Restored(if done then 0 else -1,
               Machine(pages, NextRefusals(m.refusals), m.log + [Region(a.addr, a.size)]), pos + t.moved, t.rest)
  }

  /** A read error is never reported as a short read: the comparison is unsigned. */
  lemma ReadErrorIsNotShort(size: Word)
    ensures !(AsSize(-1) < size)
    ensures forall rc: int :: 0 <= rc < WORD ==> (AsSize(rc) < size <==> rc < size)
  {
  }

  /** A fresh mapping of a conflict-free range takes nothing that was mapped. */
  lemma FreshPagesFree(s: Space, addr: Word, size: Word)
    requires WholePages(s) && MmapArgsOk(addr, size) && !Conflict(s, addr, size)
    ensures Free(s, addr, RoundUp(addr + size)) && addr + RoundUp(size) == RoundUp(addr + size)
  {
    RoundUpShift(addr, size);
    RoundingIsTight(size, 0);
    FreeUpToPage(s, addr, size);
  }

  lemma FilledPagesExtend(s: Space, addr: nat, size: nat, prot: nat, stored: seq<Byte>)
    requires WholePages(s) && MmapArgsOk(addr, size) && Free(s, addr, RoundUp(addr + size)) && |stored| <= size
    ensures Extends(FilledPages(s, addr, size, prot, stored), s) && WholePages(FilledPages(s, addr, size, prot, stored))
  {
    var mapped := Place(s, addr, Zeros(RoundUp(size)), WithWrite(prot) % 8);
    RoundUpShift(addr, size);
    RoundingIsTight(size, 0);
    PlaceKeepsWholePages(s, addr, Zeros(RoundUp(size)), WithWrite(prot) % 8);
    StoreKeepsWholePages(mapped, addr, stored);
  }

  lemma GuardedPagesExtend(s: Space, addr: nat, size: nat, prot: nat, stored: seq<Byte>)
    requires WholePages(s) && MmapArgsOk(addr, size) && Free(s, addr, RoundUp(addr + size)) && |stored| <= size
    requires ValidProt(prot)
    ensures Extends(GuardedPages(s, addr, size, prot, stored), s)
    ensures WholePages(GuardedPages(s, addr, size, prot, stored))
  {
    FilledPagesExtend(s, addr, size, prot, stored);
    RoundingIsTight(addr + size, 0);
    ProtectKeepsWholePages(FilledPages(s, addr, size, prot, stored), addr, RoundUp(addr + size), prot);
  }

  /** For every record, image and schedule: what was mapped stays as it was, whether the region is restored or not. */
  lemma RegionNeverClobbers(m: Machine, a: Area, img: seq<Byte>, pos: nat, schedule: seq<Event>)
    requires WholePages(m.space) && LogOk(m.log) && pos <= |img|
    ensures var r := RestoreRegion(m, a, img, pos, schedule);
            Extends(r.machine.space, m.space) && WholePages(r.machine.space) && LogOk(r.machine.log)
                && m.log <= r.machine.log
  {
    hide FilledPages, GuardedPages, Free, Conflict, Reading;
    if !Conflict(m.space, a.addr, a.size) && MmapArgsOk(a.addr, a.size) {
      var n := Reading(schedule, a.size, |img| - pos).moved;
      FreshPagesFree(m.space, a.addr, a.size);
      FilledPagesExtend(m.space, a.addr, a.size, a.Prot(), img[pos..pos + n]);
      if ValidProt(a.Prot()) {
        GuardedPagesExtend(m.space, a.addr, a.size, a.Prot(), img[pos..pos + n]);
      }
    }
  }

  /**
   A region that could be mapped and protected is reported as restored with fewer bytes than its size if and
   only if a permanent read error is met before its bytes, or the image, are at an end.
   */
  lemma RestoredShortIffReadFails(m: Machine, a: Area, img: seq<Byte>, pos: nat, schedule: seq<Event>)
    requires pos <= |img| && !Conflict(m.space, a.addr, a.size) && MmapArgsOk(a.addr, a.size)
    requires !Refused(m.refusals) && ValidProt(a.Prot())
    ensures var r := RestoreRegion(m, a, img, pos, schedule);
            r.rc == 0 && r.pos - pos < a.size <==> FailReached(schedule, a.size, |img| - pos)
  {
    hide Conflict, GuardedPages, FilledPages, Reading, FailReached, AsSize;
    ReadErrorIsNotShort(a.size);
    FailsIffReached(schedule, a.size, |img| - pos);
  }

  /** One such read: three bytes of a page arrive, the next read fails, and the region counts as restored. */
  lemma FailedReadIsReportedRestored(m: Machine, a: Area, img: seq<Byte>)
    requires !Conflict(m.space, a.addr, a.size) && MmapArgsOk(a.addr, a.size) && !Refused(m.refusals)
    requires ValidProt(a.Prot())
    requires a.size == PAGE_SIZE <= |img|
    ensures var r := RestoreRegion(m, a, img, 0, [Partial(3), Fail]);
            && r.rc == 0 && r.pos == 3 && r.rest == []
            && r.machine.space == GuardedPages(m.space, a.addr, PAGE_SIZE, a.Prot(), img[..3])
  {
    hide Conflict, GuardedPages, FilledPages;
    assert [Partial(3), Fail][1..] == [Fail] && [Fail][1..] == [];
    assert Reading([Fail], PAGE_SIZE - 3, |img| - 3) == Transferred(true, 0, []);
    assert Reading([Partial(3), Fail], PAGE_SIZE, |img|) == Transferred(true, 3, []);
  }

  /** mmapWrapper over a conflict-free range. */
  lemma MapTrackedFresh(m: Machine, a: Area, stored: seq<Byte>)
    ensures var (m1, ok) := MapTracked(m, a.addr, a.size, WithWrite(a.Prot()), Anonymous);
            && ok == (MmapArgsOk(a.addr, a.size) && !Refused(m.refusals))
            && m1.refusals == NextRefusals(m.refusals)
            && (!ok ==> m1.space == m.space && m1.log == m.log)
            && (ok ==> m1.log == m.log + [Region(a.addr, a.size)]
                       && Store(m1.space, a.addr, stored) == FilledPages(m.space, a.addr, a.size, a.Prot(), stored))
  {
  }

  lemma MapTrackedMaps(m: Machine, addr: nat, size: nat, prot: nat)
    requires MapTracked(m, addr, size, prot, Anonymous).1
    ensures Mapped(MapTracked(m, addr, size, prot, Anonymous).0.space, addr, RoundUp(addr + size))
    ensures MmapArgsOk(addr, size) && Aligned(addr) && addr + size <= RoundUp(addr + size)
  {
    RoundUpShift(addr, size);
    RoundingIsTight(addr + size, 0);
  }

  lemma StoreKeepsMapped(s: Space, addr: nat, data: seq<Byte>, hi: nat)
    requires Mapped(s, addr, hi) && addr + |data| <= hi
    ensures Mapped(Store(s, addr, data), addr, hi) && Mapped(s, addr, addr + |data|)
  {
  }

  /** The ways through restoreMemoryRegion. */
  lemma RegionOutcomes(m: Machine, a: Area, img: seq<Byte>, pos: nat, schedule: seq<Event>)
    requires pos <= |img|
    ensures var r := RestoreRegion(m, a, img, pos, schedule);
            var (m1, ok) := MapTracked(m, a.addr, a.size, WithWrite(a.Prot()), Anonymous);
            && (Conflict(m.space, a.addr, a.size) ==> r == Restored(-1, m, pos, schedule))
            && (!Conflict(m.space, a.addr, a.size) && !ok ==>
                m1.space == m.space && r == Restored(-1, m1, pos, schedule))
            && (!Conflict(m.space, a.addr, a.size) && ok ==> r == FillOutcome(m, m1, a, img, pos, schedule))
  {
    hide FilledPages, GuardedPages, Conflict, Place, Reading;
    MapTrackedFresh(m, a, img[pos..pos + Reading(schedule, a.size, |img| - pos).moved]);
  }

  /** From the mapping on, which took the machine from m to m1. */
  ghost function FillOutcome(m: Machine, m1: Machine, a: Area, img: seq<Byte>, pos: nat, schedule: seq<Event>): Restored
    requires pos <= |img|
  {
    var t := Reading(schedule, a.size, |img| - pos);
    var done := !(AsSize(if t.failed then -1 else t.moved) < a.size) && ValidProt(a.Prot());
    var pages := if done then GuardedPages(m.space, a.addr, a.size, a.Prot(), img[pos..pos + t.moved])
                 else FilledPages(m.space, a.addr, a.size, a.Prot(), img[pos..pos + t.moved]);
    Restored(if done then 0 else -1, m1.(space := pages), pos + t.moved, t.rest)
  }

  /** After a successful mapping: what the stores will find. */
  lemma RegionMapped(m: Machine, a: Area, stored: seq<Byte>)
    requires WholePages(m.space) && !Conflict(m.space, a.addr, a.size) && |stored| <= a.size
    requires MapTracked(m, a.addr, a.size, WithWrite(a.Prot()), Anonymous).1
    ensures var m1 := MapTracked(m, a.addr, a.size, WithWrite(a.Prot()), Anonymous).0;
            var filled := FilledPages(m.space, a.addr, a.size, a.Prot(), stored);
            && Mapped(m1.space, a.addr, a.addr + |stored|) && Store(m1.space, a.addr, stored) == filled
            && Extends(filled, m.space)
            && Aligned(a.addr) && Mapped(filled, a.addr, RoundUp(a.addr + a.size))
  {
    hide *;
    MapTrackedFresh(m, a, stored);
    MapTrackedMaps(m, a.addr, a.size, WithWrite(a.Prot()));
    FreshPagesFree(m.space, a.addr, a.size);
    FilledPagesExtend(m.space, a.addr, a.size, a.Prot(), stored);
    StoreKeepsMapped(MapTracked(m, a.addr, a.size, WithWrite(a.Prot()), Anonymous).0.space, a.addr, stored,
                     RoundUp(a.addr + a.size));
  }

  /** What mprotect leaves. */
  lemma RegionGuarded(m: Machine, a: Area, stored: seq<Byte>)
    requires WholePages(m.space) && !Conflict(m.space, a.addr, a.size) && |stored| <= a.size
    requires MapTracked(m, a.addr, a.size, WithWrite(a.Prot()), Anonymous).1
    ensures var guarded := GuardedPages(m.space, a.addr, a.size, a.Prot(), stored);
            && guarded == Protect(FilledPages(m.space, a.addr, a.size, a.Prot(), stored), a.addr,
                                  RoundUp(a.addr + a.size), a.Prot())
            && (ValidProt(a.Prot()) ==> Extends(guarded, m.space))
  {
    hide WholePages, Conflict, MapTracked, Extends, FilledPages, Protect, Place, Free;
    MapTrackedMaps(m, a.addr, a.size, WithWrite(a.Prot()));
    FreshPagesFree(m.space, a.addr, a.size);
    if ValidProt(a.Prot()) {
      GuardedPagesExtend(m.space, a.addr, a.size, a.Prot(), stored);
    }
  }

  lemma SpaceExtendsItself(s: Space)
    ensures Extends(s, s)
  {
  }

  /** restoreMemoryRegion, for any schedule of the image file. Memory that was mapped is never changed. */
  method RestoreMemoryRegion(f: File, lower: Tracker, a: Area) returns (rc: int)
    requires f.Valid() && lower.Valid()
    modifies f`pos, f`schedule, lower, lower.mmaps, lower.os
    ensures f.Valid() && lower.Valid() && Extends(lower.os.space, old(lower.os.space))
    ensures Restored(rc, lower.View(), f.pos, f.schedule)
            == RestoreRegion(old(lower.View()), a, f.contents, old(f.pos), old(f.schedule))
  {
    hide *;
    ghost var m := lower.View();
    lower.ValidParts();
    lower.ViewParts();
    f.InRange();
    SpaceExtendsItself(m.space);
    RegionOutcomes(m, a, f.contents, f.pos, f.schedule);
    var hit := AnyOverlappingRegion(lower.os, a);
    if hit {
      return -1;
    }
    var ok := lower.MmapFixed(a.addr, a.size, WithWrite(a.Prot()), Anonymous);
    lower.ViewParts();
    if !ok {
      return -1;
    }
    rc := FillRegion(f, lower, a, m);
    lower.ViewParts();
    f.InRange();
  }

  /** From the mapping on: read the bytes in and restore the protection. */
  method FillRegion(f: File, lower: Tracker, a: Area, ghost m: Machine) returns (rc: int)
    requires f.Valid() && lower.Valid() && WholePages(m.space) && !Conflict(m.space, a.addr, a.size)
    requires (lower.View(), true) == MapTracked(m, a.addr, a.size, WithWrite(a.Prot()), Anonymous)
    modifies f`pos, f`schedule, lower.os
    ensures f.Valid() && lower.Valid() && Extends(lower.os.space, m.space)
    ensures Restored(rc, lower.View(), f.pos, f.schedule)
            == FillOutcome(m, old(lower.View()), a, f.contents, old(f.pos), old(f.schedule))
  {
    hide *;
    ghost var img, pos, schedule, m1 := f.contents, f.pos, f.schedule, lower.View();
    f.InRange();
    lower.ValidParts();
    lower.ViewParts();
    var bytes, data := ReadAll(f, a.size);
    f.InRange();
    FillParts(m, m1, a, img, pos, schedule, bytes, data);
    RegionMapped(m, a, data);
    RegionGuarded(m, a, data);
    lower.os.Write(a.addr, data);
    lower.ValidParts();
    lower.ViewParts();
    if AsSize(bytes) < a.size {
      return -1;
    }
    var guarded := lower.os.Mprotect(a.addr, a.size, a.Prot());
    lower.ValidParts();
    lower.ViewParts();
    rc := if guarded then 0 else -1;
  }

  lemma FillParts(m: Machine, m1: Machine, a: Area, img: seq<Byte>, pos: nat, schedule: seq<Event>, bytes: int,
                  data: seq<Byte>)
    requires pos <= |img|
    requires var t := Reading(schedule, a.size, |img| - pos);
             bytes == (if t.failed then -1 else t.moved) && |data| == t.moved && data == img[pos..pos + |data|]
    ensures -1 <= bytes < WORD && |data| <= a.size
    ensures var rest := Reading(schedule, a.size, |img| - pos).rest;
            FillOutcome(m, m1, a, img, pos, schedule) ==
            if AsSize(bytes) < a.size || !ValidProt(a.Prot()) then
              Restored(-1, m1.(space := FilledPages(m.space, a.addr, a.size, a.Prot(), data)), pos + |data|, rest)
            else Restored(0, m1.(space := GuardedPages(m.space, a.addr, a.size, a.Prot(), data)), pos + |data|, rest)
  {
    hide Reading, FilledPages, GuardedPages;
  }

  // ---------------------------------------------------------------- one image

  /** The area buffer after readAll put `data` at its front; a short read leaves the rest as it was. */
  function Overwrite(buf: seq<Byte>, data: seq<Byte>): (b: seq<Byte>)
    requires |data| <= |buf|
    ensures |b| == |buf|
  {
    data + buf[|data|..]
  }

  /**
   restoreMemory: records until a header read finds nothing, or a region fails. A header read that fails for good
   is taken for a header, with whatever is in the buffer.
   */
  ghost function RestoreMemory(m: Machine, buf: seq<Byte>, img: seq<Byte>, pos: nat,
                               schedule: seq<Event>): (r: Restored)
    requires |buf| == AREA_SIZE && pos <= |img|
    ensures pos <= r.pos <= |img| && (r.rc == 0 || r.rc == -1)
    decreases |schedule| + |img| - pos
  {
    var t := Reading(schedule, AREA_SIZE, |img| - pos);
    if !t.failed && t.moved == 0 then Restored(0, m, pos, t.rest)
    else
      var read := Overwrite(buf, img[pos..pos + t.moved]);
      var r := RestoreRegion(m, Decode(read), img, pos + t.moved, t.rest);
      if r.rc != 0 then r else RestoreMemory(r.machine, read, img, r.pos, r.rest)
  }

  lemma ExtendsIsTransitive(t: Space, s: Space, r: Space)
    requires Extends(t, s) && Extends(s, r)
    ensures Extends(t, r)
  {
  }

  /**
   Every byte string taken as an image, truncated and malformed ones included, and every schedule of its
   reads, failing ones included, leaves all memory that was mapped before, bytes and protections, as it was.
   */
  lemma {:induction false} RestoreNeverClobbers(m: Machine, buf: seq<Byte>, img: seq<Byte>, pos: nat,
                                                schedule: seq<Event>)
    requires WholePages(m.space) && LogOk(m.log) && |buf| == AREA_SIZE && pos <= |img|
    ensures var r := RestoreMemory(m, buf, img, pos, schedule);
            Extends(r.machine.space, m.space) && WholePages(r.machine.space) && LogOk(r.machine.log)
                && m.log <= r.machine.log
    decreases |schedule| + |img| - pos
  {
    hide Extends, WholePages, LogOk, RestoreRegion, Decode, Reading;
    SpaceExtendsItself(m.space);
    var t := Reading(schedule, AREA_SIZE, |img| - pos);
    if t.failed || t.moved > 0 {
      var read := Overwrite(buf, img[pos..pos + t.moved]);
      var r := RestoreRegion(m, Decode(read), img, pos + t.moved, t.rest);
      RegionNeverClobbers(m, Decode(read), img, pos + t.moved, t.rest);
      if r.rc == 0 {
        RestoreNeverClobbers(r.machine, read, img, r.pos, r.rest);
        ExtendsIsTransitive(RestoreMemory(r.machine, read, img, r.pos, r.rest).machine.space, r.machine.space, m.space);
      }
    }
  }

  /** The loop from one machine, buffer and position on ends as `all`. */
  ghost predicate EndsAs(all: Restored, m: Machine, buf: seq<Byte>, img: seq<Byte>, pos: nat, schedule: seq<Event>) {
    |buf| == AREA_SIZE && pos <= |img| && all == RestoreMemory(m, buf, img, pos, schedule)
  }

  /** One turn of restoreMemory's loop, after a header read that left `data` and what it left of the schedule. */
  lemma RestoreMemoryTurn(all: Restored, m: Machine, buf: seq<Byte>, img: seq<Byte>, pos: nat, schedule: seq<Event>,
                          data: seq<Byte>)
    requires EndsAs(all, m, buf, img, pos, schedule)
    requires var t := Reading(schedule, AREA_SIZE, |img| - pos); |data| == t.moved && data == img[pos..pos + |data|]
    ensures var t := Reading(schedule, AREA_SIZE, |img| - pos);
            if !t.failed && t.moved == 0 then all == Restored(0, m, pos, t.rest)
            else
              var read := Overwrite(buf, data);
              var r := RestoreRegion(m, Decode(read), img, pos + |data|, t.rest);
              if r.rc != 0 then all == r else EndsAs(all, r.machine, read, img, r.pos, r.rest)
  {
    hide Reading, RestoreRegion, Decode;
  }

  lemma TurnStarts(m: Machine, buf: seq<Byte>, img: seq<Byte>, pos: nat, schedule: seq<Event>)
    requires |buf| == AREA_SIZE && pos <= |img|
    ensures EndsAs(RestoreMemory(m, buf, img, pos, schedule), m, buf, img, pos, schedule)
  {
    hide RestoreMemory;
  }

  /** restoreMemory; the area buffer starts zeroed and is reused from record to record. */
  method RestoreMemoryFrom(f: File, lower: Tracker) returns (rc: int)
    requires f.Valid() && lower.Valid()
    modifies f`pos, f`schedule, lower, lower.mmaps, lower.os
    ensures f.Valid() && lower.Valid() && Extends(lower.os.space, old(lower.os.space)) && (rc == 0 || rc == -1)
    ensures Restored(rc, lower.View(), f.pos, f.schedule)
            == RestoreMemory(old(lower.View()), Zeros(AREA_SIZE), f.contents, old(f.pos), old(f.schedule))
  {
    hide *;
    rc := 0;
    var buf: seq<Byte>, more := Zeros(AREA_SIZE), true;
    f.InRange();
    ghost var all, s := RestoreMemory(lower.View(), Zeros(AREA_SIZE), f.contents, f.pos, f.schedule), lower.os.space;
    TurnStarts(lower.View(), Zeros(AREA_SIZE), f.contents, f.pos, f.schedule);
    SpaceExtendsItself(lower.os.space);
    while rc == 0 && more
      invariant f.Valid() && lower.Valid() && |buf| == AREA_SIZE && Extends(lower.os.space, s)
      invariant f.pos <= |f.contents|
      invariant if rc == 0 && more then EndsAs(all, lower.View(), buf, f.contents, f.pos, f.schedule)
                else all == Restored(rc, lower.View(), f.pos, f.schedule)
      decreases |f.schedule| + |f.contents| - f.pos, more
    {
      ghost var prior := lower.os.space;
      rc, buf, more := RestoreNextRecord(f, lower, buf, all);
      f.InRange();
      ExtendsIsTransitive(lower.os.space, prior, s);
    }
  }

  /** One turn of restoreMemory's loop: read a record header, then restore its region. */
  method RestoreNextRecord(f: File, lower: Tracker, buf: seq<Byte>, ghost all: Restored)
      returns (rc: int, buf': seq<Byte>, more: bool)
    requires f.Valid() && lower.Valid() && |buf| == AREA_SIZE
    requires EndsAs(all, lower.View(), buf, f.contents, f.pos, f.schedule)
    modifies f`pos, f`schedule, lower, lower.mmaps, lower.os
    ensures f.Valid() && lower.Valid() && |buf'| == AREA_SIZE && Extends(lower.os.space, old(lower.os.space))
    ensures if rc == 0 && more then EndsAs(all, lower.View(), buf', f.contents, f.pos, f.schedule)
            else all == Restored(rc, lower.View(), f.pos, f.schedule)
    ensures |f.schedule| - f.pos <= |old(f.schedule)| - old(f.pos)
    ensures more ==> |f.schedule| - f.pos < |old(f.schedule)| - old(f.pos)
  {
    hide *;
    f.InRange();
    SpaceExtendsItself(lower.os.space);
    ghost var m, img, pos, schedule := lower.View(), f.contents, f.pos, f.schedule;
    var n, data := ReadAll(f, AREA_SIZE);
    f.InRange();
    RestoreMemoryTurn(all, m, buf, img, pos, schedule, data);
    buf' := Overwrite(buf, data);
    if n == 0 {
      return 0, buf', false;
    }
    rc := RestoreMemoryRegion(f, lower, Decode(buf'));
    f.InRange();
    more := true;
  }

  /** What open() finds: no file, or its bytes and the way reads of it will go. */
  datatype DiskImage = Missing | Present(bytes: seq<Byte>, schedule: seq<Event>)

  /** sizeof(CkptRestartState_t): a 968-byte ucontext_t and two pointers. */
  const CONTEXT_SIZE: nat := 984

  datatype Outcome = Done | Failed | Aborted

  /** The outcome, the machine and the context read for each image. */
  datatype ImagesRestored = ImagesRestored(outcome: Outcome, machine: Machine, contexts: seq<seq<Byte>>)

  /** restoreMemoryForImage: the context, then memory; fewer bytes than a context fail an assertion. */
  ghost function RestoreImage(m: Machine, image: DiskImage): ImagesRestored {
    if image.Missing? then ImagesRestored(Failed, m, [])
    else
      var t := Reading(image.schedule, CONTEXT_SIZE, |image.bytes|);
      if t.failed || t.moved != CONTEXT_SIZE then ImagesRestored(Aborted, m, [])
      else
        var r := RestoreMemory(m, Zeros(AREA_SIZE), image.bytes, CONTEXT_SIZE, t.rest);
        ImagesRestored(if r.rc < 0 then Failed else Done, r.machine, [image.bytes[..CONTEXT_SIZE]])
  }

  /** restoreMemoryForImages: one image after another until one fails. */
  ghost function RestoreImages(m: Machine, images: seq<DiskImage>): ImagesRestored
    decreases |images|
  {
    if images == [] then ImagesRestored(Done, m, [])
    else
      var first := RestoreImage(m, images[0]);
      if first.outcome != Done then first
      else
        var rest := RestoreImages(first.machine, images[1..]);
        rest.(contexts := first.contexts + rest.contexts)
  }

  /** For every image file and schedule: the outcome, the machine and the context are RestoreImage's. */
  method RestoreMemoryForImage(image: DiskImage, lower: Tracker) returns (outcome: Outcome, context: seq<Byte>)
    requires lower.Valid()
    modifies lower, lower.mmaps, lower.os
    ensures lower.Valid() && Extends(lower.os.space, old(lower.os.space))
    ensures outcome == Done ==> |context| == CONTEXT_SIZE
    ensures var r := RestoreImage(old(lower.View()), image);
            r.outcome == outcome && r.machine == lower.View() && (outcome == Done ==> r.contexts == [context])
  {
    hide *;
    SpaceExtendsItself(lower.os.space);
    ghost var m := lower.View();
    if image.Missing? {
      MissingImage(m);
      return Failed, [];
    }
    var f := new File(image.bytes, image.schedule);
    f.InRange();
    var n;
    n, context := ReadAll(f, CONTEXT_SIZE);
    f.InRange();
    ContextRead(m, image, n, context);
    if n != CONTEXT_SIZE {
      return Aborted, context;
    }
    var rc := RestoreMemoryFrom(f, lower);
    outcome := if rc < 0 then Failed else Done;
  }

  lemma MissingImage(m: Machine)
    ensures RestoreImage(m, Missing) == ImagesRestored(Failed, m, [])
  {
  }

  lemma ContextRead(m: Machine, image: DiskImage, n: int, context: seq<Byte>)
    requires image.Present?
    requires var t := Reading(image.schedule, CONTEXT_SIZE, |image.bytes|);
             n == (if t.failed then -1 else t.moved) && |context| == t.moved && context == image.bytes[0..|context|]
    ensures n == CONTEXT_SIZE ==> |context| == CONTEXT_SIZE
    ensures var r := RestoreImage(m, image);
            if n != CONTEXT_SIZE then r == ImagesRestored(Aborted, m, [])
            else
              var rest := Reading(image.schedule, CONTEXT_SIZE, |image.bytes|).rest;
              var out := RestoreMemory(m, Zeros(AREA_SIZE), image.bytes, CONTEXT_SIZE, rest);
              r == ImagesRestored(if out.rc < 0 then Failed else Done, out.machine, [context])
  {
    hide RestoreMemory, Reading;
  }

  function Prepend(contexts: seq<seq<Byte>>, r: ImagesRestored): ImagesRestored {
    r.(contexts := contexts + r.contexts)
  }

  lemma RestoreImagesTurn(m: Machine, images: seq<DiskImage>, i: nat, done: seq<seq<Byte>>)
    requires i < |images|
    ensures var first := RestoreImage(m, images[i]);
            && (first.outcome == Done ==>
                  Prepend(done, RestoreImages(m, images[i..])) ==
                  Prepend(done + first.contexts, RestoreImages(first.machine, images[i + 1..])))
            && (first.outcome != Done ==> RestoreImages(m, images[i..]) == first)
  {
    hide RestoreImage;
    assert images[i..][0] == images[i] && images[i..][1..] == images[i + 1..];
    var first := RestoreImage(m, images[i]);
    if first.outcome == Done {
      var rest := RestoreImages(first.machine, images[i + 1..]);
      assert done + (first.contexts + rest.contexts) == done + first.contexts + rest.contexts;
    }
  }

  lemma RestoreImagesEnds(m: Machine, images: seq<DiskImage>, done: seq<seq<Byte>>)
    ensures images[0..] == images
    ensures Prepend([], RestoreImages(m, images)) == RestoreImages(m, images)
    ensures Prepend(done, RestoreImages(m, images[|images|..])) == ImagesRestored(Done, m, done)
  {
  }

  /** restoreMemoryForImages: fills the array of contexts image by image. */
  method RestoreMemoryForImages(images: seq<DiskImage>, contexts: array<seq<Byte>>, lower: Tracker)
      returns (outcome: Outcome)
    requires lower.Valid() && contexts.Length == |images|
    modifies contexts, lower, lower.mmaps, lower.os
    ensures lower.Valid() && Extends(lower.os.space, old(lower.os.space))
    ensures var r := RestoreImages(old(lower.View()), images);
            r.outcome == outcome && r.machine == lower.View() && (outcome == Done ==> contexts[..] == r.contexts)
  {
    hide *;
    ghost var m := lower.View();
    SpaceExtendsItself(lower.os.space);
    RestoreImagesEnds(m, images, []);
    assert contexts[..0] == [];
    var i := 0;
    while i < |images|
      invariant 0 <= i <= |images| && lower.Valid()
      invariant Extends(lower.os.space, old(lower.os.space))
      invariant RestoreImages(m, images) == Prepend(contexts[..i], RestoreImages(lower.View(), images[i..]))
    {
      ghost var prior, done, v := lower.os.space, contexts[..i], lower.View();
      RestoreImagesTurn(v, images, i, done);
      PrependKeeps(done, RestoreImages(v, images[i..]));
      var context;
      outcome, context := RestoreMemoryForImage(images[i], lower);
      ExtendsIsTransitive(lower.os.space, prior, old(lower.os.space));
      if outcome != Done {
        return;
      }
      contexts[i] := context;
      assert contexts[..i + 1] == done + [context];
      i := i + 1;
    }
    RestoreImagesEnds(lower.View(), images, contexts[..i]);
    assert contexts[..i] == contexts[..];
    outcome := Done;
  }

  lemma PrependKeeps(contexts: seq<seq<Byte>>, r: ImagesRestored)
    ensures Prepend(contexts, r).outcome == r.outcome && Prepend(contexts, r).machine == r.machine
  {
  }
}
