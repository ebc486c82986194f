/** The tracking mmap of mmap-wrapper.c: a fixed array of regions with a modular index. */
module MmapWrapper {
  import opened Bytes
  import opened Memory
  import opened Pages

  const MAX_TRACK: nat := 1000

  /** MmapInfo_t: lengths are recorded as asked for, not rounded to pages. */
  datatype Region = Region(addr: nat, len: nat)

  /** A process's memory with the log of all its successful mmap calls. */
  datatype Machine = Machine(space: Space, refusals: seq<bool>, log: seq<Region>)

  /** What getMmappedList reports after the calls in the log: those since the index last wrapped. */
  function ReportedList(log: seq<Region>): (list: seq<Region>)
    ensures |list| == |log| % MAX_TRACK
  {
    log[|log| - |log| % MAX_TRACK..]
  }

  /** The kernel rejects a mapping whose file offset is not a multiple of the page size. */
  predicate OffsetOk(src: Backing) {
    src.FileAt? ==> Aligned(src.offset)
  }

  /** mmapWrapper with MAP_FIXED. */
  function MapTracked(m: Machine, addr: nat, len: nat, prot: nat, src: Backing): (r: (Machine, bool)) {
    if !OffsetOk(src) then (m, false)
    else if !MmapArgsOk(addr, len) || Refused(m.refusals) then (m.(refusals := NextRefusals(m.refusals)), false)
    else (Machine(Place(m.space, addr, BackingBytes(src, RoundUp(len)), prot % 8), NextRefusals(m.refusals),
                  m.log + [Region(addr, len)]), true)
  }

  /** Every logged region is one that mmap could have returned. */
  ghost predicate LogOk(log: seq<Region>) {
    forall r :: r in log ==> MmapArgsOk(r.addr, r.len)
  }

  lemma MapTrackedKeepsValid(m: Machine, addr: nat, len: nat, prot: nat, src: Backing)
    requires WholePages(m.space) && LogOk(m.log)
    ensures var m' := MapTracked(m, addr, len, prot, src).0; WholePages(m'.space) && LogOk(m'.log)
  {
    if MapTracked(m, addr, len, prot, src).1 {
      PlaceKeepsWholePages(m.space, addr, BackingBytes(src, RoundUp(len)), prot % 8);
    }
  }

  /** A mapping of whole pages that is not refused. */
  lemma MapTrackedPages(m: Machine, addr: nat, len: nat, prot: nat, src: Backing)
    requires !Refused(m.refusals) && OffsetOk(src) && MmapArgsOk(addr, len) && RoundUp(len) == len && prot < 8
    ensures MapTracked(m, addr, len, prot, src) ==
            (Machine(Place(m.space, addr, BackingBytes(src, len), prot), NextRefusals(m.refusals),
                     m.log + [Region(addr, len)]), true)
  {
  }

  /** None of the next n mappings is refused for want of memory. */
  predicate Granted(refusals: seq<bool>, n: nat) {
    forall i :: 0 <= i < n && i < |refusals| ==> !refusals[i]
  }

  /** What is left to refuse after n mappings. */
  function Later(refusals: seq<bool>, n: nat): seq<bool> {
    if n <= |refusals| then refusals[n..] else []
  }

  lemma GrantedInTurn(refusals: seq<bool>, n: nat, k: nat)
    ensures Granted(refusals, n + k) <==> Granted(refusals, n) && Granted(Later(refusals, n), k)
    ensures Later(refusals, n + k) == Later(Later(refusals, n), k)
    ensures Granted(refusals, 0) && Later(refusals, 0) == refusals
    ensures Granted(refusals, 1) <==> !Refused(refusals)
    ensures Later(refusals, 1) == NextRefusals(refusals)
    ensures Granted([], n) && Later([], n) == []
  {
    if Granted(refusals, n) && Granted(Later(refusals, n), k) {
      forall i | 0 <= i < n + k && i < |refusals| ensures !refusals[i] {
        if i >= n {
          assert refusals[i] == Later(refusals, n)[i - n];
        }
      }
    }
  }

  /** The list handed to the checkpointer is the whole log exactly while it has not wrapped. */
  lemma ReportIsWholeLogIffNotWrapped(log: seq<Region>)
    ensures ReportedList(log) == log <==> |log| < 1000
    ensures forall r :: r in ReportedList(log) ==> r in log
  {
  }

  /** The call that fills the array makes the report empty: from complete to nothing in one step. */
  lemma WrapForgetsEverything(log: seq<Region>, r: Region)
    requires |log| == 999
    ensures ReportedList(log) == log && ReportedList(log + [r]) == []
  {
  }

  class Tracker {
    const os: AddressSpace
    const mmaps: array<Region>
    var numRegions: nat
    /** All successful calls since the process started. */
    ghost var log: seq<Region>

    ghost predicate Valid()
      reads this, os, mmaps
    {
      os.Valid() && TableFollowsLog()
    }

    ghost predicate TableFollowsLog()
      reads this, mmaps
    {
      && mmaps.Length == MAX_TRACK
      && numRegions == |log| % MAX_TRACK
      && LogOk(log)
      // this lap's entries, and beyond them those of the lap before
      && (forall i :: 0 <= i < numRegions ==> mmaps[i] == log[|log| - numRegions + i])
      && (forall i :: numRegions <= i < MAX_TRACK ==>
            mmaps[i] == if |log| < MAX_TRACK then Region(0, 0) else log[|log| - numRegions - MAX_TRACK + i])
    }

    /** The table and the memory are valid apart from each other. */
    lemma ValidParts()
      ensures Valid() <==> os.Valid() && TableFollowsLog()
      ensures os.Valid() <==> WholePages(os.space)
    {
    }

    ghost function View(): Machine
      reads this, os
    {
      Machine(os.space, os.refusals, log)
    }

    lemma ViewParts()
      ensures View() == Machine(os.space, os.refusals, log)
    {
    }

    constructor (os: AddressSpace)
      requires os.Valid()
      ensures Valid() && fresh(mmaps) && this.os == os && log == []
    {
      this.os := os;
      mmaps := new Region[MAX_TRACK](_ => Region(0, 0));
      numRegions, log := 0, [];
    }

    /** The count and the array: the first `num` entries are what the log says since the last wrap. */
    method GetMmappedList() returns (num: nat, list: array<Region>)
      requires Valid()
      ensures list == mmaps && num <= list.Length && list[..num] == ReportedList(log)
    {
      num, list := numRegions, mmaps;
    }

    /** Records a successful mapping. */
    method Track(addr: nat, len: nat)
      requires Valid() && MmapArgsOk(addr, len)
      modifies this, mmaps
      ensures Valid() && log == old(log) + [Region(addr, len)]
    {
      mmaps[numRegions] := Region(addr, len);
      numRegions := (numRegions + 1) % MAX_TRACK;
      log := log + [Region(addr, len)];
    }

    /** mmapWrapper with MAP_FIXED; false stands for MAP_FAILED. */
    method MmapFixed(addr: nat, len: nat, prot: nat, src: Backing) returns (ok: bool)
      requires Valid()
      modifies this, mmaps, os
      ensures Valid() && (View(), ok) == MapTracked(old(View()), addr, len, prot, src)
    {
      if !OffsetOk(src) {
        return false;
      }
      ok := os.MmapFixed(addr, len, prot, src);
      if ok {
        Track(addr, len);
      }
    }

    /** mmapWrapper without MAP_FIXED: zero pages wherever the kernel has room. */
    method MmapAnywhere(len: nat, prot: nat) returns (addr: nat, ok: bool)
      requires Valid()
      modifies this, mmaps, os
      ensures Valid() && os.refusals == NextRefusals(old(os.refusals))
      ensures ok <==> !Refused(old(os.refusals)) && HasRoom(old(os.space), os.low, os.high, len)
      ensures ok ==> FitsBetween(addr, len, os.low, os.high) && Free(old(os.space), addr, addr + RoundUp(len))
      ensures os.space == if ok then Place(old(os.space), addr, Zeros(RoundUp(len)), prot % 8) else old(os.space)
      ensures log == if ok then old(log) + [Region(addr, len)] else old(log)
    {
      addr, ok := os.MmapAnywhere(len, prot);
      if ok {
        Track(addr, len);
      }
    }
  }
}
