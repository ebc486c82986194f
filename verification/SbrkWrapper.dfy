/** The virtual program break of sbrk-wrapper.c, kept over MAP_FIXED mappings, and the first heap of kernel-loader.c. */
module SbrkWrapper {
  import opened Bytes
  import opened Memory
  import opened MmapWrapper
  import opened Pages

  const PROT_RW: nat := PROT_READ + PROT_WRITE
  /** The first heap: 100 pages. */
  const HEAP_SIZE: nat := 100 * PAGE_SIZE

  /** The lower half's memory with its two break variables. */
  datatype HeapState = HeapState(m: Machine, curbrk: nat, endOfHeap: nat)

  /** The 64-bit overflow tests on the break. */
  predicate BreakOverflows(oldbrk: nat, increment: int) {
    if increment > 0 then oldbrk + increment >= WORD else oldbrk < -increment
  }

  /** The state after a call, and the returned address or -1. */
  datatype SbrkResult = SbrkResult(state: HeapState, ret: int)

  /** __sbrkWrapper: the old break on success. */
  function Sbrk(h: HeapState, increment: int): SbrkResult {
    // a break that was never set: brk(0) succeeds and the heap is taken to end at the break
    var h0 := if h.curbrk == 0 then h.(endOfHeap := h.curbrk) else h;
    if increment == 0 then SbrkResult(h0, h0.curbrk)
    else if BreakOverflows(h0.curbrk, increment) then SbrkResult(h0, -1)
    else if h0.curbrk + increment <= h0.endOfHeap then SbrkResult(MoveBreak(h0, h0.m, increment), h0.curbrk)
    else
      var (m, ok) := MapTracked(h0.m, h0.endOfHeap, RoundUp(h0.curbrk + increment - h0.endOfHeap), PROT_RW, Anonymous);
      if ok then SbrkResult(MoveBreak(h0, m, increment), h0.curbrk) else SbrkResult(h0.(m := m), -1)
  }

  function MoveBreak(h: HeapState, m: Machine, increment: int): HeapState
    requires h.curbrk + increment >= 0
  {
    HeapState(m, h.curbrk + increment, RoundUp(h.curbrk + increment))
  }

  /** Between the initial break and the page-aligned end of the heap everything is mapped read-write. */
  ghost predicate HeapInv(h: HeapState, init: nat) {
    && WholePages(h.m.space) && LogOk(h.m.log)
    && h.curbrk <= h.endOfHeap <= TASK_SIZE && (h.curbrk == 0 ==> h.endOfHeap == 0)
    && Aligned(h.endOfHeap)
    && MappedWith(h.m.space, init, h.endOfHeap, PROT_RW)
  }

  /** Growing past the end of the heap maps exactly the pages from there to the rounded new break. */
  lemma GrowthMapping(h: HeapState, init: nat, newbrk: nat)
    requires HeapInv(h, init) && newbrk > h.endOfHeap
    ensures var n := RoundUp(newbrk - h.endOfHeap);
            RoundUp(n) == n > 0 && h.endOfHeap + n == RoundUp(newbrk)
  {
    RoundUpShift(h.endOfHeap, newbrk - h.endOfHeap);
  }

  lemma GrowthKeepsHeap(h: HeapState, init: nat, newbrk: nat)
    requires HeapInv(h, init) && newbrk > h.endOfHeap
    requires MapTracked(h.m, h.endOfHeap, RoundUp(newbrk - h.endOfHeap), PROT_RW, Anonymous).1
    ensures var m := MapTracked(h.m, h.endOfHeap, RoundUp(newbrk - h.endOfHeap), PROT_RW, Anonymous).0;
            && HeapInv(HeapState(m, newbrk, RoundUp(newbrk)), init)
            && SameOutside(h.m.space, m.space, h.endOfHeap, RoundUp(newbrk))
  {
    hide RoundUp, LogOk, WholePages, MmapArgsOk;
    GrowthMapping(h, init, newbrk);
    MapTrackedKeepsValid(h.m, h.endOfHeap, RoundUp(newbrk - h.endOfHeap), PROT_RW, Anonymous);
    GrownEnd(h.endOfHeap, newbrk);
  }

  lemma GrownEnd(end: nat, newbrk: nat)
    ensures Aligned(RoundUp(newbrk)) && newbrk <= RoundUp(newbrk)
    ensures newbrk > end && Aligned(end) && MmapArgsOk(end, RoundUp(newbrk - end)) ==> RoundUp(newbrk) <= TASK_SIZE
  {
    RoundingIsTight(newbrk, RoundUp(newbrk));
    if newbrk > end && Aligned(end) {
      RoundUpShift(end, newbrk - end);
    }
  }

  /**
   One call: the break moves by the increment and the old one is returned, or nothing changes and -1 is; the invariant
   stays, even where the break arrives at address 0 and counts as never set; memory changes only between the old and
   the new end of the heap, so every byte below both breaks, and everything outside the heap's growth, keeps its value.
   */
  lemma SbrkStep(h: HeapState, init: nat, increment: int)
    requires HeapInv(h, init)
    ensures var SbrkResult(h', r) := Sbrk(h, increment);
            && HeapInv(h', init)
            && (if r == -1 then h'.curbrk == h.curbrk && h'.endOfHeap == h.endOfHeap && h'.m.space == h.m.space
                else r == h.curbrk && h'.curbrk == h.curbrk + increment)
            && SameOutside(h.m.space, h'.m.space, h.endOfHeap, h'.endOfHeap)
  {
    hide WholePages, LogOk, MappedWith, SameOutside, RoundUp, Aligned;
    SameOutsideItself(h.m.space, h.endOfHeap, Sbrk(h, increment).state.endOfHeap);
    if increment != 0 && !BreakOverflows(h.curbrk, increment) {
      var newbrk := h.curbrk + increment;
      if newbrk <= h.endOfHeap {
        ShrinkKeepsHeap(h, init, newbrk);
      } else if Sbrk(h, increment).ret != -1 {
        GrowthKeepsHeap(h, init, newbrk);
      }
    }
  }

  lemma SameOutsideItself(s: Space, lo: nat, hi: nat)
    ensures SameOutside(s, s, lo, hi)
  {
  }

  lemma ShrinkKeepsHeap(h: HeapState, init: nat, newbrk: nat)
    requires HeapInv(h, init) && newbrk <= h.endOfHeap
    ensures HeapInv(HeapState(h.m, newbrk, RoundUp(newbrk)), init)
  {
    RoundingIsTight(newbrk, h.endOfHeap);
  }

  /**
   A call fails exactly when the break would leave the 64-bit addresses, or would pass the end of the heap where growth
   is refused or not in user space. Nothing is mapped, not even asked for, in the first case.
   */
  lemma SbrkFailsIff(h: HeapState, init: nat, increment: int)
    requires HeapInv(h, init)
    ensures var newbrk := h.curbrk + increment;
            Sbrk(h, increment).ret == -1 <==>
            || newbrk < 0 || newbrk >= 0x1_0000_0000_0000_0000
            || (newbrk > h.endOfHeap &&
                (Refused(h.m.refusals) || RoundUp(newbrk) > TASK_SIZE || h.endOfHeap < MMAP_MIN_ADDR))
    ensures var newbrk := h.curbrk + increment;
            newbrk < 0 || newbrk >= 0x1_0000_0000_0000_0000 ==> Sbrk(h, increment).state == h
  {
    var newbrk := h.curbrk + increment;
    if increment != 0 && !BreakOverflows(h.curbrk, increment) && newbrk > h.endOfHeap {
      GrowthMapping(h, init, newbrk);
    }
  }

  /** Below the end of the heap every call succeeds: only the break moves, and the end with it to the next page. */
  lemma SbrkWithinHeap(h: HeapState, init: nat, increment: int)
    requires HeapInv(h, init) && 0 <= h.curbrk + increment <= h.endOfHeap
    ensures var r := Sbrk(h, increment);
            && r.ret == h.curbrk && r.state.curbrk == h.curbrk + increment && r.state.m == h.m
            && (increment == 0 ==> r.state == h)
            && (increment != 0 ==> Aligned(r.state.endOfHeap)
                                   && r.state.endOfHeap - PAGE_SIZE < r.state.curbrk <= r.state.endOfHeap)
  {
    RoundingIsTight(h.curbrk + increment, 0);
    hide RoundUp;
  }

  /** Whatever is mapped in the range is a zero byte, readable and writable. */
  ghost predicate AlreadyFresh(s: Space, lo: nat, hi: nat) {
    forall a :: lo <= a < hi && a in s ==> s[a] == Cell(0, PROT_RW)
  }

  /**
   Growth maps over whatever lies past the heap's end. A call leaves all mapped memory as it was if and only
   if it fails, or does not grow the heap, or nothing was mapped where it grows, or what was mapped there
   was just what growth puts there.
   */
  lemma CallKeepsMemoryIff(h: HeapState, init: nat, increment: int)
    requires HeapInv(h, init)
    ensures var newbrk, r := h.curbrk + increment, Sbrk(h, increment);
            Extends(r.state.m.space, h.m.space) <==>
            r.ret == -1 || newbrk <= h.endOfHeap || AlreadyFresh(h.m.space, h.endOfHeap, RoundUp(newbrk))
    ensures var newbrk := h.curbrk + increment;
            newbrk >= 0 && Free(h.m.space, h.endOfHeap, RoundUp(newbrk)) ==>
                AlreadyFresh(h.m.space, h.endOfHeap, RoundUp(newbrk))
  {
    var newbrk, r := h.curbrk + increment, Sbrk(h, increment);
    hide *;
    SpaceAfterCall(h, init, increment);
    KeptAndFresh(h.m.space, h.endOfHeap, if newbrk < 0 then 0 else RoundUp(newbrk));
    if r.ret != -1 && newbrk > h.endOfHeap {
      GrowthMapping(h, init, newbrk);
      PlaceExtendsIff(h.m.space, h.endOfHeap, RoundUp(newbrk - h.endOfHeap));
    }
  }

  lemma SpaceAfterCall(h: HeapState, init: nat, increment: int)
    requires HeapInv(h, init)
    ensures var newbrk, r := h.curbrk + increment, Sbrk(h, increment);
            r.state.m.space == if r.ret != -1 && newbrk > h.endOfHeap
                               then Place(h.m.space, h.endOfHeap, Zeros(RoundUp(newbrk - h.endOfHeap)), PROT_RW)
                               else h.m.space
  {
    var newbrk := h.curbrk + increment;
    if newbrk > h.endOfHeap {
      GrowthMapping(h, init, newbrk);
    }
    hide Place, Zeros, RoundUp, MmapArgsOk;
  }

  lemma KeptAndFresh(s: Space, lo: nat, hi: nat)
    ensures Extends(s, s)
    ensures Free(s, lo, hi) ==> AlreadyFresh(s, lo, hi)
  {
  }

  lemma PlaceExtendsIff(s: Space, at: nat, n: nat)
    ensures Extends(Place(s, at, Zeros(n), PROT_RW), s) <==> AlreadyFresh(s, at, at + n)
  {
    var t := Place(s, at, Zeros(n), PROT_RW);
    assert forall a :: at <= a < at + n ==> a in t && t[a] == Cell(0, PROT_RW);
    assert forall a :: !(at <= a < at + n) && a in s ==> a in t && t[a] == s[a];
    hide Place, Zeros;
  }

  // ---------------------------------------------------------------- whole runs

  /** What the process does around its heap. */
  datatype HeapOp =
    | Move(increment: int)                            // sbrk
    | Put(at: nat, data: seq<Byte>)                   // a store into live heap memory
    | Elsewhere(at: nat, data: seq<Byte>, prot: nat)  // an mmap that the kernel places in free pages

  ghost predicate Legal(h: HeapState, init: nat, op: HeapOp) {
    match op
    case Move(increment) => true
    case Put(at, data) => init <= at && at + |data| <= h.curbrk
    case Elsewhere(at, data, prot) =>
      Aligned(at) && Aligned(|data|) && at + |data| <= TASK_SIZE && prot < 8 && Free(h.m.space, at, at + |data|)
  }

  function StepHeap(h: HeapState, op: HeapOp): HeapState {
    match op
    case Move(increment) => Sbrk(h, increment).state
    case Put(at, data) => h.(m := h.m.(space := Store(h.m.space, at, data)))
    case Elsewhere(at, data, prot) => h.(m := h.m.(space := Place(h.m.space, at, data, prot)))
  }

  function RunHeap(h: HeapState, ops: seq<HeapOp>): HeapState
    decreases |ops|
  {
    if ops == [] then h else RunHeap(StepHeap(h, ops[0]), ops[1..])
  }

  ghost predicate LegalRun(h: HeapState, init: nat, ops: seq<HeapOp>)
    decreases |ops|
  {
    ops == [] || (Legal(h, init, ops[0]) && LegalRun(StepHeap(h, ops[0]), init, ops[1..]))
  }

  /** The bare pointer: moved by every increment whose call succeeds. */
  function BareBreak(h: HeapState, ops: seq<HeapOp>, b: int): int
    decreases |ops|
  {
    if ops == [] then b
    else
      var moved := if ops[0].Move? && Sbrk(h, ops[0].increment).ret != -1 then ops[0].increment else 0;
      BareBreak(StepHeap(h, ops[0]), ops[1..], b + moved)
  }

  /** Address a stays below the break, and no store touches it, throughout the run. */
  ghost predicate Undisturbed(h: HeapState, ops: seq<HeapOp>, a: nat)
    decreases |ops|
  {
    && a < h.curbrk
    && (ops != [] ==>
          && !(ops[0].Put? && Covers(ops[0].at, |ops[0].data|, a))
          && Undisturbed(StepHeap(h, ops[0]), ops[1..], a))
  }

  lemma StepKeepsHeap(h: HeapState, init: nat, op: HeapOp)
    requires HeapInv(h, init) && 0 < init && Legal(h, init, op)
    ensures HeapInv(StepHeap(h, op), init)
    ensures forall a :: init <= a < h.curbrk && !(op.Put? && Covers(op.at, |op.data|, a)) && a in h.m.space ==>
              a in StepHeap(h, op).m.space && StepHeap(h, op).m.space[a] == h.m.space[a]
  {
    match op
    case Move(increment) => SbrkStep(h, init, increment);
    case Put(at, data) => StoreKeepsWholePages(h.m.space, at, data);
    case Elsewhere(at, data, prot) =>
      PlaceKeepsWholePages(h.m.space, at, data, prot);
      forall a | init <= a < h.endOfHeap ensures !Covers(at, |data|, a) {
        assert a in h.m.space;
      }
  }

  /**
   Over every run of sbrk calls, stores and other mappings: the break is the bare pointer's, the heap
   invariant holds, and a byte that stays below the break keeps its value although the heap around it
   shrinks and grows again.
   */
  lemma {:induction false} SbrkRefinesBarePointer(h: HeapState, init: nat, ops: seq<HeapOp>, a: nat)
    requires HeapInv(h, init) && 0 < init && LegalRun(h, init, ops)
    ensures HeapInv(RunHeap(h, ops), init)
    ensures RunHeap(h, ops).curbrk == BareBreak(h, ops, h.curbrk)
    ensures init <= a && Undisturbed(h, ops, a) ==>
              && a in h.m.space && a in RunHeap(h, ops).m.space
              && RunHeap(h, ops).m.space[a] == h.m.space[a]
    decreases |ops|
  {
    hide Sbrk, WholePages, LogOk, Legal, Place, Store;
    if ops != [] {
      StepKeepsHeap(h, init, ops[0]);
      if ops[0].Move? {
        SbrkStep(h, init, ops[0].increment);
      }
      SbrkRefinesBarePointer(StepHeap(h, ops[0]), init, ops[1..], a);
    }
  }

  /**
   The recorded end of the heap can drop below memory that stays mapped: shrinking unmaps nothing, so
   the next growth maps those pages afresh and their old contents are gone.
   */
  lemma ShrinkThenGrowClearsDeadPages(h: HeapState, init: nat, n: int)
    requires HeapInv(h, init) && MMAP_MIN_ADDR <= init && h.m.refusals == []
    requires n > 0 && Aligned(n) && h.curbrk == h.endOfHeap && h.curbrk - n >= init
    ensures var shrunk := Sbrk(h, -n).state;
            var regrown := Sbrk(shrunk, n).state;
            && shrunk.endOfHeap == h.endOfHeap - n && Mapped(shrunk.m.space, init, h.endOfHeap)
            && regrown.curbrk == h.curbrk
            && regrown.m.space == Place(h.m.space, h.curbrk - n, Zeros(n), PROT_RW)
  {
    var low := h.curbrk - n;
    AlignedBelow(h.endOfHeap, n);
    hide *;
    ShrinkInPlace(h, init, n);
    GrowFromEnd(HeapState(h.m, low, low), n);
  }

  lemma AlignedBelow(end: nat, n: nat)
    requires n <= end && Aligned(end) && Aligned(n) && MMAP_MIN_ADDR <= end - n && end <= TASK_SIZE && n > 0
    ensures RoundUp(end - n) == end - n && MmapArgsOk(end - n, n)
  {
  }

  lemma ShrinkInPlace(h: HeapState, init: nat, n: int)
    requires HeapInv(h, init) && 0 < n <= h.curbrk && h.curbrk - n >= init && 0 < init
    requires RoundUp(h.curbrk - n) == h.curbrk - n
    ensures Sbrk(h, -n).state == HeapState(h.m, h.curbrk - n, h.curbrk - n) && Mapped(h.m.space, init, h.endOfHeap)
  {
    hide RoundUp, MapTracked;
  }

  /** Growth by whole pages from a break that is the end of the heap. */
  lemma GrowFromEnd(h: HeapState, n: nat)
    requires h.curbrk == h.endOfHeap && MmapArgsOk(h.endOfHeap, n) && Aligned(n) && h.m.refusals == []
    ensures Sbrk(h, n).state.curbrk == h.curbrk + n
    ensures Sbrk(h, n).state.m.space == Place(h.m.space, h.curbrk, Zeros(n), PROT_RW)
  {
    assert RoundUp(n) == n;
    MapTrackedPages(h.m, h.endOfHeap, n, PROT_RW, Anonymous);
    assert 0 < n && h.endOfHeap > 0 && h.endOfHeap + n <= TASK_SIZE;
    hide MapTracked, Place, Zeros, RoundUp, MmapArgsOk;
  }

  /** A new heap in t on top of s: an inaccessible page, then zeroed read-write pages, and nothing else. */
  ghost predicate FreshHeap(s: Space, t: Space, addr: nat) {
    && MappedWith(t, addr, addr + PAGE_SIZE, PROT_NONE)
    && MappedWith(t, addr + PAGE_SIZE, addr + HEAP_SIZE, PROT_RW)
    && Extends(t, s) && Free(s, addr, addr + HEAP_SIZE) && AllZero(t, addr, addr + HEAP_SIZE)
    && OnlyAdds(t, s, addr, HEAP_SIZE)
  }

  ghost predicate AllZero(t: Space, lo: nat, hi: nat) {
    forall a :: lo <= a < hi ==> a in t && t[a].value == 0
  }

  /** Zero pages whose first one is then made inaccessible. */
  function NewHeap(s: Space, addr: nat): Space {
    Protect(Place(s, addr, Zeros(RoundUp(HEAP_SIZE)), PROT_RW % 8), addr, RoundUp(addr + PAGE_SIZE), PROT_NONE)
  }

  lemma FreshHeapSpace(s: Space, addr: nat)
    requires MmapArgsOk(addr, HEAP_SIZE) && Free(s, addr, addr + RoundUp(HEAP_SIZE))
    ensures FreshHeap(s, NewHeap(s, addr), addr)
    ensures var mapped := Place(s, addr, Zeros(RoundUp(HEAP_SIZE)), PROT_RW % 8);
            && Mapped(mapped, addr, RoundUp(addr + PAGE_SIZE)) && Aligned(addr) && ValidProt(PROT_NONE)
            && NewHeap(s, addr) == Protect(mapped, addr, RoundUp(addr + PAGE_SIZE), PROT_NONE)
  {
    hide *;
    HeapPages(addr);
    NewHeapIs(s, addr);
    PlaceThenProtect(s, addr, addr + PAGE_SIZE, HEAP_SIZE, PROT_RW % 8);
    FreshHeapFrom(s, NewHeap(s, addr), addr);
  }

  lemma HeapPages(addr: nat)
    requires MmapArgsOk(addr, HEAP_SIZE)
    ensures RoundUp(HEAP_SIZE) == HEAP_SIZE && RoundUp(addr + PAGE_SIZE) == addr + PAGE_SIZE <= addr + HEAP_SIZE
    ensures Aligned(addr) && ValidProt(PROT_NONE)
  {
  }

  lemma NewHeapIs(s: Space, addr: nat)
    ensures NewHeap(s, addr) ==
            Protect(Place(s, addr, Zeros(RoundUp(HEAP_SIZE)), PROT_RW % 8), addr, RoundUp(addr + PAGE_SIZE), PROT_NONE)
  {
    hide RoundUp, Protect, Place, Zeros;
  }

  /** n new zero pages at lo, inaccessible up to mid. */
  lemma PlaceThenProtect(s: Space, lo: nat, mid: nat, n: nat, prot: nat)
    requires lo <= mid <= lo + n && Free(s, lo, lo + n)
    ensures var mapped := Place(s, lo, Zeros(n), prot);
            var t := Protect(mapped, lo, mid, PROT_NONE);
            && Mapped(mapped, lo, mid) && Extends(t, s) && AllZero(t, lo, lo + n) && OnlyAdds(t, s, lo, n)
            && MappedWith(t, lo, mid, PROT_NONE) && MappedWith(t, mid, lo + n, prot)
  {
  }

  lemma FreshHeapFrom(s: Space, t: Space, addr: nat)
    requires MappedWith(t, addr, addr + PAGE_SIZE, PROT_NONE)
    requires MappedWith(t, addr + PAGE_SIZE, addr + HEAP_SIZE, PROT_RW % 8)
    requires Extends(t, s) && Free(s, addr, addr + HEAP_SIZE) && AllZero(t, addr, addr + HEAP_SIZE)
    requires OnlyAdds(t, s, addr, HEAP_SIZE)
    ensures FreshHeap(s, t, addr)
  {
    hide Extends, Free, AllZero, MappedWith, OnlyAdds;
  }

  lemma FreshHeapInv(m: Machine, addr: nat)
    requires WholePages(m.space) && LogOk(m.log) && MmapArgsOk(addr, HEAP_SIZE)
    requires MappedWith(m.space, addr + PAGE_SIZE, addr + HEAP_SIZE, PROT_RW)
    ensures HeapInv(HeapState(m, addr + PAGE_SIZE, addr + HEAP_SIZE), addr + PAGE_SIZE)
  {
  }

  class Heap {
    const tracker: Tracker
    var curbrk: nat
    var endOfHeap: nat

    ghost predicate Valid()
      reads this, tracker, tracker.os, tracker.mmaps
    {
      tracker.Valid()
    }

    lemma Parts()
      ensures Valid() <==> tracker.Valid()
      ensures View() == HeapState(tracker.View(), curbrk, endOfHeap)
    {
    }

    ghost function View(): HeapState
      reads this, tracker, tracker.os
    {
      HeapState(tracker.View(), curbrk, endOfHeap)
    }

    constructor (tracker: Tracker)
      requires tracker.Valid()
      ensures Valid() && this.tracker == tracker && curbrk == 0 && endOfHeap == 0
    {
      this.tracker := tracker;
      curbrk, endOfHeap := 0, 0;
    }

    method SetEndOfHeap(addr: nat)
      modifies this`endOfHeap
      ensures endOfHeap == RoundUp(addr)
    {
      endOfHeap := RoundUp(addr);
    }

    method SetUhBrk(addr: nat)
      modifies this`curbrk
      ensures curbrk == addr
    {
      curbrk := addr;
    }

    /** __sbrkWrapper. */
    method SbrkCall(increment: int) returns (ret: int)
      requires Valid()
      modifies this, tracker, tracker.mmaps, tracker.os
      ensures Valid() && SbrkResult(View(), ret) == Sbrk(old(View()), increment)
    {
      hide MapTracked, RoundUp;
      if curbrk == 0 {
        endOfHeap := curbrk;
      }
      if increment == 0 {
        return curbrk;
      }
      var oldbrk := curbrk;
      if BreakOverflows(oldbrk, increment) {
        return -1;
      }
      if oldbrk + increment > endOfHeap {
        var ok := tracker.MmapFixed(endOfHeap, RoundUp(oldbrk + increment - endOfHeap), PROT_RW, Anonymous);
        if !ok {
          return -1;
        }
      }
      endOfHeap := RoundUp(oldbrk + increment);
      curbrk := oldbrk + increment;
      ret := oldbrk;
    }

    /** createNewHeapForRtld: 100 pages whose first one is made inaccessible; the break starts after it. */
    method CreateNewHeapForRtld() returns (addr: nat, ok: bool)
      requires Valid()
      modifies this, tracker, tracker.mmaps, tracker.os
      ensures Valid()
      ensures ok <==>
              && !Refused(old(tracker.os.refusals))
              && HasRoom(old(tracker.os.space), tracker.os.low, tracker.os.high, HEAP_SIZE)
      ensures ok ==> FitsBetween(addr, HEAP_SIZE, tracker.os.low, tracker.os.high)
      ensures ok ==> HeapInv(View(), addr + PAGE_SIZE) && curbrk == addr + PAGE_SIZE
                     && endOfHeap == addr + 100 * PAGE_SIZE
                     && FreshHeap(old(tracker.os.space), tracker.os.space, addr)
                     && tracker.log == old(tracker.log) + [Region(addr, 100 * PAGE_SIZE)]
      ensures !ok ==> curbrk == old(curbrk) && endOfHeap == old(endOfHeap) && tracker.os.space == old(tracker.os.space)
    {
      addr, ok := MapHeapPages();
      if ok {
        SetEndOfHeap(addr + HEAP_SIZE);
        SetUhBrk(addr + PAGE_SIZE);
        assert RoundUp(addr + HEAP_SIZE) == addr + HEAP_SIZE;
        FreshHeapInv(tracker.View(), addr);
      }
    }

    /** The two system calls of createNewHeapForRtld. */
    method MapHeapPages() returns (addr: nat, ok: bool)
      requires tracker.Valid()
      modifies tracker, tracker.mmaps, tracker.os
      ensures tracker.Valid()
      ensures ok <==>
              && !Refused(old(tracker.os.refusals))
              && HasRoom(old(tracker.os.space), tracker.os.low, tracker.os.high, HEAP_SIZE)
      ensures ok ==> FitsBetween(addr, HEAP_SIZE, tracker.os.low, tracker.os.high)
      ensures ok ==> FreshHeap(old(tracker.os.space), tracker.os.space, addr)
      ensures tracker.log == if ok then old(tracker.log) + [Region(addr, HEAP_SIZE)] else old(tracker.log)
      ensures !ok ==> tracker.os.space == old(tracker.os.space)
    {
      hide *;
      addr, ok := tracker.MmapAnywhere(HEAP_SIZE, PROT_RW);
      if ok {
        FreshHeapSpace(old(tracker.os.space), addr);
        tracker.ValidParts();
        var protectedOk := tracker.os.Mprotect(addr, PAGE_SIZE, PROT_NONE);
        tracker.ValidParts();
      }
    }
  }
}
