/** Per-rank address windows: confine_addr_space of kernel-loader.c. */
module Confine {
  import opened Bytes
  import opened Memory
  import opened MmapWrapper
  import opened Pages
  import opened SbrkWrapper

  /** Rank r's private 4GB begins 4GB above the start of the address space for rank 0, and so on. */
  const WINDOW: nat := 0x1_0000_0000

  function WindowStart(rank: nat): nat {
    WINDOW * (rank + 1)
  }

  predicate InWindow(rank: nat, x: nat) {
    WindowStart(rank) <= x < WindowStart(rank) + WINDOW
  }

  /** Every region lies in the rank's window. */
  ghost predicate Confined(regions: seq<Region>, rank: nat) {
    forall r :: r in regions ==> WindowStart(rank) <= r.addr && r.addr + r.len <= WindowStart(rank) + WINDOW
  }

  lemma WindowsDisjoint(r: nat, q: nat, x: nat)
    requires InWindow(r, x) && InWindow(q, x)
    ensures r == q
  {
    assert x / WINDOW == r + 1 && x / WINDOW == q + 1;
  }

  lemma WindowAligned(rank: nat)
    ensures Aligned(WindowStart(rank)) && Aligned(WindowStart(rank) + WINDOW)
  {
  }

  /** The addresses that confinement reads from the kernel: the old break, and the special areas' bounds. */
  datatype Layout = Layout(heapEnd: Word, vvar: Word, vvarEnd: Word, vdso: Word, vdsoEnd: Word, stack: Word)

  /** map_size = hi - lo as a size_t. */
  function SizeBetween(lo: Word, hi: Word): Word {
    if lo <= hi then hi - lo else hi - lo + WORD
  }

  /** A range that MAP_FIXED can book: ascending, aligned at its start, in user space. */
  predicate Bookable(lo: Word, hi: Word) {
    lo < hi && Aligned(lo) && MMAP_MIN_ADDR <= lo && RoundUp(hi) <= TASK_SIZE
  }

  lemma BookableIsMappable(lo: Word, hi: Word)
    ensures MmapArgsOk(lo, SizeBetween(lo, hi)) <==> Bookable(lo, hi)
    ensures Bookable(lo, hi) ==> lo + RoundUp(hi - lo) == RoundUp(hi)
  {
    if lo <= hi && Aligned(lo) {
      RoundUpShift(lo, hi - lo);
    }
  }

  /** The order that the four bookings need. */
  predicate InOrder(l: Layout, rank: nat) {
    && WindowStart(rank) + WINDOW < WORD
    && Bookable(l.heapEnd, WindowStart(rank))
    && Bookable(WindowStart(rank) + WINDOW, l.vvar)
    && (l.vvarEnd == l.vdso || Bookable(l.vvarEnd, l.vdso))
    && Bookable(l.vdsoEnd, l.stack)
  }

  /** Between the heap and the stack nothing is free outside the rank's window. */
  ghost predicate FreeOnlyInWindow(s: Space, l: Layout, rank: nat) {
    forall x: nat :: l.heapEnd <= x < l.stack && x !in s ==> InWindow(rank, x)
  }

  /** t is s, but for inaccessible zero pages at [lo, hi), rounded up to a page. */
  ghost predicate Booked(t: Space, s: Space, lo: nat, hi: nat) {
    forall x: nat :: if lo <= x < RoundUp(hi) then Inaccessible(t, x) else SameAt(t, s, x)
  }

  predicate Inaccessible(t: Space, x: nat) {
    x in t && t[x] == Cell(0, PROT_NONE)
  }

  predicate SameAt(t: Space, s: Space, x: nat) {
    (x in t <==> x in s) && (x in s ==> t[x] == s[x])
  }

  /** Below the window; from there to vvar; between vvar and vdso; and from there to the stack. */
  predicate OnFence(l: Layout, rank: nat, x: nat) {
    || l.heapEnd <= x < WindowStart(rank)
    || WindowStart(rank) + WINDOW <= x < RoundUp(l.vvar)
    || (l.vvarEnd < l.vdso && l.vvarEnd <= x < RoundUp(l.vdso))
    || l.vdsoEnd <= x < RoundUp(l.stack)
  }

  /** The fence is inaccessible, and all other memory is as it was. */
  ghost predicate Fenced(t: Space, s: Space, l: Layout, rank: nat) {
    forall x: nat :: if OnFence(l, rank, x) then Inaccessible(t, x) else SameAt(t, s, x)
  }

  lemma BookedTogether(s0: Space, s1: Space, s2: Space, s3: Space, s4: Space, l: Layout, rank: nat)
    requires Booked(s1, s0, l.heapEnd, WindowStart(rank))
    requires Booked(s2, s1, WindowStart(rank) + WINDOW, l.vvar)
    requires if l.vvarEnd == l.vdso then s3 == s2 else l.vvarEnd < l.vdso && Booked(s3, s2, l.vvarEnd, l.vdso)
    requires Booked(s4, s3, l.vdsoEnd, l.stack)
    ensures Fenced(s4, s0, l, rank)
  {
    WindowAligned(rank);
    RoundingIsTight(WindowStart(rank), WindowStart(rank));
    assert RoundUp(WindowStart(rank)) == WindowStart(rank);
    hide RoundUp;
    forall x: nat ensures if OnFence(l, rank, x) then Inaccessible(s4, x) else SameAt(s4, s0, x) {
      assert if l.heapEnd <= x < WindowStart(rank) then Inaccessible(s1, x) else SameAt(s1, s0, x);
      assert if WindowStart(rank) + WINDOW <= x < RoundUp(l.vvar) then Inaccessible(s2, x) else SameAt(s2, s1, x);
      assert if l.vvarEnd < l.vdso && l.vvarEnd <= x < RoundUp(l.vdso) then Inaccessible(s3, x) else SameAt(s3, s2, x);
      assert if l.vdsoEnd <= x < RoundUp(l.stack) then Inaccessible(s4, x) else SameAt(s4, s3, x);
    }
  }

  /** With the special areas mapped, all that the fence leaves free is in the window. */
  lemma FenceLeavesWindow(t: Space, s: Space, l: Layout, rank: nat)
    requires Fenced(t, s, l, rank) && Mapped(s, l.vvar, l.vvarEnd) && Mapped(s, l.vdso, l.vdsoEnd)
    ensures FreeOnlyInWindow(t, l, rank)
  {
    RoundingIsTight(l.vvar, 0);
    RoundingIsTight(l.vdso, 0);
    RoundingIsTight(l.stack, 0);
    hide RoundUp;
    forall x: nat | l.heapEnd <= x < l.stack && x !in t ensures InWindow(rank, x) {
      assert !OnFence(l, rank, x) && x !in s;
    }
  }

  /** The fence does not touch the window: there every address is mapped exactly as it was. */
  lemma FenceSparesWindow(t: Space, s: Space, l: Layout, rank: nat)
    requires Fenced(t, s, l, rank) && InOrder(l, rank) && l.vvar <= l.vvarEnd && l.vdso <= l.vdsoEnd
    ensures forall x :: InWindow(rank, x) ==> SameAt(t, s, x)
  {
    hide RoundUp;
    forall x | InWindow(rank, x) ensures SameAt(t, s, x) {
      assert !OnFence(l, rank, x);
    }
  }

  lemma PlaceBooks(s: Space, lo: Word, hi: Word)
    requires Bookable(lo, hi)
    ensures Booked(Place(s, lo, Zeros(RoundUp(hi - lo)), PROT_NONE), s, lo, hi)
  {
    BookableIsMappable(lo, hi);
  }

  /** One booking: mmap with PROT_NONE and MAP_FIXED, whose failure fails an assertion. */
  method Book(os: AddressSpace, lo: Word, hi: Word) returns (ok: bool)
    requires os.Valid()
    modifies os
    ensures os.Valid() && ok == (Bookable(lo, hi) && !Refused(old(os.refusals)))
    ensures os.refusals == NextRefusals(old(os.refusals))
    ensures if ok then Booked(os.space, old(os.space), lo, hi) else os.space == old(os.space)
  {
    BookableIsMappable(lo, hi);
    ok := os.MmapFixed(lo, SizeBetween(lo, hi), PROT_NONE, Anonymous);
    if ok {
      PlaceBooks(old(os.space), lo, hi);
    }
  }

  /**
   confine_addr_space, given where the special areas are. When all its assertions hold, the fence around the window
   is inaccessible and all other memory is as it was, so that between the heap and the stack nothing is free but
   in the window. Without memory pressure they hold exactly when heap, window, vvar, vdso and stack follow each
   other in this order; with vvar and vdso above the stack the process stops.
   */
  method ConfineAddrSpace(os: AddressSpace, l: Layout, rank: nat) returns (ok: bool)
    requires os.Valid() && WindowStart(rank) + WINDOW < WORD
    requires Mapped(os.space, l.vvar, l.vvarEnd) && Mapped(os.space, l.vdso, l.vdsoEnd)
    modifies os
    ensures os.Valid()
    ensures ok ==> Fenced(os.space, old(os.space), l, rank) && FreeOnlyInWindow(os.space, l, rank) && InOrder(l, rank)
    ensures old(os.refusals) == [] ==> os.refusals == [] && (ok <==> InOrder(l, rank))
  {
    hide *;
    var begin: Word := WindowStart(rank);
    OrderParts(l, rank);
    NoRefusals();
    ghost var s0 := os.space;
    ok := Book(os, l.heapEnd, begin);
    if !ok { return; }
    ghost var s1 := os.space;
    ok := Book(os, begin + WINDOW, l.vvar);
    if !ok { return; }
    ghost var s2 := os.space;
    if SizeBetween(l.vvarEnd, l.vdso) > 0 {
      ok := Book(os, l.vvarEnd, l.vdso);
      if !ok { return; }
    }
    ghost var s3 := os.space;
    ok := Book(os, l.vdsoEnd, l.stack);
    if ok {
      BookedTogether(s0, s1, s2, s3, os.space, l, rank);
      FenceLeavesWindow(os.space, s0, l, rank);
    }
  }

  lemma NoRefusals()
    ensures !Refused([]) && NextRefusals([]) == []
  {
  }

  lemma OrderParts(l: Layout, rank: nat)
    requires WindowStart(rank) + WINDOW < WORD
    ensures WINDOW > 0
    ensures InOrder(l, rank) <==>
            && Bookable(l.heapEnd, WindowStart(rank)) && Bookable(WindowStart(rank) + WINDOW, l.vvar)
            && (SizeBetween(l.vvarEnd, l.vdso) > 0 ==> Bookable(l.vvarEnd, l.vdso)) && Bookable(l.vdsoEnd, l.stack)
    ensures SizeBetween(l.vvarEnd, l.vdso) > 0 <==> l.vvarEnd != l.vdso
    ensures Bookable(l.vvarEnd, l.vdso) ==> l.vvarEnd < l.vdso
  {
  }

  // ---------------------------------------------------------------- runs under confinement

  /** The kernel places mappings between the heap and the stack. */
  predicate PlacesBetween(l: Layout, low: nat, high: nat) {
    l.heapEnd <= low && high <= l.stack
  }

  /** What a confined rank does with its address space. */
  datatype MapOp =
    | Anywhere(at: nat, len: nat, prot: nat)               // an mmap that names no address, placed by the kernel
    | NoPlace                                              // one that the kernel refuses
    | Fixed(at: nat, len: nat, prot: nat, src: Backing)    // a MAP_FIXED mapping
    | Brk(increment: int)                                  // an sbrk
    | Unmap(at: nat, len: nat)                             // a munmap inside the window
    | Guard(at: nat, len: nat, prot: nat)                  // mprotect
    | Put(at: nat, data: seq<Byte>)                        // a store

  ghost predicate LegalOp(s: Space, low: nat, high: nat, rank: nat, op: MapOp) {
    match op
    case Anywhere(at, len, prot) => FitsBetween(at, len, low, high) && Free(s, at, at + RoundUp(len))
    case Unmap(at, len) => forall x :: Covers(at, len, x) ==> InWindow(rank, x)
    case _ => true
  }

  /** Memory and log after a call other than sbrk, as the tracking wrapper leaves them. */
  function StepMachine(m: Machine, op: MapOp): Machine {
    match op
    case Anywhere(at, len, prot) =>
      Machine(Place(m.space, at, Zeros(RoundUp(len)), prot % 8), NextRefusals(m.refusals), m.log + [Region(at, len)])
    case NoPlace => m.(refusals := NextRefusals(m.refusals))
    case Fixed(at, len, prot, src) => MapTracked(m, at, len, prot, src).0
    case Brk(increment) => m
    case Unmap(at, len) => m.(space := map x | x in m.space && !Covers(at, len, x) :: m.space[x])
    case Guard(at, len, prot) => m.(space := Protect(m.space, at, at + len, prot))
    case Put(at, data) => m.(space := Store(m.space, at, data))
  }

  function StepRank(h: HeapState, op: MapOp): HeapState {
    if op.Brk? then Sbrk(h, op.increment).state else h.(m := StepMachine(h.m, op))
  }

  function RunRank(h: HeapState, ops: seq<MapOp>): HeapState
    decreases |ops|
  {
    if ops == [] then h else RunRank(StepRank(h, ops[0]), ops[1..])
  }

  ghost predicate LegalOps(h: HeapState, low: nat, high: nat, rank: nat, ops: seq<MapOp>)
    decreases |ops|
  {
    ops == [] || (LegalOp(h.m.space, low, high, rank, ops[0])
                  && LegalOps(StepRank(h, ops[0]), low, high, rank, ops[1..]))
  }

  /** The range lies in the window. */
  predicate FitsWindow(rank: nat, lo: nat, hi: nat) {
    WindowStart(rank) <= lo && hi <= WindowStart(rank) + WINDOW
  }

  /**
   The operation maps outside the window: a fixed mapping that names such a range, or a growth of the heap from its
   end to the rounded new break that is not in the window.
   */
  predicate Strays(h: HeapState, rank: nat, op: MapOp) {
    match op
    case Fixed(at, len, prot, src) => MapTracked(h.m, at, len, prot, src).1 && !FitsWindow(rank, at, at + len)
    case Brk(increment) =>
      var newbrk := h.curbrk + increment;
      Sbrk(h, increment).ret != -1 && newbrk > h.endOfHeap && !FitsWindow(rank, h.endOfHeap, RoundUp(newbrk))
    case _ => false
  }

  predicate SomeStrays(h: HeapState, rank: nat, ops: seq<MapOp>)
    decreases |ops|
  {
    ops != [] && (Strays(h, rank, ops[0]) || SomeStrays(StepRank(h, ops[0]), rank, ops[1..]))
  }

  /** What the kernel finds between heap and stack is in the window, every page of it. */
  lemma PlacedInWindow(s: Space, l: Layout, rank: nat, low: nat, high: nat, at: nat, len: nat)
    requires FreeOnlyInWindow(s, l, rank) && PlacesBetween(l, low, high)
    requires FitsBetween(at, len, low, high) && Free(s, at, at + RoundUp(len))
    ensures WindowStart(rank) <= at && at + len <= at + RoundUp(len) <= WindowStart(rank) + WINDOW
  {
    RoundingIsTight(len, 0);
    hide RoundUp, Aligned;
    assert InWindow(rank, at) && InWindow(rank, at + RoundUp(len) - 1);
  }

  lemma OneMoreConfined(log: seq<Region>, r: Region, rank: nat)
    requires Confined(log, rank)
    ensures Confined(log + [r], rank) <==> FitsWindow(rank, r.addr, r.addr + r.len)
  {
  }

  /** Where memory is only added, what is free is still in the window. */
  lemma AddingKeepsFence(t: Space, s: Space, l: Layout, rank: nat)
    requires FreeOnlyInWindow(s, l, rank) && forall x :: x in s ==> x in t
    ensures FreeOnlyInWindow(t, l, rank)
  {
  }

  /** The heap ends on a page, not below the break; and a break that counts as never set has no heap. */
  predicate BreakOk(h: HeapState) {
    Aligned(h.endOfHeap) && h.curbrk <= h.endOfHeap && (h.curbrk == 0 ==> h.endOfHeap == 0)
  }

  /** As after a launch. */
  lemma HeapBreakOk(h: HeapState, init: nat)
    requires HeapInv(h, init)
    ensures BreakOk(h)
  {
  }

  /** Growth of the heap, as a mapping: a region from the heap's end to the rounded new break. */
  lemma BrkGrows(h: HeapState, increment: int)
    requires BreakOk(h)
    ensures var r, newbrk := Sbrk(h, increment), h.curbrk + increment;
            && BreakOk(r.state) && (forall x :: x in h.m.space ==> x in r.state.m.space)
            && r.state.m.log == if r.ret != -1 && newbrk > h.endOfHeap
                                then h.m.log + [Region(h.endOfHeap, RoundUp(newbrk) - h.endOfHeap)] else h.m.log
  {
    var newbrk := h.curbrk + increment;
    if newbrk > h.endOfHeap {
      RoundUpShift(h.endOfHeap, newbrk - h.endOfHeap);
      RoundingIsTight(newbrk, h.endOfHeap);
    }
    if newbrk >= 0 {
      RoundingIsTight(newbrk, 0);
    }
    hide RoundUp, MmapArgsOk, BackingBytes;
  }

  lemma StepKeepsFence(h: HeapState, l: Layout, rank: nat, low: nat, high: nat, op: MapOp)
    requires FreeOnlyInWindow(h.m.space, l, rank) && BreakOk(h) && LegalOp(h.m.space, low, high, rank, op)
    ensures FreeOnlyInWindow(StepRank(h, op).m.space, l, rank) && BreakOk(StepRank(h, op))
  {
    match op
    case Brk(increment) =>
      BrkGrows(h, increment);
      hide Sbrk;
      AddingKeepsFence(StepRank(h, op).m.space, h.m.space, l, rank);
    case Unmap(at, len) =>
    case _ =>
      hide RoundUp, MmapArgsOk, BackingBytes;
      AddingKeepsFence(StepRank(h, op).m.space, h.m.space, l, rank);
  }

  lemma {:induction false} RunsKeepFence(h: HeapState, l: Layout, rank: nat, low: nat, high: nat, ops: seq<MapOp>)
    requires FreeOnlyInWindow(h.m.space, l, rank) && BreakOk(h) && LegalOps(h, low, high, rank, ops)
    ensures FreeOnlyInWindow(RunRank(h, ops).m.space, l, rank) && BreakOk(RunRank(h, ops))
    decreases |ops|
  {
    hide FreeOnlyInWindow, LegalOp, StepRank, BreakOk;
    if ops != [] {
      StepKeepsFence(h, l, rank, low, high, ops[0]);
      RunsKeepFence(StepRank(h, ops[0]), l, rank, low, high, ops[1..]);
    }
  }

  /** A step leaves the log confined exactly if it does not stray. */
  lemma StepConfinedIff(h: HeapState, l: Layout, low: nat, high: nat, rank: nat, op: MapOp)
    requires FreeOnlyInWindow(h.m.space, l, rank) && BreakOk(h) && PlacesBetween(l, low, high)
    requires Confined(h.m.log, rank)
    requires LegalOp(h.m.space, low, high, rank, op)
    ensures Confined(StepRank(h, op).m.log, rank) <==> !Strays(h, rank, op)
  {
    match op
    case Anywhere(at, len, prot) =>
      PlacedInWindow(h.m.space, l, rank, low, high, at, len);
      OneMoreConfined(h.m.log, Region(at, len), rank);
    case Fixed(at, len, prot, src) =>
      OneMoreConfined(h.m.log, Region(at, len), rank);
    case Brk(increment) =>
      BrkGrows(h, increment);
      hide Sbrk, Confined;
      var newbrk := h.curbrk + increment;
      if newbrk > h.endOfHeap {
        RoundingIsTight(newbrk, 0);
        OneMoreConfined(h.m.log, Region(h.endOfHeap, RoundUp(newbrk) - h.endOfHeap), rank);
      }
    case _ =>
  }

  /** Logs only grow, so a region outside the window stays in the log. */
  lemma {:induction false} LogOnlyGrows(h: HeapState, ops: seq<MapOp>)
    ensures h.m.log <= RunRank(h, ops).m.log
    decreases |ops|
  {
    hide RoundUp, MmapArgsOk, BackingBytes;
    if ops != [] {
      LogOnlyGrows(StepRank(h, ops[0]), ops[1..]);
    }
  }

  lemma PartConfined(part: seq<Region>, log: seq<Region>, rank: nat)
    requires part <= log
    ensures Confined(log, rank) ==> Confined(part, rank)
  {
    assert forall r :: r in part ==> r in log;
  }

  /**
   Over every later run what the tracking array has logged is in the rank's window if and only if no fixed mapping
   and no growth of the heap strayed from it; then what it reports is in the window too. And nothing
   becomes free outside the window, whatever strays.
   */
  lemma {:induction false} RunsStayConfined(h: HeapState, l: Layout, low: nat, high: nat, rank: nat, ops: seq<MapOp>)
    requires FreeOnlyInWindow(h.m.space, l, rank) && BreakOk(h) && PlacesBetween(l, low, high)
    requires Confined(h.m.log, rank)
    requires LegalOps(h, low, high, rank, ops)
    ensures FreeOnlyInWindow(RunRank(h, ops).m.space, l, rank) && BreakOk(RunRank(h, ops))
    ensures Confined(RunRank(h, ops).m.log, rank) <==> !SomeStrays(h, rank, ops)
    ensures !SomeStrays(h, rank, ops) ==> Confined(ReportedList(RunRank(h, ops).m.log), rank)
    decreases |ops|
  {
    hide FreeOnlyInWindow, LegalOp, StepRank, PlacesBetween, Strays, Confined, BreakOk;
    if ops == [] {
      ReportConfined(h.m.log, rank);
    } else {
      var next := StepRank(h, ops[0]);
      StepKeepsFence(h, l, rank, low, high, ops[0]);
      RunsKeepFence(next, l, rank, low, high, ops[1..]);
      StepConfinedIff(h, l, low, high, rank, ops[0]);
      if Strays(h, rank, ops[0]) {
        LogOnlyGrows(next, ops[1..]);
        PartConfined(next.m.log, RunRank(next, ops[1..]).m.log, rank);
      } else {
        RunsStayConfined(next, l, low, high, rank, ops[1..]);
      }
    }
  }

  lemma ReportConfined(log: seq<Region>, rank: nat)
    requires Confined(log, rank)
    ensures Confined(ReportedList(log), rank)
  {
    ReportIsWholeLogIffNotWrapped(log);
  }

  /** Ranks confined to different windows never track a common address. */
  lemma ConfinedRanksShareNothing(a: seq<Region>, b: seq<Region>, r: nat, q: nat, x: nat)
    requires Confined(a, r) && Confined(b, q) && r != q
    ensures !((exists i :: 0 <= i < |a| && Covers(a[i].addr, a[i].len, x))
              && (exists j :: 0 <= j < |b| && Covers(b[j].addr, b[j].len, x)))
  {
    if i, j :| 0 <= i < |a| && Covers(a[i].addr, a[i].len, x) && 0 <= j < |b| && Covers(b[j].addr, b[j].len, x) {
      assert a[i] in a && b[j] in b;
      WindowsDisjoint(r, q, x);
    }
  }
}
