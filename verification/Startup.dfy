/** runRtld of kernel-loader.c: the image, the stack and the heap that a launched application starts with. */
module Startup {
  import opened Bytes
  import opened Confine
  import opened ElfFormat
  import opened Loader
  import opened Memory
  import opened MmapWrapper
  import opened Pages
  import opened SbrkWrapper
  import Stack

  /** What patchAuxv is told about the loaded image. */
  function InfoFor(f: seq<Byte>, base: Word): Stack.ImageInfo
    requires ElfHeaderOk(f)
  {
    Stack.ImageInfo(PhnumField(f), (base + PhoffField(f)) % WORD, (base + EntryField(f)) % WORD)
  }

  /** The program-header table, byte for byte, at address `at`. */
  ghost predicate TableAt(s: Space, f: seq<Byte>, at: nat)
    requires ElfHeaderOk(f)
  {
    forall x: nat :: Covers(at, PHDR_SIZE * PhnumField(f), x) ==>
      TableByte(s, f, at, x)
  }

  ghost predicate TableByte(s: Space, f: seq<Byte>, at: nat, x: nat)
    requires ElfHeaderOk(f)
  {
    at <= x < at + |f| - PhoffField(f) && x in s && s[x].value == f[PhoffField(f) + (x - at)]
  }

  /** Header i maps the file from its start at address 0, and holds the whole header table, as in ld.so. */
  predicate HeadersMappedBy(f: seq<Byte>, i: nat)
    requires ElfHeaderOk(f) && TableComplete(f) && i < PhnumField(f)
  {
    var ph := HeadersFrom(f, 0)[i];
    && ph.ptype == PT_LOAD && ph.offset == 0 && ph.vaddr == 0
    && PhoffField(f) < GIB4 / 2 && PhoffField(f) + PHDR_SIZE * PhnumField(f) <= ph.filesz
  }

  /** What one auxiliary entry of the new stack says. */
  ghost predicate AuxDescribes(r: seq<Byte>, m: seq<Byte>, auxv: nat, i: nat, f: seq<Byte>, base: Word)
    requires auxv + 16 * i + 16 <= |m| == |r| && ElfHeaderOk(f)
  {
    var t, v := Stack.AuxType(r, auxv, i), Stack.AuxValue(r, auxv, i);
    && t == Stack.AuxType(m, auxv, i)
    && (t == 3 ==> v == (base + PhoffField(f)) % WORD)
    && (t == 5 ==> v == PhnumField(f))
    && (t == 9 ==> v == (base + EntryField(f)) % WORD)
    && (t != 3 && t != 5 && t != 9 ==> v == Stack.AuxValue(m, auxv, i))
  }

  /** Between the bounds there is room for n bytes, and wherever the kernel puts them, for a heap beside them. */
  ghost predicate RoomForStackAndHeap(s: Space, low: nat, high: nat, n: nat) {
    HasRoom(s, low, high, n)
    && forall at: nat | FitsBetween(at, n, low, high) && Free(s, at, at + RoundUp(n)) ::
         HasRoomBeside(s, low, high, at, n)
  }

  ghost predicate HasRoomBeside(s: Space, low: nat, high: nat, at: nat, n: nat) {
    exists addr: nat :: FitsBetween(addr, HEAP_SIZE, low, high) && Free(s, addr, addr + RoundUp(HEAP_SIZE))
                        && (addr + RoundUp(HEAP_SIZE) <= at || at + RoundUp(n) <= addr)
  }

  /** The layout of the copy once the kernel has chosen where it goes. */
  function LayoutAt(l: Stack.Layout, newBase: nat): Stack.Layout {
    l.(newBase := newBase)
  }

  lemma LayoutAtOk(m: seq<Byte>, l: Stack.Layout, newBase: nat)
    requires Stack.LayoutOk(m, l) && Stack.StringsOk(m, l) && 0 < newBase && newBase + |m| < WORD
    ensures Stack.LayoutOk(m, LayoutAt(l, newBase)) && Stack.StringsOk(m, LayoutAt(l, newBase))
  {
    hide Stack.Ptr, Stack.AuxType, Stack.Terminated;
  }

  lemma SamePreloadEntry(m: seq<Byte>, l: Stack.Layout, newBase: nat)
    requires Stack.LayoutOk(m, l) && Stack.StringsOk(m, l) && 0 < newBase && newBase + |m| < WORD
    ensures Stack.LayoutOk(m, LayoutAt(l, newBase)) && Stack.StringsOk(m, LayoutAt(l, newBase))
    ensures Stack.PreloadEntry(m, LayoutAt(l, newBase)) == Stack.PreloadEntry(m, l)
  {
    hide *;
    LayoutAtOk(m, l, newBase);
    SameVectors(l, newBase);
    Stack.PreloadEntryIs(m, l);
    Stack.PreloadEntryIs(m, LayoutAt(l, newBase));
  }

  lemma SameVectors(l: Stack.Layout, newBase: nat)
    ensures var l' := LayoutAt(l, newBase);
            && l'.newBase == newBase && l'.oldBase == l.oldBase && l'.end == l.end && l'.target == l.target
            && l'.envc == l.envc && l'.auxc == l.auxc && l'.Env() == l.Env() && l'.Auxv() == l.Auxv()
            && l'.Strings() == l.Strings()
  {
  }

  /** One copied entry, read against the loaded file. */
  lemma PatchedEntryDescribes(r: seq<Byte>, m: seq<Byte>, auxv: nat, i: nat, f: seq<Byte>, base: Word)
    requires auxv + 16 * i + 16 <= |m| == |r| && ElfHeaderOk(f)
    requires Stack.EntryPatched(r, m, auxv, i, InfoFor(f, base))
    ensures AuxDescribes(r, m, auxv, i, f, base)
  {
    hide Stack.AuxType, Stack.AuxValue;
  }

  /** A loaded image stays loaded where memory is only added. */
  lemma StillLoaded(t: Space, s: Space, f: seq<Byte>, base: nat, phs: seq<Phdr>)
    requires AllLoaded(s, f, base, phs) && Extends(t, s)
    ensures AllLoaded(t, f, base, phs)
  {
    hide SegmentProt;
  }

  /** What the loader makes of a file, started for the first time. */
  ghost function FirstLoad(m: Machine, f: seq<Byte>, rank: nat): ElfResult
    requires InitialBase(rank) < WORD && ElfHeaderOk(f) && TableComplete(f)
  {
    LoadHeaders(LoadState(m, 0, true), f, HeadersFrom(f, 0), false, 0, rank)
  }

  /**
   The auxiliary vector in r describes the file loaded at `base` in memory t: every AT_PHDR, AT_PHNUM and
   AT_ENTRY entry (3, 5 and 9) is the file's, every other entry is as in `orig`, the terminator is in place, and when
   one segment holds the headers, each AT_PHDR entry is the address of the file's own program-header table.
   */
  ghost predicate AuxvDescribes(r: seq<Byte>, orig: seq<Byte>, auxv: nat, n: nat, t: Space, f: seq<Byte>, base: Word)
    requires auxv + 16 * n + 16 <= |orig| == |r| && ElfHeaderOk(f) && TableComplete(f)
  {
    && (forall i :: 0 <= i < n ==> AuxDescribes(r, orig, auxv, i, f, base))
    && Stack.AuxType(r, auxv, n) == 0
    && ((exists h :: 0 <= h < PhnumField(f) && HeadersMappedBy(f, h)) ==>
          forall i :: 0 <= i < n && Stack.AuxType(r, auxv, i) == 3 ==>
              TableAt(t, f, Stack.AuxValue(r, auxv, i)))
  }

  /** After load and relocation, the new auxiliary vector describes the loaded image. */
  lemma NewAuxvDescribesImage(m: Machine, f: seq<Byte>, rank: nat, t: Space, orig: seq<Byte>, l: Stack.Layout)
    requires InitialBase(rank) < WORD && ElfHeaderOk(f) && TableComplete(f) && LoadableElf(f, rank)
    requires Granted(m.refusals, Asked(InitialBase(rank), HeadersFrom(f, 0)))
    requires Extends(t, FirstLoad(m, f, rank).state.m.space)
    requires Stack.LayoutOk(orig, l) && Stack.StringsOk(orig, l) && Stack.PreloadEntry(orig, l) < l.envc
    ensures AllLoaded(t, f, InitialBase(rank), HeadersFrom(f, 0))
    ensures l.Auxv() + 16 * l.auxc + 16 <= |orig|
    ensures AuxvDescribes(Stack.DeepCopy(orig, l, InfoFor(f, InitialBase(rank))), orig, l.Auxv(), l.auxc, t, f,
                          InitialBase(rank))
  {
    hide *;
    var base: Word, n := InitialBase(rank), l.auxc;
    FirstLoadIs(m, f, rank);
    ElfLoadCorrect(m, f, rank);
    StillLoaded(t, FirstLoad(m, f, rank).state.m.space, f, base, HeadersFrom(f, 0));
    AuxvRoom(orig, l);
    Stack.DeepCopyVectors(orig, l, InfoFor(f, base), Stack.PreloadEntry(orig, l));
    var r := Stack.DeepCopy(orig, l, InfoFor(f, base));
    forall i | 0 <= i < n ensures AuxDescribes(r, orig, l.Auxv(), i, f, base) {
      PatchedEntryDescribes(r, orig, l.Auxv(), i, f, base);
    }
    if h :| 0 <= h < PhnumField(f) && HeadersMappedBy(f, h) {
      TableIsLoaded(t, f, rank, h);
      forall i | 0 <= i < n && Stack.AuxType(r, l.Auxv(), i) == Stack.AT_PHDR
          ensures TableAt(t, f, Stack.AuxValue(r, l.Auxv(), i)) {
        DescribedTable(r, orig, l.Auxv(), i, f, base);
      }
    }
    AuxvDescribesIs(r, orig, l.Auxv(), n, t, f, base);
  }

  lemma FirstLoadIs(m: Machine, f: seq<Byte>, rank: nat)
    requires InitialBase(rank) < WORD && ElfHeaderOk(f) && TableComplete(f)
    ensures FirstLoad(m, f, rank) == LoadHeaders(LoadState(m, 0, true), f, HeadersFrom(f, 0), false, 0, rank)
  {
    hide LoadHeaders, HeadersFrom;
  }

  lemma AuxvDescribesIs(r: seq<Byte>, orig: seq<Byte>, auxv: nat, n: nat, t: Space, f: seq<Byte>, base: Word)
    requires auxv + 16 * n + 16 <= |orig| == |r| && ElfHeaderOk(f) && TableComplete(f)
    requires forall i :: 0 <= i < n ==> AuxDescribes(r, orig, auxv, i, f, base)
    requires Stack.AuxType(r, auxv, n) == Stack.AT_NULL
    requires (exists h :: 0 <= h < PhnumField(f) && HeadersMappedBy(f, h)) ==>
               forall i :: 0 <= i < n && Stack.AuxType(r, auxv, i) == Stack.AT_PHDR ==>
                   TableAt(t, f, Stack.AuxValue(r, auxv, i))
    ensures AuxvDescribes(r, orig, auxv, n, t, f, base)
  {
    hide AuxDescribes, HeadersMappedBy, TableAt, Stack.AuxType, Stack.AuxValue;
  }

  lemma ElfParts(f: seq<Byte>, rank: nat)
    requires InitialBase(rank) < WORD && LoadableElf(f, rank)
    ensures ElfHeaderOk(f) && TableComplete(f) && PHDR_SIZE == 56
  {
    hide HeadersFrom, LoadsOk, HasLoad, FirstLoadKeepsBase;
  }

  lemma AuxvRoom(m: seq<Byte>, l: Stack.Layout)
    requires Stack.LayoutOk(m, l)
    ensures l.Strings() <= |m| && l.Auxv() + 16 * l.auxc + 16 == l.Strings()
  {
    Stack.LayoutParts(m, l);
  }

  lemma DescribedTable(r: seq<Byte>, m: seq<Byte>, auxv: nat, i: nat, f: seq<Byte>, base: Word)
    requires auxv + 16 * i + 16 <= |m| == |r| && ElfHeaderOk(f) && AuxDescribes(r, m, auxv, i, f, base)
    requires Stack.AuxType(r, auxv, i) == Stack.AT_PHDR
    ensures Stack.AuxValue(r, auxv, i) == (base + PhoffField(f)) % WORD
  {
  }

  lemma HeadersMapped(f: seq<Byte>, h: nat)
    requires ElfHeaderOk(f) && TableComplete(f) && h < PhnumField(f) && HeadersMappedBy(f, h)
    ensures var ph := HeadersFrom(f, 0)[h];
            && ph.ptype == PT_LOAD && ph.offset == 0 && ph.vaddr == 0
            && PhoffField(f) + PHDR_SIZE * PhnumField(f) <= ph.filesz
  {
    hide HeadersFrom, PhoffField, PhnumField;
  }

  lemma BaseHasRoom(base: Word, f: seq<Byte>, ph: Phdr)
    requires SegmentOk(f, ph) && BaseOk(base, ph)
    ensures base + ph.vaddr + ph.filesz < WORD
  {
    SegmentSizes(f, ph);
    SegmentInUserSpace(base, ph);
  }

  lemma TableAtIs(s: Space, f: seq<Byte>, at: nat)
    requires ElfHeaderOk(f)
    ensures TableAt(s, f, at) <==>
            forall x: nat :: Covers(at, PHDR_SIZE * PhnumField(f), x) ==>
              TableByte(s, f, at, x)
  {
  }

  lemma CoveredBy(at: nat, n: nat, x: nat)
    ensures Covers(at, n, x) <==> at <= x < at + n
  {
  }

  /** Where every segment is loaded, so is the header table that one of them holds. */
  lemma TableIsLoaded(t: Space, f: seq<Byte>, rank: nat, h: nat)
    requires InitialBase(rank) < WORD && LoadableElf(f, rank)
    requires h < PhnumField(f) && HeadersMappedBy(f, h)
    requires AllLoaded(t, f, InitialBase(rank), HeadersFrom(f, 0))
    ensures TableAt(t, f, (InitialBase(rank) + PhoffField(f)) % WORD)
  {
    hide *;
    ElfParts(f, rank);
    HeadersMapped(f, h);
    var base, phs, n := InitialBase(rank), HeadersFrom(f, 0), PHDR_SIZE * PhnumField(f);
    LoadableParts(f, rank, h);
    BaseHasRoom(base, f, phs[h]);
    SegmentInFile(f, phs[h]);
    var at: nat := base + PhoffField(f);
    forall x: nat | Covers(at, n, x)
      ensures TableByte(t, f, at, x)
    {
      CoveredBy(at, n, x);
      LoadedAt(t, f, base, phs, h, x);
      TableByteIs(t, f, at, x);
    }
    TableAtIs(t, f, at);
    SmallMod(at);
  }

  lemma TableByteIs(s: Space, f: seq<Byte>, at: nat, x: nat)
    requires ElfHeaderOk(f) && at <= x && PhoffField(f) + (x - at) < |f| && x in s
    requires s[x].value == f[PhoffField(f) + (x - at)]
    ensures TableByte(s, f, at, x)
  {
  }

  lemma SmallMod(at: nat)
    ensures at < WORD ==> at % WORD == at
  {
  }

  // ---------------------------------------------------------------- the launch as a program

  datatype Launch =
    | Started(base: Word, entry: Word, stack: nat, stackStart: nat, heap: nat)   // ready to jump to `entry`
    | GaveUp                                                                     // runRtld returns -1
    | Died                                                                       // the loader stopped the process

  /** data at address `at`, readable and writable. */
  ghost predicate Filled(t: Space, at: nat, data: seq<Byte>) {
    forall a: nat :: Covers(at, |data|, a) ==> a in t && t[a] == Cell(data[a - at], PROT_RW)
  }

  /** t is s with new pages at `stack`, that start with the copy of the process stack. */
  ghost predicate StackMade(t: Space, s: Space, orig: seq<Byte>, l: Stack.Layout, info: Stack.ImageInfo, stack: nat)
    requires Stack.LayoutOk(orig, l) && Stack.StringsOk(orig, l)
  {
    && 0 < stack && stack + |orig| < WORD && MmapArgsOk(stack, |orig|) && Free(s, stack, stack + RoundUp(|orig|))
    && Extends(t, s) && OnlyAdds(t, s, stack, RoundUp(|orig|))
    && (LayoutAtOk(orig, l, stack); Filled(t, stack, Stack.DeepCopy(orig, LayoutAt(l, stack), info)))
  }

  /** Pages that are mapped and then written. */
  lemma FilledPages(s: Space, at: nat, data: seq<Byte>)
    requires MmapArgsOk(at, |data|) && Free(s, at, at + RoundUp(|data|))
    ensures var mapped := Place(s, at, Zeros(RoundUp(|data|)), PROT_RW % 8);
            var t := Store(mapped, at, data);
            && Mapped(mapped, at, at + |data|) && Extends(t, s) && Filled(t, at, data)
            && OnlyAdds(t, s, at, RoundUp(|data|))
    ensures 0 < at && at + |data| < WORD
  {
    hide *;
    PageBounds(at, |data|);
    PlacedThenStored(s, at, RoundUp(|data|), data);
  }

  lemma PageBounds(at: nat, n: nat)
    requires MmapArgsOk(at, n)
    ensures n <= RoundUp(n) && 0 < at && at + n < WORD && PROT_RW % 8 == PROT_RW
  {
    RoundingIsTight(n, 0);
    hide RoundUp;
  }

  lemma PlacedThenStored(s: Space, at: nat, n: nat, data: seq<Byte>)
    requires |data| <= n && Free(s, at, at + n)
    ensures var mapped := Place(s, at, Zeros(n), PROT_RW);
            var t := Store(mapped, at, data);
            && Mapped(mapped, at, at + |data|) && Extends(t, s) && Filled(t, at, data) && OnlyAdds(t, s, at, n)
  {
    var mapped := Place(s, at, Zeros(n), PROT_RW);
    assert forall a: nat :: Covers(at, n, a) ==> a in mapped && mapped[a].prot == PROT_RW;
    assert forall a: nat :: !Covers(at, n, a) ==> (a in mapped <==> a in s) && (a in s ==> mapped[a] == s[a]);
    hide Place, Zeros;
  }

  lemma StackIsMade(t: Space, s: Space, orig: seq<Byte>, l: Stack.Layout, info: Stack.ImageInfo, stack: nat)
    requires Stack.LayoutOk(orig, l) && Stack.StringsOk(orig, l)
    requires 0 < stack && stack + |orig| < WORD && MmapArgsOk(stack, |orig|) && Free(s, stack, stack + RoundUp(|orig|))
    requires Stack.LayoutOk(orig, LayoutAt(l, stack)) && Stack.StringsOk(orig, LayoutAt(l, stack))
    requires Extends(t, s) && OnlyAdds(t, s, stack, RoundUp(|orig|))
    requires Filled(t, stack, Stack.DeepCopy(orig, LayoutAt(l, stack), info))
    ensures StackMade(t, s, orig, l, info, stack)
  {
    hide RoundUp, MmapArgsOk, Extends, OnlyAdds, Filled, Free, Stack.LayoutOk, Stack.StringsOk, LayoutAt;
  }

  /**
   createNewStackForRtld: a copy of the process stack in pages of the kernel's choosing. The original stack
   is not written.
   */
  method CreateNewStackForRtld(lower: Tracker, origStack: array<Byte>, oldBase: nat, end: nat, target: Word,
                               info: Stack.ImageInfo, ghost l: Stack.Layout) returns (stack: nat, start: nat, ok: bool)
    requires lower.Valid() && Stack.LayoutOk(origStack[..], l) && Stack.StringsOk(origStack[..], l)
    requires l.oldBase == oldBase && l.end == end && l.target == target
    modifies lower, lower.mmaps, lower.os
    ensures lower.Valid() && lower.os.refusals == NextRefusals(old(lower.os.refusals))
    ensures ok <==>
            && !Memory.Refused(old(lower.os.refusals))
            && HasRoom(old(lower.os.space), lower.os.low, lower.os.high, origStack.Length)
    ensures ok ==> start == stack + end + 8 && FitsBetween(stack, origStack.Length, lower.os.low, lower.os.high)
    ensures ok ==> StackMade(lower.os.space, old(lower.os.space), origStack[..], l, info, stack)
    ensures ok ==> lower.log == old(lower.log) + [Region(stack, origStack.Length)]
    ensures !ok ==> lower.os.space == old(lower.os.space) && lower.log == old(lower.log)
  {
    hide *;
    ghost var s, orig := lower.os.space, origStack[..];
    start := 0;
    stack, ok := lower.MmapAnywhere(origStack.Length, PROT_RW);
    if ok {
      var newStack := new Byte[origStack.Length](_ => 0);
      assert origStack[..] == orig;
      FilledPages(s, stack, newStack[..]);
      LayoutAtOk(orig, l, stack);
      SameVectors(l, stack);
      start := Stack.DeepCopyStack(newStack, origStack, oldBase, stack, end, target, info, LayoutAt(l, stack));
      FilledPages(s, stack, newStack[..]);
      lower.ValidParts();
      lower.os.Write(stack, newStack[..]);
      lower.ValidParts();
      StackIsMade(lower.os.space, s, orig, l, info, stack);
    }
  }

  /** The stack and the heap beside an image that stays as it is. */
  ghost predicate Ready(t: Space, s: Space, orig: seq<Byte>, l: Stack.Layout, info: Stack.ImageInfo, stack: nat,
                        heap: nat)
    requires Stack.LayoutOk(orig, l) && Stack.StringsOk(orig, l) && 0 < stack && stack + |orig| < WORD
  {
    && Extends(t, s) && Free(s, stack, stack + |orig|)
    && MappedWith(t, heap, heap + PAGE_SIZE, PROT_NONE) && MappedWith(t, heap + PAGE_SIZE, heap + HEAP_SIZE, PROT_RW)
    && AllZero(t, heap, heap + HEAP_SIZE) && OnlyAddsBoth(t, s, stack, RoundUp(|orig|), heap, HEAP_SIZE)
    && (LayoutAtOk(orig, l, stack); Filled(t, stack, Stack.DeepCopy(orig, LayoutAt(l, stack), info)))
  }

  /** t maps what s maps and two ranges, and no other address. */
  ghost predicate OnlyAddsBoth(t: Space, s: Space, at: nat, n: nat, at2: nat, n2: nat) {
    forall a: nat :: a in t <==> a in s || Covers(at, n, a) || Covers(at2, n2, a)
  }

  lemma HeapKeepsStack(t: Space, s: Space, s0: Space, orig: seq<Byte>, l: Stack.Layout, info: Stack.ImageInfo,
                       stack: nat, heap: nat)
    requires Stack.LayoutOk(orig, l) && Stack.StringsOk(orig, l)
    requires StackMade(s, s0, orig, l, info, stack) && FreshHeap(s, t, heap)
    ensures 0 < stack && stack + |orig| < WORD && Ready(t, s0, orig, l, info, stack, heap)
  {
    hide *;
    StackMadeParts(s, s0, orig, l, info, stack);
    var data := Stack.DeepCopy(orig, LayoutAt(l, stack), info);
    FreshHeapParts(s, t, heap);
    AddedStays(t, s, s0, stack, |orig|);
    AddedInTurn(t, s, s0, stack, RoundUp(|orig|), heap, HEAP_SIZE);
    FilledStays(t, s, stack, data);
    ReadyIs(t, s0, orig, l, info, stack, heap);
  }

  lemma StackMadeParts(t: Space, s: Space, orig: seq<Byte>, l: Stack.Layout, info: Stack.ImageInfo, stack: nat)
    requires Stack.LayoutOk(orig, l) && Stack.StringsOk(orig, l) && StackMade(t, s, orig, l, info, stack)
    ensures 0 < stack && stack + |orig| < WORD && Free(s, stack, stack + RoundUp(|orig|)) && Extends(t, s)
    ensures OnlyAdds(t, s, stack, RoundUp(|orig|))
    ensures Stack.LayoutOk(orig, LayoutAt(l, stack)) && Stack.StringsOk(orig, LayoutAt(l, stack))
    ensures Filled(t, stack, Stack.DeepCopy(orig, LayoutAt(l, stack), info))
  {
    hide RoundUp, MmapArgsOk, OnlyAdds, Filled, Free, Extends, Stack.LayoutOk, Stack.StringsOk, LayoutAt;
    LayoutAtOk(orig, l, stack);
  }

  lemma FreshHeapParts(s: Space, t: Space, heap: nat)
    requires FreshHeap(s, t, heap)
    ensures Extends(t, s) && Free(s, heap, heap + HEAP_SIZE)
    ensures MappedWith(t, heap, heap + PAGE_SIZE, PROT_NONE)
    ensures MappedWith(t, heap + PAGE_SIZE, heap + HEAP_SIZE, PROT_RW)
    ensures AllZero(t, heap, heap + HEAP_SIZE) && OnlyAdds(t, s, heap, HEAP_SIZE)
  {
    hide Extends, MappedWith, Free, AllZero, OnlyAdds;
  }

  lemma ReadyIs(t: Space, s: Space, orig: seq<Byte>, l: Stack.Layout, info: Stack.ImageInfo, stack: nat, heap: nat)
    requires Stack.LayoutOk(orig, l) && Stack.StringsOk(orig, l) && 0 < stack && stack + |orig| < WORD
    requires Stack.LayoutOk(orig, LayoutAt(l, stack)) && Stack.StringsOk(orig, LayoutAt(l, stack))
    requires Extends(t, s) && Free(s, stack, stack + |orig|)
    requires Filled(t, stack, Stack.DeepCopy(orig, LayoutAt(l, stack), info))
    requires MappedWith(t, heap, heap + PAGE_SIZE, PROT_NONE)
    requires MappedWith(t, heap + PAGE_SIZE, heap + HEAP_SIZE, PROT_RW)
    requires AllZero(t, heap, heap + HEAP_SIZE) && OnlyAddsBoth(t, s, stack, RoundUp(|orig|), heap, HEAP_SIZE)
    ensures Ready(t, s, orig, l, info, stack, heap)
  {
    hide Filled, Free, Extends, MappedWith, AllZero, OnlyAddsBoth, RoundUp, Stack.LayoutOk, Stack.StringsOk, LayoutAt;
  }

  lemma AddedStays(t: Space, s: Space, s0: Space, at: nat, n: nat)
    requires Extends(s, s0) && Extends(t, s) && Free(s0, at, at + RoundUp(n))
    ensures Extends(t, s0) && Free(s0, at, at + n)
  {
    RoundingIsTight(n, 0);
    hide RoundUp;
  }

  lemma AddedInTurn(t: Space, s: Space, s0: Space, at: nat, n: nat, at2: nat, n2: nat)
    requires OnlyAdds(s, s0, at, n) && OnlyAdds(t, s, at2, n2)
    ensures OnlyAddsBoth(t, s0, at, n, at2, n2)
  {
  }

  lemma FilledStays(t: Space, s: Space, at: nat, data: seq<Byte>)
    requires Filled(s, at, data) && Extends(t, s)
    ensures Filled(t, at, data)
  {
  }

  lemma RoomLeft(s: Space, t: Space, low: nat, high: nat, orig: seq<Byte>, l: Stack.Layout, info: Stack.ImageInfo,
                 stack: nat)
    requires Stack.LayoutOk(orig, l) && Stack.StringsOk(orig, l)
    requires RoomForStackAndHeap(s, low, high, |orig|) && StackMade(t, s, orig, l, info, stack)
    requires FitsBetween(stack, |orig|, low, high)
    ensures HasRoom(t, low, high, HEAP_SIZE)
  {
    hide RoundUp, MmapArgsOk, Filled, Extends, Stack.LayoutOk, Stack.StringsOk, LayoutAt, FitsBetween;
    assert HasRoomBeside(s, low, high, stack, |orig|);
    var addr: nat :| FitsBetween(addr, HEAP_SIZE, low, high) && Free(s, addr, addr + RoundUp(HEAP_SIZE))
                     && (addr + RoundUp(HEAP_SIZE) <= stack || stack + RoundUp(|orig|) <= addr);
    assert Free(t, addr, addr + RoundUp(HEAP_SIZE));
  }

  /** The loaded file has an address and an entry point; memory has room for the two mappings left and grants them. */
  ghost predicate MustStart(e: ElfResult, f: seq<Byte>, low: nat, high: nat, n: nat)
    requires ElfHeaderOk(f)
  {
    && e.outcome == Placed && e.base != 0 && (e.base + EntryField(f)) % WORD != 0
    && Granted(e.state.m.refusals, 2) && RoomForStackAndHeap(e.state.m.space, low, high, n)
  }

  /** The entry point and stack to jump with, the memory and the heap state, and the two regions now tracked. */
  ghost predicate StartsRight(r: Launch, e: ElfResult, f: seq<Byte>, orig: seq<Byte>, l: Stack.Layout, h: HeapState,
                              low: nat, high: nat)
    requires r.Started? && ElfHeaderOk(f) && Stack.LayoutOk(orig, l) && Stack.StringsOk(orig, l)
  {
    && r.base == e.base != 0 && r.entry == (e.base + EntryField(f)) % WORD != 0
    && r.stackStart == r.stack + l.end + 8 && 0 < r.stack && r.stack + |orig| < WORD
    && Ready(h.m.space, e.state.m.space, orig, l, InfoFor(f, e.base), r.stack, r.heap)
    && HeapInv(h, r.heap + PAGE_SIZE) && h.curbrk == r.heap + PAGE_SIZE
    && h.m.log == e.state.m.log + [Region(r.stack, |orig|), Region(r.heap, HEAP_SIZE)]
    && PlacedBeside(r, e, |orig|, low, high)
  }

  /** Stack and heap were placed between the bounds, in pages that were free. */
  ghost predicate PlacedBeside(r: Launch, e: ElfResult, n: nat, low: nat, high: nat)
    requires r.Started?
  {
    && FitsBetween(r.stack, n, low, high) && Free(e.state.m.space, r.stack, r.stack + RoundUp(n))
    && FitsBetween(r.heap, HEAP_SIZE, low, high) && Free(e.state.m.space, r.heap, r.heap + RoundUp(HEAP_SIZE))
  }

  /** runRtld from the loading of ld.so on: the image, then the new stack, then the heap. */
  method RunRtld(loader: ElfLoader, heap: Heap, f: seq<Byte>, rank: nat, origStack: array<Byte>, oldBase: nat, end: nat,
                 target: Word, ghost l: Stack.Layout) returns (r: Launch)
    requires heap.Valid() && loader.lower == heap.tracker && InitialBase(rank) < WORD
    requires Stack.LayoutOk(origStack[..], l) && Stack.StringsOk(origStack[..], l)
    requires l.oldBase == oldBase && l.end == end && l.target == target
    modifies loader, heap, heap.tracker, heap.tracker.mmaps, heap.tracker.os
    ensures heap.Valid()
    ensures !ElfHeaderOk(f) || !TableComplete(f) ==> r == Died
    ensures ElfHeaderOk(f) && TableComplete(f) ==>
              var e := LoadHeaders(old(loader.View()), f, HeadersFrom(f, 0), false, 0, rank);
              && (r == Died <==> e.outcome != Placed)
              && (MustStart(e, f, heap.tracker.os.low, heap.tracker.os.high, origStack.Length) ==> r.Started?)
              && (r.Started? ==> StartsRight(r, e, f, origStack[..], l, heap.View(), heap.tracker.os.low,
                                             heap.tracker.os.high))
  {
    hide *;
    ghost var orig, st, low, high := origStack[..], loader.View(), heap.tracker.os.low, heap.tracker.os.high;
    heap.Parts();
    var outcome, info := loader.LoadElfInterpreter(f, rank);
    heap.Parts();
    loader.ViewParts();
    heap.tracker.ViewParts();
    ghost var s0, good := heap.tracker.os.space, ElfHeaderOk(f) && TableComplete(f);
    if good {
      LoadFacts(st, f, rank, low, high, |orig|);
    }
    if outcome == AssertFailed || outcome == Fault {
      return Died;
    }
    if info.baseAddr == 0 || info.entryPoint == 0 {
      return GaveUp;
    }
    var stack, start, ok := CreateNewStackForRtld(heap.tracker, origStack, oldBase, end, target,
                                                  Stack.ImageInfo(info.phnum, info.phdr, info.entryPoint), l);
    heap.Parts();
    if !ok {
      return GaveUp;
    }
    ghost var s1 := heap.tracker.os.space;
    if RoomForStackAndHeap(s0, low, high, |orig|) {
      RoomLeft(s0, s1, low, high, orig, l, Stack.ImageInfo(info.phnum, info.phdr, info.entryPoint), stack);
    }
    var heapAddr;
    heapAddr, ok := heap.CreateNewHeapForRtld();
    heap.Parts();
    heap.tracker.ViewParts();
    if !ok {
      return GaveUp;
    }
    r := Started(info.baseAddr, info.entryPoint, stack, start, heapAddr);
    HeapIsPages();
    HeapKeepsStack(heap.tracker.os.space, s1, s0, orig, l, Stack.ImageInfo(info.phnum, info.phdr, info.entryPoint),
                   stack, heapAddr);
    if good {
      HeapBeside(s1, s0, orig, l, Stack.ImageInfo(info.phnum, info.phdr, info.entryPoint), stack,
                 heap.tracker.os.space, heapAddr);
      PlacedIs(r, LoadHeaders(st, f, HeadersFrom(f, 0), false, 0, rank), |orig|, low, high);
      StartedRight(r, LoadHeaders(st, f, HeadersFrom(f, 0), false, 0, rank), f, orig, l, heap.View(), low, high);
    }
  }

  lemma LoadFacts(st: LoadState, f: seq<Byte>, rank: nat, low: nat, high: nat, n: nat)
    requires InitialBase(rank) < WORD && ElfHeaderOk(f) && TableComplete(f)
    ensures var e := LoadHeaders(st, f, HeadersFrom(f, 0), false, 0, rank);
            && e.outcome != MapFailed
            && (MustStart(e, f, low, high, n) ==>
                  && e.outcome == Placed && e.base != 0 && (e.base + EntryField(f)) % WORD != 0
                  && RoomForStackAndHeap(e.state.m.space, low, high, n)
                  && HasRoom(e.state.m.space, low, high, n) && !Refused(e.state.m.refusals)
                  && !Refused(NextRefusals(e.state.m.refusals)))
  {
    HeadersEnd(st, f, HeadersFrom(f, 0), false, 0, rank);
    hide LoadHeaders, HeadersFrom, EntryField;
  }

  /** The heap's pages were free before the stack was made, too. */
  lemma HeapBeside(s: Space, s0: Space, orig: seq<Byte>, l: Stack.Layout, info: Stack.ImageInfo, stack: nat, t: Space,
                   heap: nat)
    requires Stack.LayoutOk(orig, l) && Stack.StringsOk(orig, l) && StackMade(s, s0, orig, l, info, stack)
    requires FreshHeap(s, t, heap)
    ensures Free(s0, stack, stack + RoundUp(|orig|)) && Free(s0, heap, heap + RoundUp(HEAP_SIZE))
  {
    hide *;
    StackMadeParts(s, s0, orig, l, info, stack);
    FreshHeapParts(s, t, heap);
    HeapIsPages();
    FreeBefore(s, s0, heap, heap + HEAP_SIZE);
  }

  lemma HeapIsPages()
    ensures RoundUp(HEAP_SIZE) == HEAP_SIZE == 100 * PAGE_SIZE
  {
  }

  lemma FreeBefore(s: Space, s0: Space, lo: nat, hi: nat)
    requires Extends(s, s0) && Free(s, lo, hi)
    ensures Free(s0, lo, hi)
  {
  }

  lemma PlacedIs(r: Launch, e: ElfResult, n: nat, low: nat, high: nat)
    requires r.Started?
    requires FitsBetween(r.stack, n, low, high) && Free(e.state.m.space, r.stack, r.stack + RoundUp(n))
    requires FitsBetween(r.heap, HEAP_SIZE, low, high) && Free(e.state.m.space, r.heap, r.heap + RoundUp(HEAP_SIZE))
    ensures PlacedBeside(r, e, n, low, high)
  {
    hide FitsBetween, Free, RoundUp;
  }

  lemma StartedRight(r: Launch, e: ElfResult, f: seq<Byte>, orig: seq<Byte>, l: Stack.Layout, h: HeapState, low: nat,
                     high: nat)
    requires r.Started? && ElfHeaderOk(f) && Stack.LayoutOk(orig, l) && Stack.StringsOk(orig, l)
    requires r.base == e.base != 0 && r.entry == (e.base + EntryField(f)) % WORD != 0
    requires r.stackStart == r.stack + l.end + 8 && 0 < r.stack && r.stack + |orig| < WORD
    requires Ready(h.m.space, e.state.m.space, orig, l,
                   Stack.ImageInfo(PhnumField(f), (e.base + PhoffField(f)) % WORD, (e.base + EntryField(f)) % WORD),
                       r.stack, r.heap)
    requires HeapInv(h, r.heap + PAGE_SIZE) && h.curbrk == r.heap + PAGE_SIZE
    requires h.m.log == e.state.m.log + [Region(r.stack, |orig|), Region(r.heap, HEAP_SIZE)]
    requires PlacedBeside(r, e, |orig|, low, high)
    ensures StartsRight(r, e, f, orig, l, h, low, high)
  {
    hide PlacedBeside, Ready, HeapInv, Stack.LayoutOk, Stack.StringsOk, PhnumField, PhoffField, EntryField;
  }

  /**
   In the memory that runRtld leaves for a loadable file, the new stack's auxiliary vector describes the
   image that is there, and its AT_PHDR entries lead to the file's program headers.
   */
  lemma LaunchedStackDescribesImage(r: Launch, m: Machine, f: seq<Byte>, rank: nat, orig: seq<Byte>, l: Stack.Layout,
                                    h: HeapState,
                                    low: nat, high: nat)
    requires InitialBase(rank) < WORD && ElfHeaderOk(f) && TableComplete(f) && LoadableElf(f, rank)
    requires Granted(m.refusals, Asked(InitialBase(rank), HeadersFrom(f, 0)))
    requires Stack.LayoutOk(orig, l) && Stack.StringsOk(orig, l) && Stack.PreloadEntry(orig, l) < l.envc
    requires r.Started? && StartsRight(r, FirstLoad(m, f, rank), f, orig, l, h, low, high)
    ensures ImageAndStackAgree(h.m.space, r.stack, orig, l, f, FirstLoad(m, f, rank).base)
  {
    hide *;
    FirstLoadIs(m, f, rank);
    StartedParts(r, FirstLoad(m, f, rank), f, orig, l, h, low, high);
    ElfLoadCorrect(m, f, rank);
    SamePreloadEntry(orig, l, r.stack);
    SameVectors(l, r.stack);
    NewAuxvDescribesImage(m, f, rank, h.m.space, orig, LayoutAt(l, r.stack));
    FilledIsLoaded(h.m.space, r.stack, Stack.DeepCopy(orig, LayoutAt(l, r.stack), InfoFor(f, InitialBase(rank))));
    Agree(h.m.space, r.stack, orig, l, f, FirstLoad(m, f, rank).base);
  }

  /** The image is in memory, and the stack at `stack` has an auxiliary vector that describes it. */
  ghost predicate ImageAndStackAgree(t: Space, stack: nat, orig: seq<Byte>, l: Stack.Layout, f: seq<Byte>, base: Word)
    requires ElfHeaderOk(f) && TableComplete(f)
  {
    && AllLoaded(t, f, base, HeadersFrom(f, 0))
    && Mapped(t, stack, stack + |orig|) && l.Auxv() + 16 * l.auxc + 16 <= |orig|
    && AuxvDescribes(Load(t, stack, |orig|), orig, l.Auxv(), l.auxc, t, f, base)
  }

  lemma Agree(t: Space, stack: nat, orig: seq<Byte>, l: Stack.Layout, f: seq<Byte>, base: Word)
    requires ElfHeaderOk(f) && TableComplete(f) && AllLoaded(t, f, base, HeadersFrom(f, 0))
    requires Mapped(t, stack, stack + |orig|) && l.Auxv() + 16 * l.auxc + 16 <= |orig|
    requires AuxvDescribes(Load(t, stack, |orig|), orig, l.Auxv(), l.auxc, t, f, base)
    ensures ImageAndStackAgree(t, stack, orig, l, f, base)
  {
    hide AllLoaded, Mapped, AuxvDescribes, HeadersFrom;
  }

  lemma StartedParts(r: Launch, e: ElfResult, f: seq<Byte>, orig: seq<Byte>, l: Stack.Layout, h: HeapState, low: nat,
                     high: nat)
    requires r.Started? && ElfHeaderOk(f) && Stack.LayoutOk(orig, l) && Stack.StringsOk(orig, l)
    requires StartsRight(r, e, f, orig, l, h, low, high)
    ensures 0 < r.stack && r.stack + |orig| < WORD && Extends(h.m.space, e.state.m.space)
    ensures Stack.LayoutOk(orig, LayoutAt(l, r.stack)) && Stack.StringsOk(orig, LayoutAt(l, r.stack))
    ensures Filled(h.m.space, r.stack, Stack.DeepCopy(orig, LayoutAt(l, r.stack), InfoFor(f, e.base)))
  {
    hide Filled, Extends, Stack.LayoutOk, Stack.StringsOk, LayoutAt, HeapInv, EntryField;
    LayoutAtOk(orig, l, r.stack);
  }

  lemma FilledIsLoaded(t: Space, at: nat, data: seq<Byte>)
    requires Filled(t, at, data)
    ensures Mapped(t, at, at + |data|) && Load(t, at, |data|) == data
  {
    forall a: nat | at <= a < at + |data| ensures a in t && t[a].value == data[a - at] {
      assert Covers(at, |data|, a);
    }
  }

  // ---------------------------------------------------------------- the launch inside the window

  /** The loadable segments, from the rank's loader address on, end inside its window. */
  ghost predicate SegmentsInWindow(base: nat, phs: seq<Phdr>, rank: nat) {
    && WindowStart(rank) <= base
    && forall i :: 0 <= i < |phs| && phs[i].ptype == PT_LOAD ==> PagesTo(base, phs[i]) <= WindowStart(rank) + WINDOW
  }

  /** The loader's address is three quarters into the rank's window. */
  lemma InitialBaseInWindow(rank: nat)
    ensures InWindow(rank, InitialBase(rank)) && InitialBase(rank) == WindowStart(rank) + 3 * (WINDOW / 4)
    ensures Aligned(InitialBase(rank))
  {
  }

  /** The segments are in the window if and only if each ends within its last quarter. */
  lemma SegmentsInWindowIff(phs: seq<Phdr>, rank: nat)
    ensures SegmentsInWindow(InitialBase(rank), phs, rank) <==>
            forall i :: 0 <= i < |phs| && phs[i].ptype == 1 ==> phs[i].vaddr + phs[i].memsz <= 0x4000_0000
  {
    InitialBaseInWindow(rank);
    WindowAligned(rank);
    forall i | 0 <= i < |phs|
      ensures PagesTo(InitialBase(rank), phs[i]) <= WindowStart(rank) + WINDOW <==>
              phs[i].vaddr + phs[i].memsz <= 0x4000_0000
    {
      RoundingIsTight(InitialBase(rank) + phs[i].vaddr + phs[i].memsz, WindowStart(rank) + WINDOW);
    }
    hide PagesTo, InitialBase, WindowStart;
  }

  /** A window that is free below the loader's address has room for a stack and a heap that are not too large. */
  lemma RoomBelowImage(s: Space, rank: nat, low: nat, high: nat, n: nat)
    requires Free(s, WindowStart(rank), InitialBase(rank)) && InitialBase(rank) <= TASK_SIZE
    requires low <= WindowStart(rank) && InitialBase(rank) <= high
    requires 0 < n && RoundUp(n) + 2 * HEAP_SIZE <= 3 * (WINDOW / 4)
    ensures RoomForStackAndHeap(s, low, high, n)
  {
    InitialBaseInWindow(rank);
    WindowAligned(rank);
    RoundingIsTight(n, 0);
    HeapIsPages();
    var start, size := WindowStart(rank), RoundUp(n);
    hide RoundUp, InitialBase, WindowStart;
    assert FitsBetween(start, n, low, high) && Free(s, start, start + size);
    hide FitsBetween, Free;
    forall at: nat | FitsBetween(at, n, low, high) ensures HasRoomBeside(s, low, high, at, n) {
      HeapBesideStack(s, start, start + 3 * (WINDOW / 4), low, high, at, n);
    }
  }

  /** In free pages there is room for the heap below a stack that leaves it there, or else behind where it can reach. */
  lemma HeapBesideStack(s: Space, start: nat, end: nat, low: nat, high: nat, at: nat, n: nat)
    requires Aligned(start) && MMAP_MIN_ADDR <= start && low <= start && end <= high && end <= TASK_SIZE
    requires Free(s, start, end) && start + RoundUp(n) + 2 * HEAP_SIZE <= end && Aligned(RoundUp(n))
    ensures HasRoomBeside(s, low, high, at, n)
  {
    HeapIsPages();
    hide RoundUp;
    var addr := if start + HEAP_SIZE <= at || at + RoundUp(n) <= start then start else start + HEAP_SIZE + RoundUp(n);
    assert Aligned(addr) && addr + HEAP_SIZE <= end;
    assert FitsBetween(addr, HEAP_SIZE, low, high) && Free(s, addr, addr + RoundUp(HEAP_SIZE));
  }

  /** A loadable file whose entry point is not at address 0 once it is loaded. */
  ghost predicate Enterable(f: seq<Byte>, rank: nat)
    requires InitialBase(rank) < WORD
  {
    LoadableElf(f, rank) && (InitialBase(rank) + EntryField(f)) % WORD != 0
  }

  lemma EntersSomewhere(f: seq<Byte>, rank: nat)
    requires InitialBase(rank) < WORD && Enterable(f, rank)
    ensures LoadableElf(f, rank) && ElfHeaderOk(f) && (InitialBase(rank) + EntryField(f)) % WORD != 0
  {
    hide HeadersFrom, LoadsOk, HasLoad, FirstLoadKeepsBase;
  }

  /** With the window free below the loader's address, a loadable file must start. */
  lemma FreeWindowMustStart(m: Machine, f: seq<Byte>, rank: nat, low: nat, high: nat, n: nat)
    requires InitialBase(rank) < WORD && Enterable(f, rank) && m.refusals == []
    requires Free(m.space, WindowStart(rank), InitialBase(rank))
    requires low <= WindowStart(rank) && InitialBase(rank) <= high
    requires 0 < n && RoundUp(n) + 2 * HEAP_SIZE <= 3 * (WINDOW / 4)
    ensures ElfHeaderOk(f) && TableComplete(f) && MustStart(FirstLoad(m, f, rank), f, low, high, n)
  {
    hide *;
    EntersSomewhere(f, rank);
    ElfParts(f, rank);
    FirstLoadIs(m, f, rank);
    var e, base, phs := FirstLoad(m, f, rank), InitialBase(rank), HeadersFrom(f, 0);
    GrantedInTurn([], Asked(base, phs), 0);
    GrantedInTurn([], 2, 0);
    FirstLoadRefusals(m, f, rank);
    ElfLoadCorrect(m, f, rank);
    LoadableFile(f, rank);
    BelowImageKept(e.state.m.space, m.space, f, base, phs, WindowStart(rank));
    BaseInUserSpace(f, rank);
    RoomBelowImage(e.state.m.space, rank, low, high, n);
    MustStartIs(e, f, low, high, n);
  }

  lemma FirstLoadRefusals(m: Machine, f: seq<Byte>, rank: nat)
    requires InitialBase(rank) < WORD && LoadableElf(f, rank) && m.refusals == []
    ensures FirstLoad(m, f, rank).state.m.refusals == []
  {
    hide LoadHeaders, HeadersFrom, AllLoaded, OnlyLoadPagesChanged, LoadsOk, HasLoad, FirstLoadKeepsBase, LoadRegions,
         Asked;
    GrantedInTurn([], Asked(InitialBase(rank), HeadersFrom(f, 0)), 0);
    HeadersAreLoaded(LoadState(m, 0, true), f, HeadersFrom(f, 0), false, 0, rank);
  }

  lemma BelowImageKept(t: Space, s: Space, f: seq<Byte>, base: Word, phs: seq<Phdr>, lo: nat)
    requires LoadsOk(f, phs, base) && OnlyLoadPagesChanged(t, s, base, phs) && Free(s, lo, base)
    ensures Free(t, lo, base)
  {
    forall x | lo <= x < base ensures x !in t {
      forall i | 0 <= i < |phs| && phs[i].ptype == PT_LOAD ensures !OnPagesOf(base, phs[i], x) {
        assert BaseOk(base, phs[i]);
        RoundingIsTight(base + phs[i].vaddr, base);
      }
      assert !OnLoadPages(base, phs, x);
    }
  }

  lemma BaseInUserSpace(f: seq<Byte>, rank: nat)
    requires InitialBase(rank) < WORD && LoadableElf(f, rank)
    ensures 0 < InitialBase(rank) <= TASK_SIZE
  {
    var base, phs := InitialBase(rank), HeadersFrom(f, 0);
    var i :| 0 <= i < |phs| && phs[i].ptype == PT_LOAD;
    assert BaseOk(base, phs[i]);
    RoundingIsTight(base + phs[i].vaddr + phs[i].memsz, 0);
    hide HeadersFrom, RoundUp;
  }

  lemma MustStartIs(e: ElfResult, f: seq<Byte>, low: nat, high: nat, n: nat)
    requires ElfHeaderOk(f) && e.outcome == Placed && e.base != 0 && (e.base + EntryField(f)) % WORD != 0
    requires Granted(e.state.m.refusals, 2) && RoomForStackAndHeap(e.state.m.space, low, high, n)
    ensures MustStart(e, f, low, high, n)
  {
    hide RoomForStackAndHeap, EntryField, Granted;
  }

  lemma SegmentRegionsConfined(f: seq<Byte>, base: Word, ph: Phdr, rank: nat)
    requires SegmentOk(f, ph) && BaseOk(base, ph) && WindowStart(rank) <= base
    requires PagesTo(base, ph) <= WindowStart(rank) + WINDOW
    ensures Confined(SegmentRegions(base, ph), rank)
    ensures WindowStart(rank) <= PagesFrom(base, ph)
  {
    SegmentGeometry(f, base, ph);
    RoundingIsTight(base + ph.vaddr, base);
    RoundingIsTight(base + ph.vaddr + ph.filesz, 0);
    hide RoundUp, RoundDown, SegmentOk, SegmentSize, SegmentAddr, MmapArgsOk;
  }

  lemma {:induction false} LoadRegionsConfined(f: seq<Byte>, base: Word, phs: seq<Phdr>, rank: nat)
    requires LoadsOk(f, phs, base) && SegmentsInWindow(base, phs, rank)
    ensures Confined(LoadRegions(base, phs), rank)
    decreases |phs|
  {
    hide SegmentOk, BaseOk, PagesTo, PagesFrom, SegmentRegions, PagesApart;
    if phs != [] {
      LoadsOkTail(f, phs, base);
      LoadRegionsConfined(f, base, phs[1..], rank);
      if phs[0].ptype == PT_LOAD {
        SegmentRegionsConfined(f, base, phs[0], rank);
      }
    }
  }

  /** Loading fills pages of the window only. */
  lemma FenceAfterLoad(t: Space, s: Space, f: seq<Byte>, base: Word, phs: seq<Phdr>, l: Confine.Layout, rank: nat)
    requires LoadsOk(f, phs, base) && SegmentsInWindow(base, phs, rank)
    requires FreeOnlyInWindow(s, l, rank) && OnlyLoadPagesChanged(t, s, base, phs)
    ensures FreeOnlyInWindow(t, l, rank)
  {
    hide SegmentOk, BaseOk, PagesTo, PagesFrom, PagesApart;
    forall x: nat | l.heapEnd <= x < l.stack && x !in t ensures InWindow(rank, x) {
      if i :| 0 <= i < |phs| && phs[i].ptype == PT_LOAD && OnPagesOf(base, phs[i], x) {
        assert SegmentOk(f, phs[i]) && BaseOk(base, phs[i]);
        SegmentRegionsConfined(f, base, phs[i], rank);
      } else {
        assert !OnLoadPages(base, phs, x);
      }
    }
  }

  /**
   A launch behind the fence: the segments of ld.so, the new stack and the heap are all tracked in the rank's
   window, and what is left free between the process's heap and stack is in it, too.
   */
  lemma LaunchStaysConfined(r: Launch, m: Machine, f: seq<Byte>, rank: nat, orig: seq<Byte>, l: Stack.Layout,
                            h: HeapState,
                            fence: Confine.Layout, low: nat, high: nat)
    requires InitialBase(rank) < WORD && ElfHeaderOk(f) && TableComplete(f) && LoadableElf(f, rank)
    requires Granted(m.refusals, Asked(InitialBase(rank), HeadersFrom(f, 0)))
    requires SegmentsInWindow(InitialBase(rank), HeadersFrom(f, 0), rank)
    requires FreeOnlyInWindow(m.space, fence, rank) && PlacesBetween(fence, low, high) && Confined(m.log, rank)
    requires Stack.LayoutOk(orig, l) && Stack.StringsOk(orig, l)
    requires r.Started? && StartsRight(r, FirstLoad(m, f, rank), f, orig, l, h, low, high)
    ensures Confined(h.m.log, rank) && FreeOnlyInWindow(h.m.space, fence, rank) && BreakOk(h)
  {
    hide *;
    LaunchedBreak(r, FirstLoad(m, f, rank), f, orig, l, h, low, high);
    var e, base, phs := FirstLoad(m, f, rank), InitialBase(rank), HeadersFrom(f, 0);
    FirstLoadIs(m, f, rank);
    ElfLoadCorrect(m, f, rank);
    LoadableFile(f, rank);
    LoadRegionsConfined(f, base, phs, rank);
    FenceAfterLoad(e.state.m.space, m.space, f, base, phs, fence, rank);
    StartedPlaces(r, e, f, orig, l, h, low, high);
    PlacedInWindow(e.state.m.space, fence, rank, low, high, r.stack, |orig|);
    PlacedInWindow(e.state.m.space, fence, rank, low, high, r.heap, HEAP_SIZE);
    AddingKeepsFence(h.m.space, e.state.m.space, fence, rank);
    ConfinedTogether(m.log, LoadRegions(base, phs), rank);
    ConfinedTogether(e.state.m.log, [Region(r.stack, |orig|), Region(r.heap, HEAP_SIZE)], rank);
    TwoConfined(Region(r.stack, |orig|), Region(r.heap, HEAP_SIZE), rank);
  }

  lemma LaunchedBreak(r: Launch, e: ElfResult, f: seq<Byte>, orig: seq<Byte>, l: Stack.Layout, h: HeapState, low: nat,
                      high: nat)
    requires r.Started? && ElfHeaderOk(f) && Stack.LayoutOk(orig, l) && Stack.StringsOk(orig, l)
    requires StartsRight(r, e, f, orig, l, h, low, high)
    ensures BreakOk(h)
  {
    hide Ready, PlacedBeside, Stack.LayoutOk, Stack.StringsOk;
    HeapBreakOk(h, r.heap + PAGE_SIZE);
  }

  lemma LoadableFile(f: seq<Byte>, rank: nat)
    requires InitialBase(rank) < WORD && LoadableElf(f, rank)
    ensures LoadsOk(f, HeadersFrom(f, 0), InitialBase(rank))
  {
    hide LoadsOk, HeadersFrom, HasLoad, FirstLoadKeepsBase;
  }

  lemma StartedPlaces(r: Launch, e: ElfResult, f: seq<Byte>, orig: seq<Byte>, l: Stack.Layout, h: HeapState, low: nat,
                      high: nat)
    requires r.Started? && ElfHeaderOk(f) && Stack.LayoutOk(orig, l) && Stack.StringsOk(orig, l)
    requires StartsRight(r, e, f, orig, l, h, low, high)
    ensures FitsBetween(r.stack, |orig|, low, high) && Free(e.state.m.space, r.stack, r.stack + RoundUp(|orig|))
    ensures FitsBetween(r.heap, HEAP_SIZE, low, high) && Free(e.state.m.space, r.heap, r.heap + RoundUp(HEAP_SIZE))
    ensures h.m.log == e.state.m.log + [Region(r.stack, |orig|), Region(r.heap, HEAP_SIZE)]
    ensures forall x :: x in e.state.m.space ==> x in h.m.space
  {
    StartedParts(r, e, f, orig, l, h, low, high);
    hide Filled, Free, FitsBetween, Stack.LayoutOk, Stack.StringsOk, LayoutAt, HeapInv, EntryField, RoundUp, MappedWith,
         Ready, Stack.DeepCopy;
  }

  lemma ConfinedTogether(a: seq<Region>, b: seq<Region>, rank: nat)
    ensures Confined(a, rank) && Confined(b, rank) ==> Confined(a + b, rank)
  {
  }

  lemma TwoConfined(p: Region, q: Region, rank: nat)
    requires WindowStart(rank) <= p.addr && p.addr + p.len <= WindowStart(rank) + WINDOW
    requires WindowStart(rank) <= q.addr && q.addr + q.len <= WindowStart(rank) + WINDOW
    ensures Confined([p, q], rank)
  {
  }

  /**
   The special areas follow the window in order, the window is free, the kernel may place mappings in it, and of
   what lies below the loader's address a stack of n bytes leaves the heap enough wherever it is put.
   */
  ghost predicate WindowReady(s: Space, l: Confine.Layout, rank: nat, low: nat, high: nat, n: nat) {
    && InOrder(l, rank) && l.vvar <= l.vvarEnd && l.vdso <= l.vdsoEnd
    && Free(s, WindowStart(rank), WindowStart(rank) + WINDOW)
    && low <= WindowStart(rank) && InitialBase(rank) <= high
    && 0 < n && RoundUp(n) + 2 * HEAP_SIZE <= 3 * (WINDOW / 4)
  }

  /** The fence leaves such a window ready for a launch. */
  lemma FencedStillReady(t: Space, s: Space, l: Confine.Layout, rank: nat, low: nat, high: nat, n: nat)
    requires Fenced(t, s, l, rank) && WindowReady(s, l, rank, low, high, n)
    ensures Free(t, WindowStart(rank), InitialBase(rank))
    ensures low <= WindowStart(rank) && InitialBase(rank) <= high
    ensures 0 < n && RoundUp(n) + 2 * HEAP_SIZE <= 3 * (WINDOW / 4)
  {
    hide InOrder, Fenced, RoundUp;
    FenceSparesWindow(t, s, l, rank);
    InitialBaseInWindow(rank);
    forall x | WindowStart(rank) <= x < InitialBase(rank) ensures x !in t {
      assert InWindow(rank, x) && SameAt(t, s, x);
    }
  }

  /**
   runRtld from the fence on: a failed assertion of the fence ends the process; otherwise the launch goes ahead. A
   loadable file with an entry point starts if the window is ready for it; and if its segments fit the window all
   that a launch tracks is in the window.
   */
  method ConfineAndRun(loader: ElfLoader, heap: Heap, fence: Confine.Layout, f: seq<Byte>, rank: nat,
                       origStack: array<Byte>,
                       oldBase: nat, end: nat, target: Word, ghost l: Stack.Layout) returns (r: Launch)
    requires heap.Valid() && loader.lower == heap.tracker && InitialBase(rank) < WORD
    requires WindowStart(rank) + WINDOW < WORD
    requires loader.baseAddress == 0 && loader.firstTime && heap.tracker.log == [] && heap.tracker.os.refusals == []
    requires PlacesBetween(fence, heap.tracker.os.low, heap.tracker.os.high)
    requires Mapped(heap.tracker.os.space, fence.vvar, fence.vvarEnd)
    requires Mapped(heap.tracker.os.space, fence.vdso, fence.vdsoEnd)
    requires Stack.LayoutOk(origStack[..], l) && Stack.StringsOk(origStack[..], l)
    requires l.oldBase == oldBase && l.end == end && l.target == target
    modifies loader, heap, heap.tracker, heap.tracker.mmaps, heap.tracker.os
    ensures heap.Valid() && (!InOrder(fence, rank) ==> r == Died)
    ensures Enterable(f, rank)
            && old(WindowReady(heap.tracker.os.space, fence, rank, heap.tracker.os.low, heap.tracker.os.high,
                               origStack.Length)) ==>
              r.Started?
    ensures r.Started? && LoadableElf(f, rank) && SegmentsInWindow(InitialBase(rank), HeadersFrom(f, 0), rank) ==>
              && Confined(ReportedList(heap.tracker.log), rank) && FreeOnlyInWindow(heap.tracker.os.space, fence, rank)
  {
    hide *;
    heap.Parts();
    heap.tracker.ValidParts();
    ghost var s := heap.tracker.os.space;
    var ok := ConfineAddrSpace(heap.tracker.os, fence, rank);
    heap.tracker.ValidParts();
    heap.Parts();
    loader.ViewParts();
    heap.tracker.ViewParts();
    ghost var m, low, high := heap.tracker.View(), heap.tracker.os.low, heap.tracker.os.high;
    if WindowReady(s, fence, rank, low, high, origStack.Length) {
      ReadyIsInOrder(s, fence, rank, low, high, origStack.Length);
    }
    if !ok {
      return Died;
    }
    if Enterable(f, rank) && WindowReady(s, fence, rank, low, high, origStack.Length) {
      FencedStillReady(m.space, s, fence, rank, low, high, origStack.Length);
      FreeWindowMustStart(m, f, rank, low, high, origStack.Length);
      FirstLoadIs(m, f, rank);
    }
    r := RunRtld(loader, heap, f, rank, origStack, oldBase, end, target, l);
    heap.Parts();
    heap.tracker.ViewParts();
    if r.Started? {
      LaunchedInWindow(r, m, f, rank, origStack[..], l, heap.View(), fence, low, high);
    }
  }

  lemma ReadyIsInOrder(s: Space, l: Confine.Layout, rank: nat, low: nat, high: nat, n: nat)
    requires WindowReady(s, l, rank, low, high, n)
    ensures InOrder(l, rank)
  {
    hide InOrder, RoundUp;
  }

  lemma LaunchedInWindow(r: Launch, m: Machine, f: seq<Byte>, rank: nat, orig: seq<Byte>, l: Stack.Layout, h: HeapState,
                         fence: Confine.Layout, low: nat, high: nat)
    requires InitialBase(rank) < WORD && m.refusals == [] && m.log == []
    requires FreeOnlyInWindow(m.space, fence, rank) && PlacesBetween(fence, low, high)
    requires Stack.LayoutOk(orig, l) && Stack.StringsOk(orig, l) && r.Started?
    requires ElfHeaderOk(f) && TableComplete(f) ==>
               StartsRight(r, LoadHeaders(LoadState(m, 0, true), f, HeadersFrom(f, 0), false, 0, rank), f, orig, l, h,
                           low, high)
    ensures LoadableElf(f, rank) && SegmentsInWindow(InitialBase(rank), HeadersFrom(f, 0), rank) ==>
              Confined(ReportedList(h.m.log), rank) && FreeOnlyInWindow(h.m.space, fence, rank)
  {
    if LoadableElf(f, rank) && SegmentsInWindow(InitialBase(rank), HeadersFrom(f, 0), rank) {
      hide *;
      ElfParts(f, rank);
      FirstLoadIs(m, f, rank);
      GrantedInTurn([], Asked(InitialBase(rank), HeadersFrom(f, 0)), 0);
      NothingTracked(rank);
      LaunchStaysConfined(r, m, f, rank, orig, l, h, fence, low, high);
      ReportConfined(h.m.log, rank);
    }
  }

  lemma NothingTracked(rank: nat)
    ensures Confined([], rank)
  {
  }

  // ---------------------------------------------------------------- a file that the theorems speak of

  /** A header with the program headers right behind it. */
  function SmallHeader(): Ehdr {
    Ehdr([0x7f, 'E' as int, 'L' as int, 'F' as int, 2] + Zeros(11), 3, 62, 1, 4, 64, 0, 0, 64, 56, 1, 0, 0, 0)
  }

  /** All of the file at address 0, readable and writable, with bss to the 2000th byte. */
  const SMALL_PHDR: FilePhdr := FilePhdr(1, 6, 0, 0, 0, 120, 2000, PAGE_SIZE)

  function SmallElf(): seq<Byte> {
    EhdrBytes(SmallHeader()) + PhdrBytes(SMALL_PHDR)
  }

  lemma SmallElfIsWritten()
    ensures WrittenAs(SmallElf(), SmallHeader(), [SMALL_PHDR]) && Is64BitElf(SmallHeader().ident)
    ensures |SmallElf()| == 120
  {
    hide LeBytes;
    var f, header, table := SmallElf(), EhdrBytes(SmallHeader()), PhdrBytes(SMALL_PHDR);
    assert |header| == 64 && f[0..64] == header && f[64..120] == table;
    assert TableBytes([SMALL_PHDR]) == table + TableBytes([]) == table;
    var elf := "ELF";
    assert forall i :: 0 <= i < 3 ==> SmallHeader().ident[1 + i] == elf[i] as int;
    hide EhdrBytes, PhdrBytes, TableBytes;
  }

  /** The conditions of the loading theorems can be met: here by a file that is its own only segment. */
  lemma SmallElfIsLoadable()
    ensures InitialBase(0) < WORD && ElfHeaderOk(SmallElf()) && TableComplete(SmallElf()) && LoadableElf(SmallElf(), 0)
    ensures PhnumField(SmallElf()) == 1 && HeadersMappedBy(SmallElf(), 0) && Enterable(SmallElf(), 0)
  {
    hide *;
    var f := SmallElf();
    SmallElfIsWritten();
    ElfReadBack(f, SmallHeader(), [SMALL_PHDR]);
    SmallHeaderIs();
    SmallSegmentOk(f, HeadersFrom(f, 0));
    SmallElfAccepted(f);
  }

  lemma SmallHeaderIs()
    ensures SmallHeader().entry == 4 && SmallHeader().phoff == 64 && InitialBase(0) < WORD
    ensures Taken(SMALL_PHDR) == Phdr(1, 6, 0, 0, 120, 2000, PAGE_SIZE)
  {
  }

  lemma SmallSegmentOk(f: seq<Byte>, phs: seq<Phdr>)
    requires |f| == 120 && |phs| == 1 && phs[0] == Phdr(1, 6, 0, 0, 120, 2000, PAGE_SIZE)
    ensures InitialBase(0) < WORD && LoadsOk(f, phs, InitialBase(0))
    ensures HasLoad(phs) && FirstLoadKeepsBase(phs, InitialBase(0))
  {
    assert phs[0].ptype == PT_LOAD;
    assert SegmentOk(f, phs[0]) && BaseOk(InitialBase(0), phs[0]) && !HasBssPages(InitialBase(0), phs[0]);
  }

  lemma SmallElfAccepted(f: seq<Byte>)
    requires InitialBase(0) < WORD && ElfHeaderOk(f) && TableComplete(f) && PhnumField(f) == 1
    requires EntryField(f) == 4 && PhoffField(f) == 64 && HeadersFrom(f, 0)[0] == Phdr(1, 6, 0, 0, 120, 2000, PAGE_SIZE)
    requires LoadsOk(f, HeadersFrom(f, 0), InitialBase(0))
    requires HasLoad(HeadersFrom(f, 0)) && FirstLoadKeepsBase(HeadersFrom(f, 0), InitialBase(0))
    ensures LoadableElf(f, 0) && HeadersMappedBy(f, 0) && Enterable(f, 0)
  {
    hide LoadsOk, HasLoad, FirstLoadKeepsBase, HeadersFrom, EntryField, PhoffField, PhnumField, ElfHeaderOk,
         TableComplete;
  }
}
