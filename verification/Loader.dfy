/** The ELF loader of custom-loader.c: program headers, segment mapping with page rounding, and bss clearing. */
module Loader {
  import opened Bytes
  import opened Memory
  import opened MmapWrapper
  import opened Pages

  const PT_LOAD: nat := 1
  const EHDR_SIZE: nat := 64
  const PHDR_SIZE: nat := 56
  const GIB4: nat := 0x1_0000_0000
  /** The loader's place in a rank's 4GB. */
  const LD_SO_OFFSET: nat := 3 * GIB4 / 4

  /** The fields of a 64-bit program header. */
  datatype Phdr = Phdr(ptype: nat, flags: nat, offset: Word, vaddr: Word, filesz: Word, memsz: Word, align: Word)

  function Field(f: seq<Byte>, at: nat, n: nat): nat
    requires at + n <= |f|
  {
    LeValue(f[at..at + n])
  }

  function WordField(f: seq<Byte>, at: nat): Word
    requires at + 8 <= |f|
  {
    WordIsEightBytes();
    LeValue(f[at..at + 8])
  }

  function PhdrAt(f: seq<Byte>, at: nat): Phdr
    requires at + PHDR_SIZE <= |f|
  {
    Phdr(Field(f, at, 4), Field(f, at + 4, 4), WordField(f, at + 8), WordField(f, at + 16),
         WordField(f, at + 32), WordField(f, at + 40), WordField(f, at + 48))
  }

  /** PF_R, PF_W and PF_X become PROT_READ, PROT_WRITE and PROT_EXEC. */
  function SegmentProt(flags: nat): (p: nat)
    ensures p < 8
  {
    (if flags / 4 % 2 == 1 then PROT_READ else 0) + (if flags / 2 % 2 == 1 then PROT_WRITE else 0)
    + (if flags % 2 == 1 then PROT_EXEC else 0)
  }

  /** `int vaddr = phdr.p_vaddr`: the low 32 bits as a signed number. */
  function IntOf(w: Word): (i: int)
    ensures -0x8000_0000 <= i < 0x8000_0000 && (w - i) % 0x1_0000_0000 == 0
  {
    var low := w % GIB4;
    if low < GIB4 / 2 then low else low - GIB4
  }

  // ---------------------------------------------------------------- one segment

  datatype LoadOutcome =
    | Placed              // the segment is in place
    | MapFailed           // a mapping failed: NULL is returned and the loop goes on
    | AssertFailed        // an assertion stops the process
    | Fault               // clearing the bss hits memory that cannot be written

  /** The machine and the loader's two static variables. */
  datatype LoadState = LoadState(m: Machine, base: Word, firstTime: bool)

  datatype SegmentResult = SegmentResult(state: LoadState, outcome: LoadOutcome)

  function InitialBase(rank: nat): nat {
    GIB4 + GIB4 * rank + LD_SO_OFFSET
  }

  predicate HeaderOk(ph: Phdr) {
    ph.memsz >= ph.filesz && (ph.align > 1 ==> ph.vaddr % ph.align == ph.offset % ph.align)
  }

  /** memset(lo, 0, hi - lo) in memory that is all mapped writable. */
  predicate CanWrite(s: Space, lo: nat, hi: nat) {
    forall a: nat :: lo <= a < hi ==> a in s && Writable(s[a].prot)
  }

  /** The static base address while this segment is mapped: chosen by rank on the first call. */
  function CurrentBase(st: LoadState, rank: nat): Word
    requires InitialBase(rank) < WORD
  {
    if st.firstTime then InitialBase(rank) else st.base
  }

  /** ROUND_DOWN(base_address + vaddr), in 64-bit arithmetic. */
  function SegmentAddr(base: Word, ph: Phdr): nat {
    RoundDown((base + IntOf(ph.vaddr)) % WORD)
  }

  function SegmentSize(ph: Phdr): nat {
    RoundUp((ph.filesz + PageOffset(ph.vaddr)) % WORD) % WORD
  }

  /** mmapWrapper of the file part; a negative offset is refused by the kernel. */
  function MapFilePart(m: Machine, base: Word, f: seq<Byte>, ph: Phdr): (Machine, bool) {
    if ph.offset < PageOffset(ph.vaddr) then (m, false)
    else MapTracked(m, SegmentAddr(base, ph), SegmentSize(ph), SegmentProt(ph.flags),
                    FileAt(f, ph.offset - PageOffset(ph.vaddr)))
  }

  /** Where the bss begins and ends, in 64-bit arithmetic; and ROUND_UP in it. */
  function StartBss(base: Word, ph: Phdr): Word {
    (base + ph.vaddr + ph.filesz) % WORD
  }

  function EndBss(base: Word, ph: Phdr): Word {
    (base + ph.vaddr + ph.memsz) % WORD
  }

  function PageUp(x: Word): Word {
    RoundUp(x) % WORD
  }

  /**
   The rest of the last file page is cleared when there is bss. The count is ROUND_UP(start) - start even where
   the rounding wraps around.
   */
  function Cleared(s: Space, base: Word, ph: Phdr): Space {
    var start := StartBss(base, ph);
    if ph.memsz > ph.filesz then Store(s, start, Zeros(RoundUp(start) - start)) else s
  }

  /** map_elf_interpreter_load_segment. */
  ghost function LoadSegment(st: LoadState, f: seq<Byte>, ph: Phdr, rank: nat): SegmentResult
    requires InitialBase(rank) < WORD
  {
    if !HeaderOk(ph) then SegmentResult(st, AssertFailed)
    else
      var base := CurrentBase(st, rank);
      var (m1, ok) := MapFilePart(st.m, base, f, ph);
      if !ok then SegmentResult(LoadState(m1, base, st.firstTime), MapFailed)
      else
        var start := StartBss(base, ph);
        if ph.memsz > ph.filesz && !CanWrite(m1.space, start, RoundUp(start)) then
          SegmentResult(LoadState(m1, base, st.firstTime), Fault)
        else MapBss(LoadState(m1.(space := Cleared(m1.space, base, ph)), base, st.firstTime), ph)
  }

  /** The end of map_elf_interpreter_load_segment: the pages past the file's last one, and the base address. */
  function MapBss(st: LoadState, ph: Phdr): SegmentResult {
    var lo, hi := PageUp(StartBss(st.base, ph)), PageUp(EndBss(st.base, ph));
    if hi <= lo then SegmentResult(LoadState(st.m, if st.firstTime then SegmentAddr(st.base, ph) else st.base, false),
                                   Placed)
    else
      var (m, ok) := MapTracked(st.m, lo, hi - lo, SegmentProt(ph.flags), Anonymous);
      if !ok then SegmentResult(st.(m := m), MapFailed)
      else SegmentResult(LoadState(m, if st.firstTime then lo else st.base, false), Placed)
  }

  /** The bounds of the bss are exact modulo 2^64, for every base and header. */
  lemma BssArithmetic(base: Word, ph: Phdr)
    ensures (base + ph.vaddr + ph.filesz - StartBss(base, ph)) % 0x1_0000_0000_0000_0000 == 0
    ensures (base + ph.vaddr + ph.memsz - EndBss(base, ph)) % 0x1_0000_0000_0000_0000 == 0
  {
    RemainderGone(base + ph.vaddr + ph.filesz);
    RemainderGone(base + ph.vaddr + ph.memsz);
  }

  lemma RemainderGone(n: nat)
    ensures (n - n % WORD) % 0x1_0000_0000_0000_0000 == 0
  {
  }

  /** The mapping begins with the page of the address, and has as many as the file's bytes need. */
  lemma MappingArithmetic(base: Word, ph: Phdr)
    ensures SegmentAddr(base, ph) % 0x1000 == 0 && SegmentSize(ph) % 0x1000 == 0
    ensures var word := (base + IntOf(ph.vaddr)) % 0x1_0000_0000_0000_0000;
            SegmentAddr(base, ph) <= word < SegmentAddr(base, ph) + 0x1000
    ensures var n := ph.filesz + ph.vaddr % 0x1000;
            n <= 0xFFFF_FFFF_FFFF_F000 ==> n <= SegmentSize(ph) < n + 0x1000
  {
    var n := ph.filesz + PageOffset(ph.vaddr);
    RoundingIsTight((base + IntOf(ph.vaddr)) % WORD, 0);
    hide IntOf;
    WordRoundUp(n % WORD);
    if n <= 0xFFFF_FFFF_FFFF_F000 {
      assert n % WORD == n;
    }
    hide RoundUp, RoundDown;
  }

  lemma WordRoundUp(x: Word)
    ensures RoundUp(x) % WORD % 0x1000 == 0
    ensures x <= 0xFFFF_FFFF_FFFF_F000 ==> x <= RoundUp(x) % WORD < x + 0x1000
  {
    RoundingIsTight(x, 0xFFFF_FFFF_FFFF_F000);
    RoundingIsTight(x, WORD);
    if RoundUp(x) < WORD {
      assert RoundUp(x) % WORD == RoundUp(x);
    } else {
      assert RoundUp(x) == WORD;
    }
    hide RoundUp;
  }

  /**
   What stops the process at a segment: an assertion, exactly if p_memsz is below p_filesz, or p_align exceeds 1 and
   p_vaddr and p_offset differ modulo p_align; a fault, exactly if the segment has bss and the rest of its last file
   page is not all writable once the file is mapped.
   */
  lemma SegmentStopsIff(st: LoadState, f: seq<Byte>, ph: Phdr, rank: nat)
    requires InitialBase(rank) < WORD
    ensures var r := LoadSegment(st, f, ph, rank);
            var badHeader := ph.memsz < ph.filesz || (ph.align > 1 && ph.vaddr % ph.align != ph.offset % ph.align);
            var (m1, ok) := MapFilePart(st.m, CurrentBase(st, rank), f, ph);
            var start: nat := (CurrentBase(st, rank) + ph.vaddr + ph.filesz) % WORD;
            && (r.outcome == AssertFailed <==> badHeader)
            && (badHeader ==> r.state == st)
            && (r.outcome == Fault <==>
                  && !badHeader && ok && ph.memsz > ph.filesz
                  && exists a: nat :: start <= a < RoundUp(start) && !(a in m1.space && Writable(m1.space[a].prot)))
  {
    hide MapFilePart, RoundUp, Cleared, Writable, MapTracked;
  }

  // ---------------------------------------------------------------- what one segment becomes

  /** A loadable segment as chapter 5 of the System V gABI has it, small enough for the int in the loader. */
  predicate SegmentOk(f: seq<Byte>, ph: Phdr) {
    && ph.filesz <= ph.memsz
    && ph.align > 0 && ph.align % PAGE_SIZE == 0 && ph.vaddr % ph.align == ph.offset % ph.align
    && 0 < ph.filesz && ph.offset + ph.filesz <= |f|
    && ph.vaddr + ph.memsz < GIB4 / 2
    && (ph.memsz > ph.filesz ==> Writable(SegmentProt(ph.flags)))
  }

  /** The segment's pages. */
  function PagesFrom(base: nat, ph: Phdr): nat {
    RoundDown(base + ph.vaddr)
  }

  function PagesTo(base: nat, ph: Phdr): nat {
    RoundUp(base + ph.vaddr + ph.memsz)
  }

  /** A base address with room for the segment. */
  predicate BaseOk(base: Word, ph: Phdr) {
    Aligned(base) && MMAP_MIN_ADDR <= base && PagesTo(base, ph) <= TASK_SIZE
  }

  /** What the segment's image has at address x: a byte of the file, or zero in the bss. */
  function ImageByte(f: seq<Byte>, base: nat, ph: Phdr, x: nat): Byte
    requires Covers(base + ph.vaddr, ph.memsz, x) && ph.offset + ph.filesz <= |f|
  {
    var k := x - (base + ph.vaddr);
    if k < ph.filesz then f[ph.offset + k] else 0
  }

  /** Memory holds the whole segment: p_filesz bytes of the file, then zeros up to p_memsz. */
  ghost predicate SegmentLoaded(s: Space, f: seq<Byte>, base: nat, ph: Phdr)
    requires ph.offset + ph.filesz <= |f|
  {
    forall x: nat :: Covers(base + ph.vaddr, ph.memsz, x) ==>
      x in s && s[x] == Cell(ImageByte(f, base, ph, x), SegmentProt(ph.flags))
  }

  lemma PageMultiple(n: int, r: nat)
    requires n * PAGE_SIZE + r >= 0
    ensures (n * PAGE_SIZE + r) % PAGE_SIZE == r % PAGE_SIZE
  {
  }

  lemma MultiplyTwice(q: int, k: int, n: int)
    ensures q * (k * n) == (q * k) * n
  {
  }

  lemma DivideAndBack(a: nat, d: nat)
    requires d > 0
    ensures a == (a / d) * d + a % d
  {
  }

  lemma ModThroughMultiple(a: nat, align: nat)
    requires align > 0 && align % PAGE_SIZE == 0
    ensures a % align % PAGE_SIZE == a % PAGE_SIZE
  {
    var q, k, r := a / align, align / PAGE_SIZE, a % align;
    DivideAndBack(a, align);
    DivideAndBack(align, PAGE_SIZE);
    MultiplyTwice(q, k, PAGE_SIZE);
    PageMultiple(q * k, r);
    assert a == (q * k) * PAGE_SIZE + r by {
      assert q * align == q * (k * PAGE_SIZE);
    }
  }

  /** p_vaddr and p_offset lie equally far into their pages. */
  lemma OffsetsAgree(f: seq<Byte>, ph: Phdr)
    requires SegmentOk(f, ph)
    ensures PageOffset(ph.offset) == PageOffset(ph.vaddr)
  {
    ModThroughMultiple(ph.vaddr, ph.align);
    ModThroughMultiple(ph.offset, ph.align);
    assert ph.align > 1 by {
      assert 1 % PAGE_SIZE != 0;
    }
  }

  /** Page arithmetic on a segment of n file bytes at v, loaded at an aligned base. */
  lemma SegmentPages(base: nat, v: nat, n: nat, offset: nat)
    requires Aligned(base) && n > 0 && PageOffset(offset) == PageOffset(v)
    ensures var po, lo := PageOffset(v), RoundDown(base + v);
            && lo == base + v - po && Aligned(lo)
            && RoundUp(n + po) > 0 && RoundUp(RoundUp(n + po)) == RoundUp(n + po)
            && lo + RoundUp(n + po) == RoundUp(base + v + n) >= base + v + n
            && po <= offset && Aligned(offset - po)
  {
    var po := PageOffset(v);
    assert (base + v) % PAGE_SIZE == po;
    RoundUpShift(base + v - po, n + po);
    RoundingIsTight(base + v + n, 0);
  }

  lemma AddrFits(base: Word, ph: Phdr)
    requires base + ph.vaddr < WORD && ph.vaddr < GIB4 / 2
    ensures SegmentAddr(base, ph) == PagesFrom(base, ph)
  {
    assert ph.vaddr % GIB4 == ph.vaddr;
  }

  lemma SizeFits(ph: Phdr)
    requires ph.filesz < GIB4
    ensures SegmentSize(ph) == RoundUp(ph.filesz + PageOffset(ph.vaddr))
  {
    var n := ph.filesz + PageOffset(ph.vaddr);
    RoundingIsTight(n, 0);
    assert n % WORD == n && RoundUp(n) % WORD == RoundUp(n);
  }

  /** The file part ends no later than the segment, and all of it is in user space. */
  lemma SegmentInUserSpace(base: Word, ph: Phdr)
    requires BaseOk(base, ph) && ph.filesz <= ph.memsz
    ensures var start := base + ph.vaddr + ph.filesz;
            start <= RoundUp(start) <= PagesTo(base, ph) <= TASK_SIZE && MMAP_MIN_ADDR <= PagesFrom(base, ph)
    ensures MMAP_MIN_ADDR <= base && base + ph.vaddr + ph.memsz <= PagesTo(base, ph)
  {
    var start, end := base + ph.vaddr + ph.filesz, base + ph.vaddr + ph.memsz;
    RoundingIsTight(end, 0);
    RoundingIsTight(start, PagesTo(base, ph));
    RoundingIsTight(base + ph.vaddr, base);
  }

  lemma MappableSize(lo: nat, n: nat, hi: nat)
    requires Aligned(lo) && MMAP_MIN_ADDR <= lo && 0 < n == RoundUp(n) && lo + n == hi <= TASK_SIZE
    ensures MmapArgsOk(lo, n)
  {
  }

  /** The loader's arithmetic on an acceptable segment. */
  lemma SegmentGeometry(f: seq<Byte>, base: Word, ph: Phdr)
    requires SegmentOk(f, ph) && BaseOk(base, ph)
    ensures var po, start := PageOffset(ph.vaddr), base + ph.vaddr + ph.filesz;
            && SegmentAddr(base, ph) == PagesFrom(base, ph) == base + ph.vaddr - po
            && SegmentSize(ph) == RoundUp(ph.filesz + po) && RoundUp(SegmentSize(ph)) == SegmentSize(ph)
            && PagesFrom(base, ph) + SegmentSize(ph) == RoundUp(start)
            && start <= RoundUp(start) <= PagesTo(base, ph)
            && po <= ph.offset && Aligned(ph.offset - po)
            && MmapArgsOk(PagesFrom(base, ph), SegmentSize(ph))
  {
    hide RoundUp, RoundDown, PageOffset, Aligned, SegmentAddr, SegmentSize, PagesTo, MmapArgsOk, HeaderOk;
    assert ph.filesz <= ph.memsz by {
      SegmentSizes(f, ph);
    }
    SegmentInUserSpace(base, ph);
    AddrFits(base, ph);
    SizeFits(ph);
    OffsetsAgree(f, ph);
    SegmentPages(base, ph.vaddr, ph.filesz, ph.offset);
    MappableSize(PagesFrom(base, ph), SegmentSize(ph), RoundUp(base + ph.vaddr + ph.filesz));
  }

  lemma SegmentSizes(f: seq<Byte>, ph: Phdr)
    requires SegmentOk(f, ph)
    ensures ph.filesz <= ph.memsz && ph.filesz < GIB4 && HeaderOk(ph)
  {
  }

  function FileBacking(f: seq<Byte>, ph: Phdr): Backing
    requires PageOffset(ph.vaddr) <= ph.offset
  {
    FileAt(f, ph.offset - PageOffset(ph.vaddr))
  }

  lemma FilePartIsPlace(m: Machine, base: Word, f: seq<Byte>, ph: Phdr)
    requires SegmentOk(f, ph) && BaseOk(base, ph) && !Refused(m.refusals)
    ensures PageOffset(ph.vaddr) <= ph.offset
    ensures MapFilePart(m, base, f, ph) ==
            (Machine(Place(m.space, PagesFrom(base, ph), BackingBytes(FileBacking(f, ph), SegmentSize(ph)),
                           SegmentProt(ph.flags)),
                     NextRefusals(m.refusals), m.log + [Region(PagesFrom(base, ph), SegmentSize(ph))]), true)
  {
    hide RoundUp, RoundDown, PagesTo, PagesFrom, SegmentOk, BaseOk, SegmentAddr, SegmentSize, MmapArgsOk, PageOffset,
         Aligned, Place, MapTracked, SegmentProt;
    SegmentGeometry(f, base, ph);
    MapTrackedPages(m, PagesFrom(base, ph), SegmentSize(ph), SegmentProt(ph.flags), FileBacking(f, ph));
  }

  /** n bytes of a file placed at lo, seen at address x. */
  lemma FilePlaced(s: Space, lo: nat, n: nat, f: seq<Byte>, offset: nat, prot: nat, x: nat)
    ensures var t := Place(s, lo, BackingBytes(FileAt(f, offset), n), prot);
            && (lo <= x < lo + n ==>
                  x in t && t[x] == Cell(if offset + (x - lo) < |f| then f[offset + (x - lo)] else 0, prot))
            && (!(lo <= x < lo + n) ==> (x in t <==> x in s) && (x in s ==> t[x] == s[x]))
  {
  }

  /** The file part: the whole pages around it, with the file's bytes at the segment's addresses. */
  lemma FilePartMapped(m: Machine, base: Word, f: seq<Byte>, ph: Phdr, x: nat)
    requires SegmentOk(f, ph) && BaseOk(base, ph) && !Refused(m.refusals)
    ensures var s1, start := MapFilePart(m, base, f, ph).0.space, base + ph.vaddr + ph.filesz;
            && (PagesFrom(base, ph) <= x < RoundUp(start) ==> x in s1 && s1[x].prot == SegmentProt(ph.flags))
            && (base + ph.vaddr <= x < start ==> x in s1 && s1[x].value == f[ph.offset + (x - (base + ph.vaddr))])
            && (!(PagesFrom(base, ph) <= x < RoundUp(start)) ==>
                (x in s1 <==> x in m.space) && (x in m.space ==> s1[x] == m.space[x]))
  {
    hide *;
    SegmentGeometry(f, base, ph);
    SegmentInFile(f, ph);
    FilePartIsPlace(m, base, f, ph);
    FileBackingIs(f, ph);
    FilePlaced(m.space, PagesFrom(base, ph), SegmentSize(ph), f, ph.offset - PageOffset(ph.vaddr),
               SegmentProt(ph.flags), x);
  }

  lemma FileBackingIs(f: seq<Byte>, ph: Phdr)
    requires PageOffset(ph.vaddr) <= ph.offset
    ensures FileBacking(f, ph) == FileAt(f, ph.offset - PageOffset(ph.vaddr))
  {
  }

  /** Clearing the bss on the last file page reaches only writable memory, and only from the file's end on. */
  lemma BssOnLastPage(m: Machine, base: Word, f: seq<Byte>, ph: Phdr)
    requires SegmentOk(f, ph) && BaseOk(base, ph) && !Refused(m.refusals)
    ensures var start := base + ph.vaddr + ph.filesz;
            ph.memsz > ph.filesz ==> CanWrite(MapFilePart(m, base, f, ph).0.space, start, RoundUp(start))
  {
    var start := base + ph.vaddr + ph.filesz;
    if ph.memsz > ph.filesz {
      forall a | start <= a < RoundUp(start)
        ensures a in MapFilePart(m, base, f, ph).0.space && Writable(MapFilePart(m, base, f, ph).0.space[a].prot)
      {
        FilePartMapped(m, base, f, ph, a);
        SegmentGeometry(f, base, ph);
      }
    }
  }

  /** Address x after the last file page was cleared. */
  lemma ClearedAt(s: Space, base: Word, ph: Phdr, x: nat)
    ensures var t, start := Cleared(s, base, ph), StartBss(base, ph);
            && (x in t <==> x in s) && (x in s ==> t[x].prot == s[x].prot)
            && (x in s && start <= x < RoundUp(start) && ph.memsz > ph.filesz ==> t[x].value == 0)
            && (x in s && !(start <= x < RoundUp(start)) ==> t[x] == s[x])
  {
    hide RoundUp, StartBss;
    RoundingIsTight(StartBss(base, ph), 0);
  }

  /** For an acceptable segment no address wraps around. */
  lemma BssFits(base: Word, ph: Phdr)
    requires BaseOk(base, ph) && ph.filesz <= ph.memsz
    ensures StartBss(base, ph) == base + ph.vaddr + ph.filesz && EndBss(base, ph) == base + ph.vaddr + ph.memsz
    ensures PageUp(StartBss(base, ph)) == RoundUp(base + ph.vaddr + ph.filesz)
    ensures PageUp(EndBss(base, ph)) == PagesTo(base, ph)
  {
    SegmentInUserSpace(base, ph);
    hide RoundUp;
  }

  /** The pages of bss beyond the last file page. */
  predicate HasBssPages(base: nat, ph: Phdr) {
    RoundUp(base + ph.vaddr + ph.memsz) > RoundUp(base + ph.vaddr + ph.filesz)
  }

  /** The space after the whole segment: file part, cleared tail, and zero pages when there are any. */
  function SegmentSpace(m: Machine, base: Word, f: seq<Byte>, ph: Phdr): Space {
    var s2 := Cleared(MapFilePart(m, base, f, ph).0.space, base, ph);
    var lo, hi := RoundUp(base + ph.vaddr + ph.filesz), PagesTo(base, ph);
    if hi > lo then Place(s2, lo, Zeros(hi - lo), SegmentProt(ph.flags)) else s2
  }

  /** Every address, after the segment: the file's byte, a bss zero, or what was there before. */
  lemma SegmentSpaceAt(m: Machine, base: Word, f: seq<Byte>, ph: Phdr, x: nat)
    requires SegmentOk(f, ph) && BaseOk(base, ph) && !Refused(m.refusals)
    ensures var t := SegmentSpace(m, base, f, ph);
            && (Covers(base + ph.vaddr, ph.memsz, x) ==>
                x in t && t[x] == Cell(ImageByte(f, base, ph, x), SegmentProt(ph.flags)))
            && (!(PagesFrom(base, ph) <= x < PagesTo(base, ph)) ==>
                (x in t <==> x in m.space) && (x in m.space ==> t[x] == m.space[x]))
  {
    hide *;
    var s1 := MapFilePart(m, base, f, ph).0.space;
    var lo, hi := RoundUp(base + ph.vaddr + ph.filesz), PagesTo(base, ph);
    SegmentSizes(f, ph);
    SegmentInFile(f, ph);
    FilePartMapped(m, base, f, ph, x);
    ClearedAt(s1, base, ph, x);
    SegmentGeometry(f, base, ph);
    SegmentInUserSpace(base, ph);
    RoundedDownBelow(base, ph);
    BssFits(base, ph);
    SegmentSpaceIs(m, base, f, ph);
    if hi > lo {
      ZerosPlaced(Cleared(s1, base, ph), lo, hi - lo, SegmentProt(ph.flags), x);
    }
    if Covers(base + ph.vaddr, ph.memsz, x) {
      ImageByteIs(f, base, ph, x);
    }
    CoversIs(base + ph.vaddr, ph.memsz, x);
  }

  lemma SegmentSpaceIs(m: Machine, base: Word, f: seq<Byte>, ph: Phdr)
    ensures var s2 := Cleared(MapFilePart(m, base, f, ph).0.space, base, ph);
            var lo, hi := RoundUp(base + ph.vaddr + ph.filesz), PagesTo(base, ph);
            SegmentSpace(m, base, f, ph) == if hi > lo then Place(s2, lo, Zeros(hi - lo), SegmentProt(ph.flags)) else s2
  {
    hide Cleared, MapFilePart, RoundUp, PagesTo, Place, Zeros, SegmentProt;
  }

  lemma ZerosPlaced(s: Space, lo: nat, n: nat, prot: nat, x: nat)
    ensures var t := Place(s, lo, Zeros(n), prot);
            && (lo <= x < lo + n ==> x in t && t[x] == Cell(0, prot))
            && (!(lo <= x < lo + n) ==> (x in t <==> x in s) && (x in s ==> t[x] == s[x]))
  {
  }

  lemma ImageByteIs(f: seq<Byte>, base: nat, ph: Phdr, x: nat)
    requires Covers(base + ph.vaddr, ph.memsz, x) && ph.offset + ph.filesz <= |f|
    ensures var k := x - (base + ph.vaddr);
            0 <= k < ph.memsz && ImageByte(f, base, ph, x) == if k < ph.filesz then f[ph.offset + k] else 0
  {
  }

  lemma CoversIs(at: nat, n: nat, x: nat)
    ensures Covers(at, n, x) <==> at <= x < at + n
  {
  }

  /** How many mappings a segment asks for. */
  function SegmentAsks(base: nat, ph: Phdr): nat {
    if HasBssPages(base, ph) then 2 else 1
  }

  /** The regions that they are tracked as. */
  function SegmentRegions(base: nat, ph: Phdr): seq<Region> {
    var lo := RoundUp(base + ph.vaddr + ph.filesz);
    [Region(PagesFrom(base, ph), SegmentSize(ph))]
    + if HasBssPages(base, ph) then [Region(lo, PagesTo(base, ph) - lo)] else []
  }

  /** The static base address after a segment was placed. */
  function BaseAfter(st: LoadState, base: Word, ph: Phdr): nat {
    if !st.firstTime then base
    else if HasBssPages(base, ph) then RoundUp(base + ph.vaddr + ph.filesz)
    else PagesFrom(base, ph)
  }

  /** Loading one acceptable segment succeeds, puts its image in place, and leaves the rest of memory alone. */
  lemma SegmentIsLoaded(st: LoadState, f: seq<Byte>, ph: Phdr, rank: nat)
    requires InitialBase(rank) < WORD && SegmentOk(f, ph) && BaseOk(CurrentBase(st, rank), ph)
    requires Granted(st.m.refusals, SegmentAsks(CurrentBase(st, rank), ph))
    ensures var r, base := LoadSegment(st, f, ph, rank), CurrentBase(st, rank);
            && r.outcome == Placed && !r.state.firstTime && r.state.base == BaseAfter(st, base, ph)
            && r.state.m.refusals == Later(st.m.refusals, SegmentAsks(base, ph))
            && r.state.m.log == st.m.log + SegmentRegions(base, ph)
            && SegmentLoaded(r.state.m.space, f, base, ph)
            && SameOutside(st.m.space, r.state.m.space, PagesFrom(base, ph), PagesTo(base, ph))
  {
    var base := CurrentBase(st, rank);
    assert !Refused(st.m.refusals);
    LoadSegmentSpace(st, f, ph, rank);
    forall x: nat
      ensures Covers(base + ph.vaddr, ph.memsz, x) ==>
                var t := SegmentSpace(st.m, base, f, ph);
                x in t && t[x] == Cell(ImageByte(f, base, ph, x), SegmentProt(ph.flags))
      ensures !(PagesFrom(base, ph) <= x < PagesTo(base, ph)) ==>
                var t := SegmentSpace(st.m, base, f, ph);
                (x in t <==> x in st.m.space) && (x in st.m.space ==> t[x] == st.m.space[x])
    {
      SegmentSpaceAt(st.m, base, f, ph, x);
    }
    hide LoadSegment, SegmentSpace, PagesFrom, PagesTo, SegmentProt, SegmentRegions, BaseAfter, SegmentAsks, Granted,
         Later;
  }

  lemma LoadSegmentSpace(st: LoadState, f: seq<Byte>, ph: Phdr, rank: nat)
    requires InitialBase(rank) < WORD && SegmentOk(f, ph) && BaseOk(CurrentBase(st, rank), ph)
    requires Granted(st.m.refusals, SegmentAsks(CurrentBase(st, rank), ph))
    ensures var r, base := LoadSegment(st, f, ph, rank), CurrentBase(st, rank);
            && r.outcome == Placed && !r.state.firstTime && r.state.base == BaseAfter(st, base, ph)
            && r.state.m.refusals == Later(st.m.refusals, SegmentAsks(base, ph))
            && r.state.m.log == st.m.log + SegmentRegions(base, ph)
            && r.state.m.space == SegmentSpace(st.m, base, f, ph)
  {
    hide *;
    var base := CurrentBase(st, rank);
    AsksInTurn(st.m.refusals, base, ph);
    var m1 := MapFilePart(st.m, base, f, ph).0;
    SegmentSizes(f, ph);
    BssFits(base, ph);
    FilePartIsPlace(st.m, base, f, ph);
    BssOnLastPage(st.m, base, f, ph);
    SegmentGeometry(f, base, ph);
    var m2 := m1.(space := Cleared(m1.space, base, ph));
    BssPagesMap(m2, base, ph);
    LoadSegmentCases(st, f, ph, rank);
  }

  /** The file part is asked for first, and then the bss pages if there are any. */
  lemma AsksInTurn(refusals: seq<bool>, base: nat, ph: Phdr)
    ensures HasBssPages(base, ph) <==> PagesTo(base, ph) > RoundUp(base + ph.vaddr + ph.filesz)
    ensures Granted(refusals, SegmentAsks(base, ph)) <==>
            !Refused(refusals) && (HasBssPages(base, ph) ==> !Refused(NextRefusals(refusals)))
    ensures Later(refusals, SegmentAsks(base, ph)) ==
            if HasBssPages(base, ph) then NextRefusals(NextRefusals(refusals)) else NextRefusals(refusals)
  {
    GrantedInTurn(refusals, 1, 1);
    GrantedInTurn(NextRefusals(refusals), 1, 0);
    hide RoundUp, Granted, Later, Refused, NextRefusals;
  }

  /** The path of a segment whose file part maps and whose bss can be cleared. */
  lemma LoadSegmentCases(st: LoadState, f: seq<Byte>, ph: Phdr, rank: nat)
    requires InitialBase(rank) < WORD && HeaderOk(ph)
    requires var base := CurrentBase(st, rank);
             var (m1, ok) := MapFilePart(st.m, base, f, ph);
             var lo, hi := RoundUp(base + ph.vaddr + ph.filesz), PagesTo(base, ph);
             && ok && SegmentAddr(base, ph) == PagesFrom(base, ph)
             && StartBss(base, ph) == base + ph.vaddr + ph.filesz && PageUp(StartBss(base, ph)) == lo
             && PageUp(EndBss(base, ph)) == hi
             && m1.refusals == NextRefusals(st.m.refusals)
             && m1.log == st.m.log + [Region(PagesFrom(base, ph), SegmentSize(ph))]
             && Later(st.m.refusals, SegmentAsks(base, ph)) ==
                (if HasBssPages(base, ph) then NextRefusals(NextRefusals(st.m.refusals))
                 else NextRefusals(st.m.refusals))
             && (ph.memsz > ph.filesz ==> CanWrite(m1.space, StartBss(base, ph), lo))
             && var m2 := m1.(space := Cleared(m1.space, base, ph));
             hi > lo ==>
               MapTracked(m2, lo, hi - lo, SegmentProt(ph.flags), Anonymous) ==
               (Machine(Place(m2.space, lo, Zeros(hi - lo), SegmentProt(ph.flags)), NextRefusals(m2.refusals),
                        m2.log + [Region(lo, hi - lo)]), true)
    ensures var r, base := LoadSegment(st, f, ph, rank), CurrentBase(st, rank);
            && r.outcome == Placed && !r.state.firstTime && r.state.base == BaseAfter(st, base, ph)
            && r.state.m.refusals == Later(st.m.refusals, SegmentAsks(base, ph))
            && r.state.m.log == st.m.log + SegmentRegions(base, ph)
            && r.state.m.space == SegmentSpace(st.m, base, f, ph)
  {
    hide RoundUp, RoundDown, CanWrite, MapTracked, Place, Cleared, SegmentProt, MapFilePart, HeaderOk, SegmentAddr,
         PagesFrom, Zeros, StartBss, EndBss, PageUp, SegmentSize, NextRefusals, Later;
    var base := CurrentBase(st, rank);
    assert PagesTo(base, ph) == RoundUp(base + ph.vaddr + ph.memsz);
  }

  lemma BssPagesMap(m: Machine, base: Word, ph: Phdr)
    requires BaseOk(base, ph) && ph.filesz <= ph.memsz
    ensures var lo, hi := RoundUp(base + ph.vaddr + ph.filesz), PagesTo(base, ph);
            hi > lo && !Refused(m.refusals) ==>
              MapTracked(m, lo, hi - lo, SegmentProt(ph.flags), Anonymous) ==
              (Machine(Place(m.space, lo, Zeros(hi - lo), SegmentProt(ph.flags)), NextRefusals(m.refusals),
                       m.log + [Region(lo, hi - lo)]), true)
  {
    hide *;
    var start, hi := base + ph.vaddr + ph.filesz, PagesTo(base, ph);
    var lo := RoundUp(start);
    SegmentInUserSpace(base, ph);
    if hi > lo && !Refused(m.refusals) {
      BssPagesAligned(base, ph);
      WholePagesBetween(lo, hi);
      MappableSize(lo, hi - lo, hi);
      AnonymousPages(m, lo, hi - lo, SegmentProt(ph.flags));
    }
  }

  lemma AnonymousPages(m: Machine, lo: nat, n: nat, prot: nat)
    requires !Refused(m.refusals) && MmapArgsOk(lo, n) && RoundUp(n) == n && prot < 8
    ensures MapTracked(m, lo, n, prot, Anonymous) ==
            (Machine(Place(m.space, lo, Zeros(n), prot), NextRefusals(m.refusals), m.log + [Region(lo, n)]), true)
  {
    hide RoundUp, MmapArgsOk, Place, Zeros, MapTracked, Refused, NextRefusals;
    MapTrackedPages(m, lo, n, prot, Anonymous);
  }

  lemma BssPagesAligned(base: nat, ph: Phdr)
    requires MMAP_MIN_ADDR <= base
    ensures Aligned(RoundUp(base + ph.vaddr + ph.filesz)) && Aligned(PagesTo(base, ph))
    ensures MMAP_MIN_ADDR <= RoundUp(base + ph.vaddr + ph.filesz)
  {
    RoundingIsTight(base + ph.vaddr + ph.filesz, 0);
    RoundingIsTight(base + ph.vaddr + ph.memsz, 0);
  }

  lemma WholePagesBetween(lo: nat, hi: nat)
    requires Aligned(lo) && Aligned(hi) && lo <= hi
    ensures RoundUp(hi - lo) == hi - lo
  {
  }

  /**
   The static base survives the first segment exactly when that segment starts in page 0 and needs no
   separate bss pages; otherwise every later segment is placed relative to another address.
   */
  lemma FirstSegmentKeepsBaseIff(st: LoadState, f: seq<Byte>, ph: Phdr, rank: nat)
    requires InitialBase(rank) < WORD && st.firstTime && SegmentOk(f, ph) && BaseOk(InitialBase(rank), ph)
    requires Granted(st.m.refusals, SegmentAsks(InitialBase(rank), ph))
    ensures LoadSegment(st, f, ph, rank).state.base == InitialBase(rank) <==>
            ph.vaddr < PAGE_SIZE && !HasBssPages(InitialBase(rank), ph)
  {
    hide LoadSegment, SegmentLoaded, SameOutside, SegmentRegions, Granted, Later;
    var base := InitialBase(rank);
    SegmentIsLoaded(st, f, ph, rank);
    FirstPageIff(base, ph.vaddr);
    RoundingIsTight(base + ph.vaddr + ph.filesz, 0);
  }

  lemma FirstPageIff(base: nat, v: nat)
    requires Aligned(base)
    ensures RoundDown(base + v) == base <==> v < PAGE_SIZE
  {
  }

  // ---------------------------------------------------------------- the whole file

  /** Result of the program-header loop: the state, why it stopped early if it did, and the first load's address. */
  datatype ElfResult = ElfResult(state: LoadState, outcome: LoadOutcome, base: Word)

  /** The loop of load_elf_interpreter; only the first PT_LOAD's address (0 if its mapping failed) is kept. */
  ghost function LoadHeaders(st: LoadState, f: seq<Byte>, phs: seq<Phdr>, seen: bool, base: Word, rank: nat): ElfResult
    requires InitialBase(rank) < WORD
    decreases |phs|
  {
    if phs == [] then ElfResult(st, Placed, base)
    else if phs[0].ptype != PT_LOAD then LoadHeaders(st, f, phs[1..], seen, base, rank)
    else
      var r := LoadSegment(st, f, phs[0], rank);
      if r.outcome == AssertFailed || r.outcome == Fault then ElfResult(r.state, r.outcome, base)
      else
        var ret := if r.outcome == Placed then r.state.base else 0;
        LoadHeaders(r.state, f, phs[1..], true, if seen then base else ret, rank)
  }

  /** A failed mapping never ends the loop: it stops at an assertion or a fault, or goes through. */
  lemma {:induction false} HeadersEnd(st: LoadState, f: seq<Byte>, phs: seq<Phdr>, seen: bool, base: Word, rank: nat)
    requires InitialBase(rank) < WORD
    ensures LoadHeaders(st, f, phs, seen, base, rank).outcome != MapFailed
    decreases |phs|
  {
    hide LoadSegment;
    if phs != [] {
      var r := LoadSegment(st, f, phs[0], rank);
      if phs[0].ptype != PT_LOAD {
        HeadersEnd(st, f, phs[1..], seen, base, rank);
      } else if r.outcome != AssertFailed && r.outcome != Fault {
        HeadersEnd(r.state, f, phs[1..], true,
                   if seen then base else if r.outcome == Placed then r.state.base else 0, rank);
      }
    }
  }

  /** The loadable segments are acceptable, and no two share a page. */
  ghost predicate LoadsOk(f: seq<Byte>, phs: seq<Phdr>, base: Word) {
    && (forall i :: 0 <= i < |phs| && phs[i].ptype == PT_LOAD ==> SegmentOk(f, phs[i]) && BaseOk(base, phs[i]))
    && (forall i, j :: 0 <= i < j < |phs| && phs[i].ptype == PT_LOAD && phs[j].ptype == PT_LOAD ==>
        PagesApart(base, phs[i], phs[j]))
  }

  predicate PagesApart(base: nat, p: Phdr, q: Phdr) {
    PagesTo(base, p) <= PagesFrom(base, q) || PagesTo(base, q) <= PagesFrom(base, p)
  }

  predicate OnPagesOf(base: nat, ph: Phdr, x: nat) {
    PagesFrom(base, ph) <= x < PagesTo(base, ph)
  }

  ghost predicate OnLoadPages(base: nat, phs: seq<Phdr>, x: nat) {
    exists i :: 0 <= i < |phs| && phs[i].ptype == PT_LOAD && OnPagesOf(base, phs[i], x)
  }

  ghost predicate AllLoaded(s: Space, f: seq<Byte>, base: nat, phs: seq<Phdr>) {
    forall i :: 0 <= i < |phs| && phs[i].ptype == PT_LOAD ==>
      phs[i].offset + phs[i].filesz <= |f| && SegmentLoaded(s, f, base, phs[i])
  }

  ghost predicate OnlyLoadPagesChanged(t: Space, s: Space, base: nat, phs: seq<Phdr>) {
    forall x: nat :: !OnLoadPages(base, phs, x) ==> (x in t <==> x in s) && (x in s ==> t[x] == s[x])
  }

  /** Pages that a later segment does not use keep the earlier one's image. */
  lemma LoadedStays(u: Space, t: Space, f: seq<Byte>, base: Word, ph: Phdr, phs: seq<Phdr>)
    requires SegmentOk(f, ph) && BaseOk(base, ph) && SegmentLoaded(t, f, base, ph)
    requires OnlyLoadPagesChanged(u, t, base, phs)
    requires forall i :: 0 <= i < |phs| && phs[i].ptype == PT_LOAD ==> PagesApart(base, ph, phs[i])
    ensures SegmentLoaded(u, f, base, ph)
  {
    SegmentSizes(f, ph);
    SegmentInUserSpace(base, ph);
    RoundingIsTight(base + ph.vaddr, 0);
    hide RoundUp, RoundDown, SegmentOk, BaseOk;
    forall x: nat | Covers(base + ph.vaddr, ph.memsz, x) ensures x in u && u[x] == t[x] {
      assert OnPagesOf(base, ph, x);
      assert !OnLoadPages(base, phs, x);
    }
  }

  lemma TailPages(base: nat, phs: seq<Phdr>, x: nat)
    requires phs != []
    ensures OnLoadPages(base, phs[1..], x) ==> OnLoadPages(base, phs, x)
  {
    hide OnPagesOf;
    assert forall i :: 0 <= i < |phs[1..]| ==> phs[1..][i] == phs[i + 1];
  }

  lemma ChangesAddUp(u: Space, t: Space, s: Space, base: nat, phs: seq<Phdr>)
    requires phs != [] && phs[0].ptype == PT_LOAD
    requires SameOutside(s, t, PagesFrom(base, phs[0]), PagesTo(base, phs[0]))
    requires OnlyLoadPagesChanged(u, t, base, phs[1..])
    ensures OnlyLoadPagesChanged(u, s, base, phs)
  {
    hide PagesFrom, PagesTo;
    forall x: nat | !OnLoadPages(base, phs, x) ensures (x in u <==> x in s) && (x in s ==> u[x] == s[x]) {
      assert !OnPagesOf(base, phs[0], x);
      TailPages(base, phs, x);
    }
  }

  lemma LoadsOkTail(f: seq<Byte>, phs: seq<Phdr>, base: Word)
    requires LoadsOk(f, phs, base) && phs != []
    ensures LoadsOk(f, phs[1..], base)
    ensures phs[0].ptype == PT_LOAD ==> SegmentOk(f, phs[0]) && BaseOk(base, phs[0])
    ensures phs[0].ptype == PT_LOAD ==>
              forall i :: 0 <= i < |phs[1..]| && phs[1..][i].ptype == PT_LOAD ==> PagesApart(base, phs[0], phs[1..][i])
  {
    hide SegmentOk, BaseOk, PagesApart;
    assert forall i :: 0 <= i < |phs[1..]| ==> phs[1..][i] == phs[i + 1];
  }

  lemma SkippedHeader(t: Space, s: Space, f: seq<Byte>, base: nat, phs: seq<Phdr>)
    requires phs != [] && phs[0].ptype != PT_LOAD
    ensures AllLoaded(t, f, base, phs[1..]) ==> AllLoaded(t, f, base, phs)
    ensures OnlyLoadPagesChanged(t, s, base, phs[1..]) ==> OnlyLoadPagesChanged(t, s, base, phs)
  {
    hide SegmentLoaded, OnPagesOf;
    assert forall i :: 1 <= i < |phs| ==> phs[i] == phs[1..][i - 1];
    forall x: nat ensures OnLoadPages(base, phs[1..], x) ==> OnLoadPages(base, phs, x) {
      TailPages(base, phs, x);
    }
  }

  lemma AddLoaded(u: Space, f: seq<Byte>, base: nat, phs: seq<Phdr>)
    requires phs != [] && phs[0].offset + phs[0].filesz <= |f| && SegmentLoaded(u, f, base, phs[0])
    requires AllLoaded(u, f, base, phs[1..])
    ensures AllLoaded(u, f, base, phs)
  {
    hide SegmentLoaded;
    assert forall i :: 1 <= i < |phs| ==> phs[i] == phs[1..][i - 1];
  }

  lemma NothingChanged(s: Space, f: seq<Byte>, base: nat)
    ensures AllLoaded(s, f, base, []) && OnlyLoadPagesChanged(s, s, base, [])
  {
  }

  /** How many mappings the loadable segments ask for, and the regions they are tracked as. */
  function Asked(base: nat, phs: seq<Phdr>): nat {
    if phs == [] then 0
    else (if phs[0].ptype == PT_LOAD then SegmentAsks(base, phs[0]) else 0) + Asked(base, phs[1..])
  }

  function LoadRegions(base: nat, phs: seq<Phdr>): seq<Region> {
    if phs == [] then []
    else (if phs[0].ptype == PT_LOAD then SegmentRegions(base, phs[0]) else []) + LoadRegions(base, phs[1..])
  }

  lemma AskedInTurn(refusals: seq<bool>, log: seq<Region>, base: nat, phs: seq<Phdr>)
    ensures phs == [] ==> Asked(base, phs) == 0 && LoadRegions(base, phs) == [] && log + [] == log
    ensures phs != [] && phs[0].ptype != PT_LOAD ==>
              Asked(base, phs) == Asked(base, phs[1..]) && LoadRegions(base, phs) == LoadRegions(base, phs[1..])
    ensures phs != [] && phs[0].ptype == PT_LOAD ==>
              var n := SegmentAsks(base, phs[0]);
              && (Granted(refusals, Asked(base, phs)) <==>
                    Granted(refusals, n) && Granted(Later(refusals, n), Asked(base, phs[1..])))
              && Later(refusals, Asked(base, phs)) == Later(Later(refusals, n), Asked(base, phs[1..]))
    ensures phs != [] && phs[0].ptype == PT_LOAD ==>
              log + LoadRegions(base, phs) == log + SegmentRegions(base, phs[0]) + LoadRegions(base, phs[1..])
    ensures Granted(refusals, 0) && Later(refusals, 0) == refusals
  {
    hide SegmentAsks, SegmentRegions, Granted, Later;
    GrantedInTurn(refusals, 0, 0);
    if phs != [] && phs[0].ptype == PT_LOAD {
      GrantedInTurn(refusals, SegmentAsks(base, phs[0]), Asked(base, phs[1..]));
      Regrouped(log, SegmentRegions(base, phs[0]), LoadRegions(base, phs[1..]));
    }
  }

  lemma Regrouped(a: seq<Region>, b: seq<Region>, c: seq<Region>)
    ensures a + (b + c) == a + b + c
  {
  }

  /** The loop from a state whose current base is `base`, and which keeps it there. */
  lemma {:induction false} HeadersAreLoaded(st: LoadState, f: seq<Byte>, phs: seq<Phdr>, seen: bool, first: Word,
                                            rank: nat)
    requires InitialBase(rank) < WORD && Granted(st.m.refusals, Asked(CurrentBase(st, rank), phs))
    requires LoadsOk(f, phs, CurrentBase(st, rank)) && (st.firstTime ==> FirstLoadKeepsBase(phs, InitialBase(rank)))
    ensures var r, base := LoadHeaders(st, f, phs, seen, first, rank), CurrentBase(st, rank);
            && r.outcome == Placed && r.state.m.refusals == Later(st.m.refusals, Asked(base, phs))
            && r.state.m.log == st.m.log + LoadRegions(base, phs)
            && AllLoaded(r.state.m.space, f, base, phs)
            && OnlyLoadPagesChanged(r.state.m.space, st.m.space, base, phs)
            && (seen ==> r.base == first)
            && (!seen && HasLoad(phs) ==> r.base == base)
    decreases |phs|
  {
    hide LoadSegment, SegmentLoaded, SameOutside, LoadsOk, SegmentOk, BaseOk, PagesFrom, PagesTo, AllLoaded,
         OnlyLoadPagesChanged, PagesApart, HasBssPages, Asked, LoadRegions, SegmentAsks, SegmentRegions, Granted, Later,
         BaseAfter;
    var base := CurrentBase(st, rank);
    NothingChanged(st.m.space, f, base);
    AskedInTurn(st.m.refusals, st.m.log, base, phs);
    if phs != [] {
      LoadsOkTail(f, phs, base);
      var ph, rest := phs[0], phs[1..];
      if ph.ptype != PT_LOAD {
        HeadersAreLoaded(st, f, rest, seen, first, rank);
        SkippedHeader(LoadHeaders(st, f, rest, seen, first, rank).state.m.space, st.m.space, f, base, phs);
      } else {
        SegmentIsLoaded(st, f, ph, rank);
        var r := LoadSegment(st, f, ph, rank);
        FirstLoadBase(st, f, ph, phs, rank);
        var ret := if seen then first else r.state.base;
        HeadersAreLoaded(r.state, f, rest, true, ret, rank);
        var u := LoadHeaders(r.state, f, rest, true, ret, rank).state.m.space;
        LoadedStays(u, r.state.m.space, f, base, ph, rest);
        AddLoaded(u, f, base, phs) by {
          SegmentInFile(f, ph);
        }
        ChangesAddUp(u, r.state.m.space, st.m.space, base, phs);
      }
    }
  }

  lemma SegmentInFile(f: seq<Byte>, ph: Phdr)
    requires SegmentOk(f, ph)
    ensures ph.offset + ph.filesz <= |f|
  {
  }

  predicate HasLoad(phs: seq<Phdr>) {
    exists i :: 0 <= i < |phs| && phs[i].ptype == PT_LOAD
  }

  /** The first loadable segment starts in page 0 and has no separate bss pages. */
  predicate FirstLoadKeepsBase(phs: seq<Phdr>, base: nat) {
    phs != [] ==>
      if phs[0].ptype == PT_LOAD then phs[0].vaddr < PAGE_SIZE && !HasBssPages(base, phs[0])
      else FirstLoadKeepsBase(phs[1..], base)
  }

  lemma FirstLoadBase(st: LoadState, f: seq<Byte>, ph: Phdr, phs: seq<Phdr>, rank: nat)
    requires InitialBase(rank) < WORD && phs != [] && ph == phs[0] && ph.ptype == PT_LOAD
    requires SegmentOk(f, ph) && BaseOk(CurrentBase(st, rank), ph)
    requires Granted(st.m.refusals, SegmentAsks(CurrentBase(st, rank), ph))
    requires st.firstTime ==> FirstLoadKeepsBase(phs, InitialBase(rank))
    ensures LoadSegment(st, f, ph, rank).state.base == CurrentBase(st, rank)
    ensures !LoadSegment(st, f, ph, rank).state.firstTime
  {
    hide LoadSegment, SegmentLoaded, SameOutside, SegmentOk, BaseOk, HasBssPages, SegmentAsks, SegmentRegions, Granted,
         Later;
    SegmentIsLoaded(st, f, ph, rank);
    if st.firstTime {
      FirstSegmentKeepsBaseIff(st, f, ph, rank);
    }
  }

  /** What load_elf_interpreter reports: DynObjInfo_t without the symbol addresses. */
  datatype DynObjInfo = DynObjInfo(baseAddr: Word, phnum: Word, phdr: Word, entryPoint: Word)

  /** The checks on the identification and the header: "\x7fELF", 64-bit, and complete. */
  predicate ElfHeaderOk(f: seq<Byte>) {
    |f| >= EHDR_SIZE && f[0] == 127 && f[1] == 69 && f[2] == 76 && f[3] == 70 && f[4] == 2
  }

  function EntryField(f: seq<Byte>): Word
    requires ElfHeaderOk(f)
  {
    WordField(f, 24)
  }

  function PhoffField(f: seq<Byte>): Word
    requires ElfHeaderOk(f)
  {
    WordField(f, 32)
  }

  function PhnumField(f: seq<Byte>): Word
    requires ElfHeaderOk(f)
  {
    Field(f, 56, 2)
  }

  /** `int phoff`, then lseek: a negative offset is refused and reading goes on after the ELF header. */
  function TableStart(f: seq<Byte>): nat
    requires ElfHeaderOk(f)
  {
    if IntOf(PhoffField(f)) < 0 then EHDR_SIZE else IntOf(PhoffField(f))
  }

  predicate TableComplete(f: seq<Byte>)
    requires ElfHeaderOk(f)
  {
    PhnumField(f) == 0 || TableStart(f) + PHDR_SIZE * PhnumField(f) <= |f|
  }

  /** The program headers from number i on. */
  function HeadersFrom(f: seq<Byte>, i: nat): (phs: seq<Phdr>)
    requires ElfHeaderOk(f) && TableComplete(f) && i <= PhnumField(f)
    ensures |phs| == PhnumField(f) - i
  {
    seq(PhnumField(f) - i, k requires 0 <= k < PhnumField(f) - i => PhdrAt(f, TableStart(f) + PHDR_SIZE * (i + k)))
  }

  lemma NextHeader(f: seq<Byte>, i: nat)
    requires ElfHeaderOk(f) && TableComplete(f) && i < PhnumField(f)
    ensures TableStart(f) + PHDR_SIZE * i + PHDR_SIZE <= |f|
    ensures HeadersFrom(f, i) == [PhdrAt(f, TableStart(f) + PHDR_SIZE * i)] + HeadersFrom(f, i + 1)
    ensures HeadersFrom(f, i)[0] == PhdrAt(f, TableStart(f) + PHDR_SIZE * i)
    ensures HeadersFrom(f, i)[1..] == HeadersFrom(f, i + 1)
  {
    hide PhdrAt;
  }

  /** A file that the loader handles: loadable segments acceptable and apart, the first one fixing the base. */
  ghost predicate LoadableElf(f: seq<Byte>, rank: nat)
    requires InitialBase(rank) < WORD
  {
    && ElfHeaderOk(f) && TableComplete(f)
    && LoadsOk(f, HeadersFrom(f, 0), InitialBase(rank))
    && HasLoad(HeadersFrom(f, 0)) && FirstLoadKeepsBase(HeadersFrom(f, 0), InitialBase(rank))
  }

  /**
   Program loading: after the program-header loop every loadable segment's image is in memory at
   base + p_vaddr, file bytes then zeros; the base is the rank's fixed address and is what the loop
   reports; and memory off the segments' pages is as before.
   */
  lemma ElfLoadCorrect(m: Machine, f: seq<Byte>, rank: nat)
    requires InitialBase(rank) < WORD && LoadableElf(f, rank)
    requires Granted(m.refusals, Asked(InitialBase(rank), HeadersFrom(f, 0)))
    ensures var r := LoadHeaders(LoadState(m, 0, true), f, HeadersFrom(f, 0), false, 0, rank);
            && r.outcome == Placed && r.base == InitialBase(rank)
            && AllLoaded(r.state.m.space, f, InitialBase(rank), HeadersFrom(f, 0))
            && OnlyLoadPagesChanged(r.state.m.space, m.space, InitialBase(rank), HeadersFrom(f, 0))
            && r.state.m.log == m.log + LoadRegions(InitialBase(rank), HeadersFrom(f, 0))
  {
    hide Granted, Asked, LoadRegions, AllLoaded, OnlyLoadPagesChanged, LoadsOk, HasLoad, FirstLoadKeepsBase,
         HeadersFrom;
    HeadersAreLoaded(LoadState(m, 0, true), f, HeadersFrom(f, 0), false, 0, rank);
  }

  // ---------------------------------------------------------------- refused mappings

  /** A segment one of whose mappings is refused: it is missing, and nothing else changes. */
  lemma SegmentIsMissing(st: LoadState, f: seq<Byte>, ph: Phdr, rank: nat)
    requires InitialBase(rank) < WORD && SegmentOk(f, ph) && BaseOk(CurrentBase(st, rank), ph)
    requires !Granted(st.m.refusals, SegmentAsks(CurrentBase(st, rank), ph))
    requires Free(st.m.space, PagesFrom(CurrentBase(st, rank), ph), PagesTo(CurrentBase(st, rank), ph))
    ensures var r, base := LoadSegment(st, f, ph, rank), CurrentBase(st, rank);
            && r.outcome == MapFailed && r.state.base == base && r.state.firstTime == st.firstTime
            && ph.offset + ph.filesz <= |f| && !SegmentLoaded(r.state.m.space, f, base, ph)
            && SameOutside(st.m.space, r.state.m.space, PagesFrom(base, ph), PagesTo(base, ph))
  {
    hide *;
    var base := CurrentBase(st, rank);
    var m1 := MapFilePart(st.m, base, f, ph).0;
    AsksInTurn(st.m.refusals, base, ph);
    SegmentSizes(f, ph);
    SegmentInFile(f, ph);
    BssFits(base, ph);
    SegmentInUserSpace(base, ph);
    SegmentGeometry(f, base, ph);
    SegmentPaths(st, f, ph, rank);
    if Refused(st.m.refusals) {
      RefusedFilePart(st.m, base, f, ph);
      FirstAddress(f, base, ph);
      FreeAt(st.m.space, PagesFrom(base, ph), PagesTo(base, ph), base + ph.vaddr);
      MissingByte(m1.space, f, base, ph, base + ph.vaddr);
      SameSpace(st.m.space, PagesFrom(base, ph), PagesTo(base, ph));
    } else {
      FilePartIsPlace(st.m, base, f, ph);
      BssOnLastPage(st.m, base, f, ph);
      var m2 := m1.(space := Cleared(m1.space, base, ph));
      var lo, hi := RoundUp(base + ph.vaddr + ph.filesz), PagesTo(base, ph);
      BssPaths(LoadState(m2, base, st.firstTime), ph);
      RefusedPages(m2, lo, hi - lo, SegmentProt(ph.flags));
      FirstBssPage(base, ph);
      FreeAt(st.m.space, PagesFrom(base, ph), PagesTo(base, ph), lo);
      FilePartOnly(st.m, base, f, ph);
      MissingByte(m2.space, f, base, ph, lo);
    }
  }

  lemma FreeAt(s: Space, lo: nat, hi: nat, x: nat)
    requires Free(s, lo, hi) && lo <= x < hi
    ensures x !in s
  {
  }

  lemma FirstAddress(f: seq<Byte>, base: Word, ph: Phdr)
    requires SegmentOk(f, ph)
    ensures ph.memsz > 0 && PagesFrom(base, ph) <= base + ph.vaddr < PagesTo(base, ph)
  {
    RoundingIsTight(base + ph.vaddr, 0);
    RoundingIsTight(base + ph.vaddr + ph.memsz, 0);
    hide RoundUp, RoundDown;
  }

  lemma RefusedFilePart(m: Machine, base: Word, f: seq<Byte>, ph: Phdr)
    requires Refused(m.refusals) || ph.offset < PageOffset(ph.vaddr)
    ensures var r := MapFilePart(m, base, f, ph); !r.1 && r.0.space == m.space
  {
    hide Place, BackingBytes, SegmentAddr, SegmentSize, MmapArgsOk, RoundUp;
  }

  lemma RefusedPages(m: Machine, lo: nat, n: nat, prot: nat)
    requires Refused(m.refusals)
    ensures var r := MapTracked(m, lo, n, prot, Anonymous); !r.1 && r.0.space == m.space
  {
    hide Place, MmapArgsOk, RoundUp;
  }

  lemma SameSpace(s: Space, lo: nat, hi: nat)
    ensures SameOutside(s, s, lo, hi)
  {
  }

  /** The first bss page holds an address of the segment. */
  lemma FirstBssPage(base: Word, ph: Phdr)
    requires HasBssPages(base, ph)
    ensures var lo := RoundUp(base + ph.vaddr + ph.filesz);
            base + ph.vaddr <= lo < base + ph.vaddr + ph.memsz && PagesFrom(base, ph) <= lo < PagesTo(base, ph)
  {
    var lo := RoundUp(base + ph.vaddr + ph.filesz);
    RoundingIsTight(base + ph.vaddr + ph.filesz, 0);
    RoundingIsTight(base + ph.vaddr + ph.memsz, lo);
    RoundingIsTight(base + ph.vaddr, 0);
    hide RoundUp, RoundDown;
  }

  lemma MissingByte(s: Space, f: seq<Byte>, base: nat, ph: Phdr, x: nat)
    requires ph.offset + ph.filesz <= |f| && base + ph.vaddr <= x < base + ph.vaddr + ph.memsz && x !in s
    ensures !SegmentLoaded(s, f, base, ph)
  {
    assert Covers(base + ph.vaddr, ph.memsz, x);
  }

  /** The file part and its clearing touch no page from the first bss page on, and none before the segment. */
  lemma FilePartOnly(m: Machine, base: Word, f: seq<Byte>, ph: Phdr)
    requires SegmentOk(f, ph) && BaseOk(base, ph) && !Refused(m.refusals)
    ensures var t, lo := Cleared(MapFilePart(m, base, f, ph).0.space, base, ph), RoundUp(base + ph.vaddr + ph.filesz);
            && SameOutside(m.space, t, PagesFrom(base, ph), PagesTo(base, ph))
            && (lo !in m.space ==> lo !in t)
  {
    hide *;
    var t, lo := Cleared(MapFilePart(m, base, f, ph).0.space, base, ph), RoundUp(base + ph.vaddr + ph.filesz);
    FilePartOnlyAt(m, base, f, ph, lo);
    forall x: nat ensures !(PagesFrom(base, ph) <= x < PagesTo(base, ph)) ==>
        (x in m.space <==> x in t) && (x in m.space ==> t[x] == m.space[x]) {
      FilePartOnlyAt(m, base, f, ph, x);
    }
    SameOutsideIs(m.space, t, PagesFrom(base, ph), PagesTo(base, ph));
  }

  lemma FilePartOnlyAt(m: Machine, base: Word, f: seq<Byte>, ph: Phdr, x: nat)
    requires SegmentOk(f, ph) && BaseOk(base, ph) && !Refused(m.refusals)
    ensures var t := Cleared(MapFilePart(m, base, f, ph).0.space, base, ph);
            && (!(PagesFrom(base, ph) <= x < PagesTo(base, ph)) ==>
                (x in m.space <==> x in t) && (x in m.space ==> t[x] == m.space[x]))
            && (RoundUp(base + ph.vaddr + ph.filesz) <= x && x !in m.space ==> x !in t)
  {
    hide *;
    SegmentSizes(f, ph);
    SegmentGeometry(f, base, ph);
    SegmentInUserSpace(base, ph);
    RoundedDownBelow(base, ph);
    BssFits(base, ph);
    FilePartMapped(m, base, f, ph, x);
    ClearedAt(MapFilePart(m, base, f, ph).0.space, base, ph, x);
  }

  lemma RoundedDownBelow(base: nat, ph: Phdr)
    ensures PagesFrom(base, ph) <= base + ph.vaddr
  {
    RoundingIsTight(base + ph.vaddr, 0);
    hide RoundDown;
  }

  lemma SameOutsideIs(s: Space, t: Space, lo: nat, hi: nat)
    requires forall x: nat :: !(lo <= x < hi) ==> (x in s <==> x in t) && (x in s ==> t[x] == s[x])
    ensures SameOutside(s, t, lo, hi)
  {
  }

  /** Once a base is fixed: every segment is mapped at its place or missing, and all are there if none is refused. */
  lemma {:induction false} LoadedIffGranted(st: LoadState, f: seq<Byte>, phs: seq<Phdr>, first: Word, rank: nat)
    requires InitialBase(rank) < WORD && LoadsOk(f, phs, st.base) && !st.firstTime
    requires forall x :: OnLoadPages(st.base, phs, x) ==> x !in st.m.space
    ensures var r := LoadHeaders(st, f, phs, true, first, rank);
            && r.outcome == Placed && r.base == first
            && OnlyLoadPagesChanged(r.state.m.space, st.m.space, st.base, phs)
            && (AllLoaded(r.state.m.space, f, st.base, phs) <==> Granted(st.m.refusals, Asked(st.base, phs)))
    decreases |phs|
  {
    hide *;
    var base := st.base;
    NothingChanged(st.m.space, f, base);
    AskedInTurn(st.m.refusals, st.m.log, base, phs);
    LoopEnds(st, f, phs, true, first, rank);
    if phs != [] {
      LoadsOkTail(f, phs, base);
      LoopTurns(st, f, phs, true, first, rank);
      PagesOfRest(st.m.space, base, phs);
      var ph, rest := phs[0], phs[1..];
      if ph.ptype != PT_LOAD {
        LoadedIffGranted(st, f, rest, first, rank);
        SkippedHeader(LoadHeaders(st, f, rest, true, first, rank).state.m.space, st.m.space, f, base, phs);
        AllLoadedTail(LoadHeaders(st, f, rest, true, first, rank).state.m.space, f, base, phs);
      } else {
        BaseStays(st, rank);
        var r, granted := LoadSegment(st, f, ph, rank), Granted(st.m.refusals, SegmentAsks(base, ph));
        if granted {
          SegmentIsLoaded(st, f, ph, rank);
          SegmentInFile(f, ph);
          BaseAfterIs(st, base, ph);
        } else {
          SegmentIsMissing(st, f, ph, rank);
        }
        RestStaysFree(r.state.m.space, st.m.space, base, phs);
        LoadedIffGranted(r.state, f, rest, first, rank);
        var u := LoadHeaders(r.state, f, rest, true, first, rank).state.m.space;
        ChangesAddUp(u, r.state.m.space, st.m.space, base, phs);
        AllLoadedTail(u, f, base, phs);
        if granted {
          LoadedStays(u, r.state.m.space, f, base, ph, rest);
        } else {
          ChangesBothWays(u, r.state.m.space, base, rest);
          if SegmentLoaded(u, f, base, ph) {
            LoadedStays(r.state.m.space, u, f, base, ph, rest);
          }
        }
      }
    }
  }

  lemma BaseStays(st: LoadState, rank: nat)
    requires InitialBase(rank) < WORD && !st.firstTime
    ensures CurrentBase(st, rank) == st.base
  {
  }

  lemma BaseAfterIs(st: LoadState, base: Word, ph: Phdr)
    requires !st.firstTime
    ensures BaseAfter(st, base, ph) == base
  {
  }

  lemma LoopEnds(st: LoadState, f: seq<Byte>, phs: seq<Phdr>, seen: bool, base: Word, rank: nat)
    requires InitialBase(rank) < WORD
    ensures phs == [] ==> LoadHeaders(st, f, phs, seen, base, rank) == ElfResult(st, Placed, base)
  {
  }

  lemma LoopTurns(st: LoadState, f: seq<Byte>, phs: seq<Phdr>, seen: bool, base: Word, rank: nat)
    requires InitialBase(rank) < WORD && phs != []
    ensures phs[0].ptype != PT_LOAD ==>
              LoadHeaders(st, f, phs, seen, base, rank) == LoadHeaders(st, f, phs[1..], seen, base, rank)
    ensures phs[0].ptype == PT_LOAD ==>
              var r := LoadSegment(st, f, phs[0], rank);
              && (r.outcome == Placed ==>
                    LoadHeaders(st, f, phs, seen, base, rank) ==
                    LoadHeaders(r.state, f, phs[1..], true, if seen then base else r.state.base, rank))
              && (r.outcome == MapFailed ==>
                    LoadHeaders(st, f, phs, seen, base, rank) ==
                    LoadHeaders(r.state, f, phs[1..], true, if seen then base else 0, rank))
  {
    hide LoadSegment;
  }

  lemma PagesOfRest(s: Space, base: nat, phs: seq<Phdr>)
    requires phs != [] && forall x :: OnLoadPages(base, phs, x) ==> x !in s
    ensures forall x :: OnLoadPages(base, phs[1..], x) ==> x !in s
    ensures phs[0].ptype == PT_LOAD ==> Free(s, PagesFrom(base, phs[0]), PagesTo(base, phs[0]))
  {
    forall x: nat | OnLoadPages(base, phs[1..], x) ensures x !in s {
      TailPages(base, phs, x);
    }
    if phs[0].ptype == PT_LOAD {
      forall x: nat | PagesFrom(base, phs[0]) <= x < PagesTo(base, phs[0]) ensures x !in s {
        assert OnPagesOf(base, phs[0], x);
        assert OnLoadPages(base, phs, x);
      }
    }
  }

  lemma RestStaysFree(t: Space, s: Space, base: nat, phs: seq<Phdr>)
    requires phs != [] && phs[0].ptype == PT_LOAD && (forall x :: OnLoadPages(base, phs[1..], x) ==> x !in s)
    requires SameOutside(s, t, PagesFrom(base, phs[0]), PagesTo(base, phs[0]))
    requires forall i :: 0 <= i < |phs[1..]| && phs[1..][i].ptype == PT_LOAD ==> PagesApart(base, phs[0], phs[1..][i])
    ensures forall x :: OnLoadPages(base, phs[1..], x) ==> x !in t
  {
    hide PagesFrom, PagesTo;
    forall x: nat | OnLoadPages(base, phs[1..], x) ensures x !in t {
      var i :| 0 <= i < |phs[1..]| && phs[1..][i].ptype == PT_LOAD && OnPagesOf(base, phs[1..][i], x);
      assert PagesApart(base, phs[0], phs[1..][i]);
    }
  }

  lemma AllLoadedTail(s: Space, f: seq<Byte>, base: nat, phs: seq<Phdr>)
    requires phs != []
    ensures AllLoaded(s, f, base, phs) <==>
            AllLoaded(s, f, base, phs[1..])
            && (phs[0].ptype == PT_LOAD ==> phs[0].offset + phs[0].filesz <= |f| && SegmentLoaded(s, f, base, phs[0]))
  {
    hide SegmentLoaded;
    assert forall i :: 1 <= i < |phs| ==> phs[i] == phs[1..][i - 1];
  }

  lemma ChangesBothWays(u: Space, t: Space, base: nat, phs: seq<Phdr>)
    requires OnlyLoadPagesChanged(u, t, base, phs)
    ensures OnlyLoadPagesChanged(t, u, base, phs)
  {
    hide OnLoadPages;
  }

  /** Once the first segment was tried, its answer is the reported base. */
  lemma {:induction false} ReportedBaseStays(st: LoadState, f: seq<Byte>, phs: seq<Phdr>, base: Word, rank: nat)
    requires InitialBase(rank) < WORD
    ensures LoadHeaders(st, f, phs, true, base, rank).base == base
    decreases |phs|
  {
    hide LoadSegment;
    if phs != [] {
      var r := LoadSegment(st, f, phs[0], rank);
      if phs[0].ptype != PT_LOAD {
        ReportedBaseStays(st, f, phs[1..], base, rank);
      } else if r.outcome != AssertFailed && r.outcome != Fault {
        ReportedBaseStays(r.state, f, phs[1..], base, rank);
      }
    }
  }

  lemma {:induction false} FirstLoadDecides(st: LoadState, f: seq<Byte>, phs: seq<Phdr>, rank: nat)
    requires InitialBase(rank) < WORD && st.firstTime && LoadsOk(f, phs, InitialBase(rank))
    requires HasLoad(phs) && FirstLoadKeepsBase(phs, InitialBase(rank))
    requires forall x :: OnLoadPages(InitialBase(rank), phs, x) ==> x !in st.m.space
    ensures var r, base := LoadHeaders(st, f, phs, false, 0, rank), InitialBase(rank);
            && (r.base != 0 <==> !Refused(st.m.refusals))
            && (r.base != 0 ==>
                  && r.base == base && r.outcome == Placed
                  && (AllLoaded(r.state.m.space, f, base, phs) <==> Granted(st.m.refusals, Asked(base, phs))))
    decreases |phs|
  {
    hide *;
    var base: Word := InitialBase(rank);
    FirstHeaderOf(phs, base, rank);
    LoadsOkTail(f, phs, base);
    LoopTurns(st, f, phs, false, 0, rank);
    PagesOfRest(st.m.space, base, phs);
    AskedInTurn(st.m.refusals, st.m.log, base, phs);
    var ph, rest := phs[0], phs[1..];
    if ph.ptype != PT_LOAD {
      FirstLoadDecides(st, f, rest, rank);
      AllLoadedTail(LoadHeaders(st, f, rest, false, 0, rank).state.m.space, f, base, phs);
    } else {
      FirstBase(st, base, rank);
      AsksInTurn(st.m.refusals, base, ph);
      var r := LoadSegment(st, f, ph, rank);
      if Refused(st.m.refusals) {
        SegmentIsMissing(st, f, ph, rank);
        ReportedBaseStays(r.state, f, rest, 0, rank);
      } else {
        SegmentIsLoaded(st, f, ph, rank);
        SegmentInFile(f, ph);
        FirstSegmentKeepsBaseIff(st, f, ph, rank);
        RestStaysFree(r.state.m.space, st.m.space, base, phs);
        LoadedIffGranted(r.state, f, rest, base, rank);
        var u := LoadHeaders(r.state, f, rest, true, base, rank).state.m.space;
        AllLoadedTail(u, f, base, phs);
        LoadedStays(u, r.state.m.space, f, base, ph, rest);
      }
    }
  }

  lemma FirstHeaderOf(phs: seq<Phdr>, base: Word, rank: nat)
    requires InitialBase(rank) < WORD && HasLoad(phs) && FirstLoadKeepsBase(phs, InitialBase(rank))
    requires base == InitialBase(rank)
    ensures phs != [] && base != 0
    ensures phs[0].ptype != PT_LOAD ==> HasLoad(phs[1..]) && FirstLoadKeepsBase(phs[1..], InitialBase(rank))
    ensures phs[0].ptype == PT_LOAD ==> phs[0].vaddr < PAGE_SIZE && !HasBssPages(base, phs[0])
  {
    if phs[0].ptype != PT_LOAD {
      var i :| 0 <= i < |phs| && phs[i].ptype == PT_LOAD;
      assert phs[1..][i - 1].ptype == PT_LOAD;
    }
  }

  lemma FirstBase(st: LoadState, base: Word, rank: nat)
    requires InitialBase(rank) < WORD && st.firstTime && base == InitialBase(rank)
    ensures CurrentBase(st, rank) == base
  {
  }

  /**
   Under any refusals, and into free pages. The loader reports an address exactly if the first mapping is not
   refused; and when it does, all segments are in place if and only if none of the mappings is refused. A
   later refusal therefore leaves a program with a segment missing, and nothing tells.
   */
  lemma ElfLoadedIffGranted(m: Machine, f: seq<Byte>, rank: nat)
    requires InitialBase(rank) < WORD && LoadableElf(f, rank)
    requires forall x :: OnLoadPages(InitialBase(rank), HeadersFrom(f, 0), x) ==> x !in m.space
    ensures var r := LoadHeaders(LoadState(m, 0, true), f, HeadersFrom(f, 0), false, 0, rank);
            && (r.base != 0 <==> !Refused(m.refusals))
            && (r.base != 0 ==>
                  && r.base == InitialBase(rank) && r.outcome == Placed
                  && (AllLoaded(r.state.m.space, f, InitialBase(rank), HeadersFrom(f, 0)) <==>
                      Granted(m.refusals, Asked(InitialBase(rank), HeadersFrom(f, 0)))))
  {
    hide Granted, Asked, AllLoaded, OnLoadPages, LoadsOk, HasLoad, FirstLoadKeepsBase, HeadersFrom, LoadHeaders;
    FirstLoadDecides(LoadState(m, 0, true), f, HeadersFrom(f, 0), rank);
  }

  /**
   The reported program-header address points at the file's own table in memory, when the segment that
   holds it maps the file from offset 0 at address 0, as the first segment of ld.so does.
   */
  lemma HeaderTableInMemory(m: Machine, f: seq<Byte>, rank: nat, i: nat, k: nat)
    requires InitialBase(rank) < WORD && LoadableElf(f, rank) && PhoffField(f) < GIB4 / 2
    requires Granted(m.refusals, Asked(InitialBase(rank), HeadersFrom(f, 0)))
    requires i < PhnumField(f) && HeadersFrom(f, 0)[i].ptype == PT_LOAD
    requires HeadersFrom(f, 0)[i].offset == 0 && HeadersFrom(f, 0)[i].vaddr == 0
    requires PhoffField(f) + PHDR_SIZE * PhnumField(f) <= HeadersFrom(f, 0)[i].filesz && k < PHDR_SIZE * PhnumField(f)
    ensures var r := LoadHeaders(LoadState(m, 0, true), f, HeadersFrom(f, 0), false, 0, rank);
            var at := r.base + PhoffField(f) + k;
            at in r.state.m.space && PhoffField(f) + k < |f| && r.state.m.space[at].value == f[PhoffField(f) + k]
  {
    hide *;
    LoadableParts(f, rank, i);
    var phs, base := HeadersFrom(f, 0), InitialBase(rank);
    var r := LoadHeaders(LoadState(m, 0, true), f, phs, false, 0, rank);
    ElfLoadCorrect(m, f, rank);
    SegmentInFile(f, phs[i]);
    LoadedAt(r.state.m.space, f, base, phs, i, base + PhoffField(f) + k);
  }

  lemma LoadableParts(f: seq<Byte>, rank: nat, i: nat)
    requires InitialBase(rank) < WORD && LoadableElf(f, rank) && i < PhnumField(f)
    requires HeadersFrom(f, 0)[i].ptype == PT_LOAD
    ensures ElfHeaderOk(f) && TableComplete(f) && SegmentOk(f, HeadersFrom(f, 0)[i])
    ensures BaseOk(InitialBase(rank), HeadersFrom(f, 0)[i])
  {
    hide SegmentOk, BaseOk, InitialBase, HeadersFrom, PagesApart, FirstLoadKeepsBase;
  }

  /** A byte of a loaded segment that starts at address 0 and at the file's beginning. */
  lemma LoadedAt(s: Space, f: seq<Byte>, base: nat, phs: seq<Phdr>, i: nat, x: nat)
    requires AllLoaded(s, f, base, phs) && i < |phs| && phs[i].ptype == PT_LOAD && SegmentOk(f, phs[i])
    requires phs[i].offset == 0 && phs[i].vaddr == 0 && base <= x < base + phs[i].filesz
    ensures x - base < |f| && x in s && s[x].value == f[x - base]
  {
    SegmentSizes(f, phs[i]);
    SegmentInFile(f, phs[i]);
    hide SegmentOk, SegmentProt;
    assert Covers(base + phs[i].vaddr, phs[i].memsz, x);
  }

  // ---------------------------------------------------------------- the loader as a program

  class ElfLoader {
    const lower: Tracker
    /** The static variables of map_elf_interpreter_load_segment. */
    var baseAddress: Word
    var firstTime: bool

    constructor (lower: Tracker)
      requires lower.Valid()
      ensures this.lower == lower && baseAddress == 0 && firstTime
    {
      this.lower := lower;
      baseAddress, firstTime := 0, true;
    }

    ghost function View(): LoadState
      reads this, lower, lower.os
    {
      LoadState(lower.View(), baseAddress, firstTime)
    }

    lemma ViewParts()
      ensures View() == LoadState(lower.View(), baseAddress, firstTime)
    {
    }

    /** map_elf_interpreter_load_segment. */
    method MapSegment(f: seq<Byte>, ph: Phdr, rank: nat) returns (ret: Word, outcome: LoadOutcome)
      requires lower.Valid() && InitialBase(rank) < WORD
      modifies this, lower, lower.mmaps, lower.os
      ensures lower.Valid() && SegmentResult(View(), outcome) == LoadSegment(old(View()), f, ph, rank)
      ensures ret == if outcome == Placed then baseAddress else 0
    {
      hide *;
      ghost var st := View();
      ViewParts();
      SegmentPaths(st, f, ph, rank);
      if !HeaderOk(ph) {
        return 0, AssertFailed;
      }
      var base: Word := if firstTime then InitialBase(rank) else baseAddress;
      if firstTime {
        baseAddress := base;
      }
      var ok := MapFile(f, base, ph);
      ViewParts();
      if !ok {
        return 0, MapFailed;
      }
      var cleared := ClearBss(base, ph);
      ViewParts();
      BssPaths(View(), ph);
      if !cleared {
        return 0, Fault;
      }
      var startBss, endBss := PageUp(StartBss(base, ph)), PageUp(EndBss(base, ph));
      var place := SegmentAddr(base, ph);
      if endBss > startBss {
        ok := lower.MmapFixed(startBss, endBss - startBss, SegmentProt(ph.flags), Anonymous);
        ViewParts();
        if !ok {
          return 0, MapFailed;
        }
        place := startBss;
      }
      if firstTime {
        firstTime := false;
        baseAddress := place;
      }
      ViewParts();
      return baseAddress, Placed;
    }

    /** load_elf_interpreter: checks the file, then reads and maps one program header after another. */
    method LoadElfInterpreter(f: seq<Byte>, rank: nat) returns (outcome: LoadOutcome, info: DynObjInfo)
      requires lower.Valid() && InitialBase(rank) < WORD
      modifies this, lower, lower.mmaps, lower.os
      ensures lower.Valid()
      ensures !ElfHeaderOk(f) ==> outcome == AssertFailed && View() == old(View())
      ensures ElfHeaderOk(f) && !TableComplete(f) ==> outcome == AssertFailed || outcome == Fault
      ensures ElfHeaderOk(f) && TableComplete(f) ==>
                var r := LoadHeaders(old(View()), f, HeadersFrom(f, 0), false, 0, rank);
                && View() == r.state && outcome == r.outcome
                && (outcome == Placed ==>
                      info == DynObjInfo(r.base, PhnumField(f), (r.base + PhoffField(f)) % WORD,
                                         (r.base + EntryField(f)) % WORD))
    {
      info := DynObjInfo(0, 0, 0, 0);
      if !ElfHeaderOk(f) {
        return AssertFailed, info;
      }
      hide *;
      var first, baseAddr: Word, n, pos := true, 0, PhnumField(f), TableStart(f);
      ghost var st := View();
      FirstHeader(f);
      var i := 0;
      while i < n
        invariant 0 <= i <= n && lower.Valid() && pos == HeaderPos(f, i)
        invariant TableComplete(f) ==>
                  FromHeader(st, f, 0, false, 0, rank) == FromHeader(View(), f, i, !first, baseAddr, rank)
        invariant i > 0 ==> pos <= |f|
      {
        ghost var seen := !first;
        HeaderTurn(View(), f, i, seen, baseAddr, rank);
        if pos + PHDR_SIZE > |f| {
          return AssertFailed, info;
        }
        var ph := PhdrAt(f, pos);
        pos := pos + PHDR_SIZE;
        if ph.ptype == PT_LOAD {
          var ret;
          ret, outcome := MapSegment(f, ph, rank);
          if outcome == AssertFailed || outcome == Fault {
            FromFirst(st, f, rank);
            return outcome, info;
          }
          if first {
            baseAddr := ret;
            first := false;
          }
        }
        i := i + 1;
      }
      LastHeader(View(), f, !first, baseAddr, rank);
      FromFirst(st, f, rank);
      IncompleteTable(f, pos);
      info := DynObjInfo(baseAddr, n, (baseAddr + PhoffField(f)) % WORD, (baseAddr + EntryField(f)) % WORD);
      outcome := Placed;
    }

    method MapFile(f: seq<Byte>, base: Word, ph: Phdr) returns (ok: bool)
      requires lower.Valid()
      modifies lower, lower.mmaps, lower.os
      ensures lower.Valid() && (lower.View(), ok) == MapFilePart(old(lower.View()), base, f, ph)
    {
      if ph.offset < PageOffset(ph.vaddr) {
        return false;
      }
      ok := lower.MmapFixed(SegmentAddr(base, ph), SegmentSize(ph), SegmentProt(ph.flags),
                            FileAt(f, ph.offset - PageOffset(ph.vaddr)));
    }

    /** memset of the bss on the last file page; false when the store would fault. */
    method ClearBss(base: Word, ph: Phdr) returns (ok: bool)
      requires lower.Valid()
      modifies lower.os`space
      ensures lower.Valid()
      ensures var m, start := old(lower.View()), StartBss(base, ph);
              && ok == (ph.memsz > ph.filesz ==> CanWrite(m.space, start, RoundUp(start)))
              && lower.View() == if ok then m.(space := Cleared(m.space, base, ph)) else m
    {
      hide *;
      var start := StartBss(base, ph);
      ClearedIs(lower.os.space, base, ph);
      lower.ViewParts();
      lower.ValidParts();
      ok := true;
      if ph.memsz > ph.filesz {
        ok := CanWrite(lower.os.space, start, RoundUp(start));
        if ok {
          CanWriteMapped(lower.os.space, start, RoundUp(start));
          lower.os.Write(start, Zeros(RoundUp(start) - start));
        }
      }
      lower.ViewParts();
      lower.ValidParts();
    }
  }

  lemma ClearedIs(s: Space, base: Word, ph: Phdr)
    ensures var start := StartBss(base, ph);
            && start <= RoundUp(start)
            && Cleared(s, base, ph) ==
               if ph.memsz > ph.filesz then Store(s, start, Zeros(RoundUp(start) - start)) else s
  {
    hide RoundUp, Store, Zeros, StartBss;
    RoundingIsTight(StartBss(base, ph), 0);
  }

  lemma CanWriteMapped(s: Space, lo: nat, hi: nat)
    requires CanWrite(s, lo, hi) && lo <= hi
    ensures Mapped(s, lo, lo + (hi - lo))
  {
  }

  function HeaderPos(f: seq<Byte>, i: nat): nat
    requires ElfHeaderOk(f)
  {
    TableStart(f) + PHDR_SIZE * i
  }

  lemma FirstHeader(f: seq<Byte>)
    requires ElfHeaderOk(f)
    ensures HeaderPos(f, 0) == TableStart(f)
  {
  }

  /** What is left of the program-header loop from header number i on. */
  ghost function FromHeader(st: LoadState, f: seq<Byte>, i: nat, seen: bool, base: Word, rank: nat): ElfResult
    requires InitialBase(rank) < WORD && ElfHeaderOk(f) && TableComplete(f) && i <= PhnumField(f)
  {
    LoadHeaders(st, f, HeadersFrom(f, i), seen, base, rank)
  }

  /** One turn of the program-header loop. */
  lemma HeaderTurn(st: LoadState, f: seq<Byte>, i: nat, seen: bool, base: Word, rank: nat)
    requires InitialBase(rank) < WORD && ElfHeaderOk(f) && i < PhnumField(f)
    ensures HeaderPos(f, i + 1) == HeaderPos(f, i) + PHDR_SIZE
    ensures TableComplete(f) ==> HeaderPos(f, i) + PHDR_SIZE <= |f|
    ensures TableComplete(f) ==>
              var ph := PhdrAt(f, HeaderPos(f, i));
              var r := LoadSegment(st, f, ph, rank);
              FromHeader(st, f, i, seen, base, rank) ==
              if ph.ptype != PT_LOAD then FromHeader(st, f, i + 1, seen, base, rank)
              else if r.outcome == AssertFailed || r.outcome == Fault then ElfResult(r.state, r.outcome, base)
              else FromHeader(r.state, f, i + 1, true,
                              if seen then base else if r.outcome == Placed then r.state.base else 0, rank)
  {
    hide LoadSegment, HeadersFrom, PhdrAt, TableComplete, TableStart, PhnumField, ElfHeaderOk, InitialBase;
    if TableComplete(f) {
      NextHeader(f, i);
    }
  }

  lemma LastHeader(st: LoadState, f: seq<Byte>, seen: bool, base: Word, rank: nat)
    requires InitialBase(rank) < WORD && ElfHeaderOk(f)
    ensures TableComplete(f) ==> FromHeader(st, f, PhnumField(f), seen, base, rank) == ElfResult(st, Placed, base)
  {
  }

  lemma FromFirst(st: LoadState, f: seq<Byte>, rank: nat)
    requires InitialBase(rank) < WORD && ElfHeaderOk(f)
    ensures TableComplete(f) ==>
              FromHeader(st, f, 0, false, 0, rank) == LoadHeaders(st, f, HeadersFrom(f, 0), false, 0, rank)
  {
  }

  lemma IncompleteTable(f: seq<Byte>, pos: nat)
    requires ElfHeaderOk(f) && pos == HeaderPos(f, PhnumField(f)) && (PhnumField(f) > 0 ==> pos <= |f|)
    ensures TableComplete(f)
  {
    hide TableStart, PhnumField;
  }

  /** The paths through a segment, one after the other. */
  lemma SegmentPaths(st: LoadState, f: seq<Byte>, ph: Phdr, rank: nat)
    requires InitialBase(rank) < WORD
    ensures CurrentBase(st, rank) == if st.firstTime then InitialBase(rank) else st.base
    ensures !HeaderOk(ph) ==> LoadSegment(st, f, ph, rank) == SegmentResult(st, AssertFailed)
    ensures HeaderOk(ph) ==>
              var base, r := CurrentBase(st, rank), LoadSegment(st, f, ph, rank);
              var m1, ok := MapFilePart(st.m, base, f, ph).0, MapFilePart(st.m, base, f, ph).1;
              var start := StartBss(base, ph);
              if !ok then r == SegmentResult(LoadState(m1, base, st.firstTime), MapFailed)
              else if !(ph.memsz > ph.filesz ==> CanWrite(m1.space, start, RoundUp(start))) then
                r == SegmentResult(LoadState(m1, base, st.firstTime), Fault)
              else r == MapBss(LoadState(m1.(space := Cleared(m1.space, base, ph)), base, st.firstTime), ph)
  {
    hide MapFilePart, Cleared, CanWrite, RoundUp, HeaderOk, MapBss, InitialBase, StartBss;
  }

  lemma BssPaths(st: LoadState, ph: Phdr)
    ensures var r, lo, hi := MapBss(st, ph), PageUp(StartBss(st.base, ph)), PageUp(EndBss(st.base, ph));
            if hi <= lo then
              SegmentAddr(st.base, ph) < WORD &&
              r == SegmentResult(LoadState(st.m, if st.firstTime then SegmentAddr(st.base, ph) else st.base, false),
                                 Placed)
            else
              var mapped := MapTracked(st.m, lo, hi - lo, SegmentProt(ph.flags), Anonymous);
              if !mapped.1 then r == SegmentResult(st.(m := mapped.0), MapFailed)
              else r == SegmentResult(LoadState(mapped.0, if st.firstTime then lo else st.base, false), Placed)
  {
    assert SegmentAddr(st.base, ph) < WORD by {
      RoundingIsTight((st.base + IntOf(ph.vaddr)) % WORD, 0);
    }
    hide SegmentProt, RoundUp, SegmentAddr, StartBss, EndBss, PageUp;
  }
}
