/** The 64-bit ELF header and program headers as chapters 4 and 5 of the System V gABI lay them out in a file. */
module ElfFormat {
  import opened Bytes
  import opened Loader
  import opened Memory
  import opened MmapWrapper
  import opened Pages

  type Half = h: int | 0 <= h < 0x1_0000
  type Int32 = w: int | 0 <= w < 0x1_0000_0000

  /** Elf64_Ehdr: the identification and all fields, in the order of the file. */
  datatype Ehdr = Ehdr(ident: seq<Byte>, etype: Half, machine: Half, version: Int32, entry: Word, phoff: Word,
                       shoff: Word, flags: Int32, ehsize: Half, phentsize: Half, phnum: Half, shentsize: Half,
                       shnum: Half, shstrndx: Half)

  /** Elf64_Phdr, p_paddr included. */
  datatype FilePhdr = FilePhdr(ptype: Int32, flags: Int32, offset: Word, vaddr: Word, paddr: Word, filesz: Word,
                               memsz: Word, align: Word)

  function EhdrBytes(h: Ehdr): seq<Byte> {
    h.ident + (LeBytes(h.etype, 2) + (LeBytes(h.machine, 2) + (LeBytes(h.version, 4)
    + (LeBytes(h.entry, 8) + (LeBytes(h.phoff, 8) + (LeBytes(h.shoff, 8) + (LeBytes(h.flags, 4)
    + (LeBytes(h.ehsize, 2) + (LeBytes(h.phentsize, 2) + (LeBytes(h.phnum, 2) + (LeBytes(h.shentsize, 2)
    + (LeBytes(h.shnum, 2) + LeBytes(h.shstrndx, 2)))))))))))))
  }

  function PhdrBytes(p: FilePhdr): (b: seq<Byte>)
    ensures |b| == 56
  {
    LeBytes(p.ptype, 4) + (LeBytes(p.flags, 4) + (LeBytes(p.offset, 8) + (LeBytes(p.vaddr, 8)
    + (LeBytes(p.paddr, 8) + (LeBytes(p.filesz, 8) + (LeBytes(p.memsz, 8) + LeBytes(p.align, 8)))))))
  }

  function TableBytes(ps: seq<FilePhdr>): (b: seq<Byte>)
    ensures |b| == 56 * |ps|
  {
    if ps == [] then [] else PhdrBytes(ps[0]) + TableBytes(ps[1..])
  }

  /** What the loader takes from a program header. */
  function Taken(p: FilePhdr): Phdr {
    Phdr(p.ptype, p.flags, p.offset, p.vaddr, p.filesz, p.memsz, p.align)
  }

  lemma TakeField(f: seq<Byte>, i: nat, v: nat, n: nat, rest: seq<Byte>)
    requires StandsAt(f, i, LeBytes(v, n) + rest) && v < Pow256(n)
    ensures i + n <= |f| && Field(f, i, n) == v && StandsAt(f, i + n, rest)
  {
    LeValueOfLeBytes(v, n);
    Split(f, i, LeBytes(v, n), rest);
  }

  lemma LastField(f: seq<Byte>, i: nat, v: nat, n: nat)
    requires StandsAt(f, i, LeBytes(v, n)) && v < Pow256(n)
    ensures i + n <= |f| && Field(f, i, n) == v
  {
    LeValueOfLeBytes(v, n);
  }

  lemma Split(f: seq<Byte>, i: nat, a: seq<Byte>, b: seq<Byte>)
    requires StandsAt(f, i, a + b)
    ensures StandsAt(f, i, a) && StandsAt(f, i + |a|, b)
  {
    assert f[i..i + |a|] == (a + b)[..|a|];
    assert f[i + |a|..i + |a| + |b|] == (a + b)[|a|..];
  }

  /** A program header written at i is read from there, field by field. */
  lemma PhdrReadBack(f: seq<Byte>, i: nat, p: FilePhdr)
    requires StandsAt(f, i, PhdrBytes(p))
    ensures i + PHDR_SIZE <= |f| && PhdrAt(f, i) == Taken(p)
  {
    hide LeBytes, StandsAt, Field;
    WordIsEightBytes();
    var r7 := LeBytes(p.align, 8);
    var r6 := LeBytes(p.memsz, 8) + r7;
    var r5 := LeBytes(p.filesz, 8) + r6;
    var r4 := LeBytes(p.paddr, 8) + r5;
    var r3 := LeBytes(p.vaddr, 8) + r4;
    var r2 := LeBytes(p.offset, 8) + r3;
    TakeField(f, i, p.ptype, 4, LeBytes(p.flags, 4) + r2);
    TakeField(f, i + 4, p.flags, 4, r2);
    TakeField(f, i + 8, p.offset, 8, r3);
    TakeField(f, i + 16, p.vaddr, 8, r4);
    TakeField(f, i + 24, p.paddr, 8, r5);
    TakeField(f, i + 32, p.filesz, 8, r6);
    TakeField(f, i + 40, p.memsz, 8, r7);
    LastField(f, i + 48, p.align, 8);
    WordFields(f, i);
  }

  lemma WordFields(f: seq<Byte>, i: nat)
    requires i + PHDR_SIZE <= |f|
    ensures PhdrAt(f, i) == Phdr(Field(f, i, 4), Field(f, i + 4, 4), Field(f, i + 8, 8), Field(f, i + 16, 8),
                                 Field(f, i + 32, 8), Field(f, i + 40, 8), Field(f, i + 48, 8))
  {
  }

  /** The fields of an ELF header at the beginning of the file. */
  lemma EhdrReadBack(f: seq<Byte>, h: Ehdr)
    requires |h.ident| == 16 && StandsAt(f, 0, EhdrBytes(h))
    ensures |f| >= 64 && f[..16] == h.ident
    ensures Field(f, 24, 8) == h.entry && Field(f, 32, 8) == h.phoff && Field(f, 56, 2) == h.phnum
  {
    hide LeBytes, Field;
    WordIsEightBytes();
    var r12 := LeBytes(h.shnum, 2) + LeBytes(h.shstrndx, 2);
    var r11 := LeBytes(h.shentsize, 2) + r12;
    var r10 := LeBytes(h.phnum, 2) + r11;
    var r9 := LeBytes(h.phentsize, 2) + r10;
    var r8 := LeBytes(h.ehsize, 2) + r9;
    var r7 := LeBytes(h.flags, 4) + r8;
    var r6 := LeBytes(h.shoff, 8) + r7;
    var r5 := LeBytes(h.phoff, 8) + r6;
    var r4 := LeBytes(h.entry, 8) + r5;
    var r3 := LeBytes(h.version, 4) + r4;
    var r2 := LeBytes(h.machine, 2) + r3;
    Split(f, 0, h.ident, LeBytes(h.etype, 2) + r2);
    hide StandsAt;
    TakeField(f, 16, h.etype, 2, r2);
    TakeField(f, 18, h.machine, 2, r3);
    TakeField(f, 20, h.version, 4, r4);
    TakeField(f, 24, h.entry, 8, r5);
    TakeField(f, 32, h.phoff, 8, r6);
    TakeField(f, 40, h.shoff, 8, r7);
    TakeField(f, 48, h.flags, 4, r8);
    TakeField(f, 52, h.ehsize, 2, r9);
    TakeField(f, 54, h.phentsize, 2, r10);
    TakeField(f, 56, h.phnum, 2, r11);
    TakeField(f, 58, h.shentsize, 2, r12);
    TakeField(f, 60, h.shnum, 2, LeBytes(h.shstrndx, 2));
    LastField(f, 62, h.shstrndx, 2);
  }

  lemma {:induction false} TableReadBack(f: seq<Byte>, at: nat, ps: seq<FilePhdr>, k: nat)
    requires StandsAt(f, at, TableBytes(ps)) && k < |ps|
    ensures at + 56 * k + PHDR_SIZE <= |f| && PhdrAt(f, at + 56 * k) == Taken(ps[k])
    decreases k
  {
    hide StandsAt, PhdrAt;
    Split(f, at, PhdrBytes(ps[0]), TableBytes(ps[1..]));
    if k == 0 {
      PhdrReadBack(f, at, ps[0]);
    } else {
      TableReadBack(f, at + 56, ps[1..], k - 1);
    }
  }

  /** The identification of a 64-bit ELF file. */
  predicate Is64BitElf(ident: seq<Byte>)
    requires |ident| == 16
  {
    ident[0] == 0x7f && ReadsAt(ident, 1, "ELF") && ident[4] == 2
  }

  /** The file begins with the header, and has the program headers where it says. */
  predicate WrittenAs(f: seq<Byte>, h: Ehdr, ps: seq<FilePhdr>) {
    && |h.ident| == 16 && h.phnum == |ps| && h.phoff < 0x8000_0000
    && StandsAt(f, 0, EhdrBytes(h)) && StandsAt(f, h.phoff, TableBytes(ps))
  }

  /**
   The loader reads what was written: a file is accepted if and only if it is identified as 64-bit ELF, and then entry
   point, table offset and count are those of the header, and the program headers are those of the table.
   */
  lemma ElfReadBack(f: seq<Byte>, h: Ehdr, ps: seq<FilePhdr>)
    requires WrittenAs(f, h, ps)
    ensures ElfHeaderOk(f) <==> Is64BitElf(h.ident)
    ensures ElfHeaderOk(f) ==>
              && EntryField(f) == h.entry && PhoffField(f) == h.phoff && PhnumField(f) == |ps|
              && TableComplete(f) && |HeadersFrom(f, 0)| == |ps|
              && forall k :: 0 <= k < |ps| ==> HeadersFrom(f, 0)[k] == Taken(ps[k])
  {
    hide *;
    TableEnds(f, h, ps);
    EhdrReadBack(f, h);
    IdentIs(f, h.ident);
    if ElfHeaderOk(f) {
      TableFound(f);
      forall k | 0 <= k < |ps| ensures HeadersFrom(f, 0)[k] == Taken(ps[k]) {
        TableReadBack(f, h.phoff, ps, k);
        HeaderNumber(f, k);
      }
    }
  }

  lemma TableEnds(f: seq<Byte>, h: Ehdr, ps: seq<FilePhdr>)
    requires WrittenAs(f, h, ps)
    ensures h.phoff + 56 * |ps| <= |f| && h.phoff < 0x8000_0000 && h.phnum == |ps|
    ensures |h.ident| == 16 && StandsAt(f, 0, EhdrBytes(h)) && StandsAt(f, h.phoff, TableBytes(ps))
  {
    hide EhdrBytes;
  }

  lemma TableFound(f: seq<Byte>)
    requires ElfHeaderOk(f)
    ensures EntryField(f) == Field(f, 24, 8) && PhoffField(f) == Field(f, 32, 8) && PhnumField(f) == Field(f, 56, 2)
    ensures PhoffField(f) < 0x8000_0000 ==> TableStart(f) == PhoffField(f)
    ensures TableStart(f) + 56 * PhnumField(f) <= |f| ==> TableComplete(f)
  {
    hide LeValue, Pow256;
    WordIsEightBytes();
  }

  /** An offset is taken for an int: its low 32 bits, or, where these are negative, the end of the ELF header. */
  lemma TableOffsetTruncated(f: seq<Byte>)
    requires ElfHeaderOk(f)
    ensures var low := PhoffField(f) % 0x1_0000_0000;
            TableStart(f) == if low < 0x8000_0000 then low else 64
  {
    hide PhoffField;
  }

  lemma HeaderNumber(f: seq<Byte>, k: nat)
    requires ElfHeaderOk(f) && TableComplete(f) && k < PhnumField(f)
    ensures TableStart(f) + 56 * k + PHDR_SIZE <= |f| && |HeadersFrom(f, 0)| == PhnumField(f)
    ensures HeadersFrom(f, 0)[k] == PhdrAt(f, TableStart(f) + 56 * k)
  {
    hide PhdrAt, PhnumField, TableStart;
  }

  lemma IdentIs(f: seq<Byte>, ident: seq<Byte>)
    requires |f| >= 64 && |ident| == 16 && f[..16] == ident
    ensures ElfHeaderOk(f) <==> Is64BitElf(ident)
  {
    assert forall i :: 0 <= i < 16 ==> f[i] == ident[i];
    if ReadsAt(ident, 1, "ELF") {
      var w := "ELF";
      assert ident[1 + 0] == w[0] as int && ident[1 + 1] == w[1] as int && ident[1 + 2] == w[2] as int;
    }
  }

  /** A permission bit of a segment, PF_R, PF_W or PF_X, is the like-named protection bit of its pages. */
  lemma SegmentProtBits(flags: nat)
    ensures var p := SegmentProt(flags);
            && (p % 2 == 1 <==> flags / 4 % 2 == 1) && (p / 2 % 2 == 1 <==> flags / 2 % 2 == 1)
            && (p / 4 % 2 == 1 <==> flags % 2 == 1) && p < 8
  {
  }

  /** Memory once the file has been loaded first thing. */
  ghost function SpaceLoaded(m: Machine, f: seq<Byte>, rank: nat): Space
    requires InitialBase(rank) < WORD && LoadableElf(f, rank)
  {
    LoadHeaders(LoadState(m, 0, true), f, HeadersFrom(f, 0), false, 0, rank).state.m.space
  }

  /** Byte i of the segment: that of the file, or zero from p_filesz on, with the permissions of p_flags. */
  predicate SegmentByteAt(t: Space, x: nat, f: seq<Byte>, p: FilePhdr, i: nat) {
    && x in t && p.offset + p.filesz <= |f|
    && t[x].value == (if i < p.filesz then f[p.offset + i] else 0)
    && (t[x].prot % 2 == 1 <==> p.flags / 4 % 2 == 1)
    && (t[x].prot / 2 % 2 == 1 <==> p.flags / 2 % 2 == 1)
    && (t[x].prot / 4 % 2 == 1 <==> p.flags % 2 == 1)
  }

  /**
   From the bytes of the file to memory: where a file written with these headers is loaded for a rank, every byte of
   every loadable segment is in memory, three quarters into the rank's 4GB and p_vaddr on from there.
   */
  lemma WrittenSegmentLoaded(m: Machine, f: seq<Byte>, h: Ehdr, ps: seq<FilePhdr>, rank: nat, k: nat, i: nat)
    requires InitialBase(rank) < WORD && WrittenAs(f, h, ps) && LoadableElf(f, rank) && m.refusals == []
    requires k < |ps| && ps[k].ptype == 1 && i < ps[k].memsz
    ensures SegmentByteAt(SpaceLoaded(m, f, rank), 0x1_0000_0000 * (rank + 1) + 0xC000_0000 + ps[k].vaddr + i,
                          f, ps[k], i)
  {
    hide *;
    LoadableAccepted(f, rank);
    var base, phs := InitialBase(rank), HeadersFrom(f, 0);
    GrantedInTurn([], Asked(base, phs), 0);
    ElfReadBack(f, h, ps);
    ElfLoadCorrect(m, f, rank);
    BaseIs(rank);
    SpaceLoadedIs(m, f, rank);
    SegmentAt(SpaceLoaded(m, f, rank), f, base, phs, k, ps[k], i);
  }

  lemma SpaceLoadedIs(m: Machine, f: seq<Byte>, rank: nat)
    requires InitialBase(rank) < WORD && LoadableElf(f, rank) && ElfHeaderOk(f) && TableComplete(f)
    ensures SpaceLoaded(m, f, rank) ==
            LoadHeaders(LoadState(m, 0, true), f, HeadersFrom(f, 0), false, 0, rank).state.m.space
  {
    hide LoadHeaders, HeadersFrom, LoadableElf;
  }

  lemma LoadableAccepted(f: seq<Byte>, rank: nat)
    requires InitialBase(rank) < WORD && LoadableElf(f, rank)
    ensures ElfHeaderOk(f) && TableComplete(f)
  {
    hide HeadersFrom, LoadsOk, HasLoad, FirstLoadKeepsBase;
  }

  lemma BaseIs(rank: nat)
    ensures InitialBase(rank) == 0x1_0000_0000 * (rank + 1) + 0xC000_0000
  {
  }

  lemma SegmentAt(t: Space, f: seq<Byte>, base: nat, phs: seq<Phdr>, k: nat, p: FilePhdr, i: nat)
    requires AllLoaded(t, f, base, phs) && k < |phs| && phs[k] == Taken(p) && p.ptype == 1 && i < p.memsz
    ensures SegmentByteAt(t, base + p.vaddr + i, f, p, i)
  {
    SegmentProtBits(p.flags);
    hide SegmentProt;
    assert SegmentLoaded(t, f, base, phs[k]) && Covers(base + p.vaddr, p.memsz, base + p.vaddr + i);
  }
}
