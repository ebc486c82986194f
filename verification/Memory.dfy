/**
 The operating-system memory model: an address space is a map from mapped
 addresses to bytes with a protection, and mmap/mprotect act on whole pages.
 */
module Memory {
  import opened Bytes
  import opened Pages

  const PROT_NONE: nat := 0
  const PROT_READ: nat := 1
  const PROT_WRITE: nat := 2
  const PROT_EXEC: nat := 4

  predicate Readable(prot: nat) {
    prot % 2 == 1
  }

  predicate Writable(prot: nat) {
    prot / 2 % 2 == 1
  }

  /** prot | PROT_WRITE */
  function WithWrite(prot: nat): (p: nat)
    ensures Writable(p) && Readable(p) == Readable(prot) && p / 4 == prot / 4
  {
    BitsOf(prot);
    if Writable(prot) then prot else prot + PROT_WRITE
  }

  lemma BitsOf(prot: nat)
    ensures !Writable(prot) ==>
              && (prot + PROT_WRITE) % 2 == prot % 2 && (prot + PROT_WRITE) / 4 == prot / 4
              && (prot + PROT_WRITE) / 2 % 2 == 1
  {
    var q, r := prot / 4, prot % 4;
    assert prot == 4 * q + r;
    assert r / 2 == prot / 2 % 2;
  }

  /** mmap looks only at the three protection bits; mprotect refuses any other. */
  predicate ValidProt(prot: nat) {
    prot < 8
  }

  datatype Cell = Cell(value: Byte, prot: nat)

  type Space = map<nat, Cell>

  /** Mapped memory comes in whole pages of one protection each. */
  ghost predicate WholePages(s: Space) {
    && (forall a, b :: a in s && SamePage(a, b) ==> b in s && s[b].prot == s[a].prot)
    && (forall a :: a in s ==> a < WORD - PAGE_SIZE && ValidProt(s[a].prot))
  }

  ghost predicate Free(s: Space, lo: nat, hi: nat) {
    forall a :: lo <= a < hi ==> a !in s
  }

  ghost predicate MappedWith(s: Space, lo: nat, hi: nat, prot: nat) {
    forall a :: lo <= a < hi ==> a in s && s[a].prot == prot
  }

  /** Everything mapped in s is still there in t, bytes and protections alike. */
  ghost predicate Extends(t: Space, s: Space) {
    forall a :: a in s ==> a in t && t[a] == s[a]
  }

  /** t maps what s maps and n addresses from `at` on, and no others. */
  ghost predicate OnlyAdds(t: Space, s: Space, at: nat, n: nat) {
    forall a: nat :: a in t <==> a in s || Covers(at, n, a)
  }

  /** s and t agree outside [lo, hi). */
  ghost predicate SameOutside(s: Space, t: Space, lo: nat, hi: nat) {
    forall a :: !(lo <= a < hi) ==> (a in s <==> a in t) && (a in s ==> t[a] == s[a])
  }

  function CellOf(data: seq<Byte>, addr: nat, a: nat, prot: nat): Cell
    requires addr <= a < addr + |data|
  {
    Cell(data[a - addr], prot)
  }

  /** Replaces whatever was mapped at [addr, addr + |data|) by data with the given protection. */
  function Place(s: Space, addr: nat, data: seq<Byte>, prot: nat): Space {
    s + map a: nat | addr <= a < addr + |data| :: CellOf(data, addr, a, prot)
  }

  /** Stores data into mapped memory. */
  function Store(s: Space, addr: nat, data: seq<Byte>): Space {
    s + map a: nat | addr <= a < addr + |data| && a in s :: CellOf(data, addr, a, s[a].prot)
  }

  function Protect(s: Space, lo: nat, hi: nat, prot: nat): Space {
    s + map a: nat | lo <= a < hi && a in s :: Cell(s[a].value, prot)
  }

  ghost predicate Mapped(s: Space, lo: nat, hi: nat) {
    forall a :: lo <= a < hi ==> a in s
  }

  function Load(s: Space, addr: nat, n: nat): (data: seq<Byte>)
    requires Mapped(s, addr, addr + n)
    ensures |data| == n && forall i :: 0 <= i < n ==> data[i] == s[addr + i].value
  {
    seq<Byte>(n, i requires 0 <= i < n => assert addr + i in s; s[addr + i].value)
  }

  /** What backs a mapping: zero pages, or a file read from an offset (zero past its end). */
  datatype Backing = Anonymous | FileAt(bytes: seq<Byte>, offset: nat)

  function BackingBytes(src: Backing, n: nat): (data: seq<Byte>)
    ensures |data| == n
  {
    match src
    case Anonymous => Zeros(n)
    case FileAt(f, off) => seq<Byte>(n, i requires 0 <= i < n => if off + i < |f| then f[off + i] else 0)
  }

  /** The argument checks of mmap(MAP_FIXED): EINVAL, EPERM and ENOMEM without memory pressure. */
  predicate MmapArgsOk(addr: nat, len: nat) {
    && 0 < len
    && Aligned(addr)
    && MMAP_MIN_ADDR <= addr
    && len <= TASK_SIZE
    && addr + RoundUp(len) <= TASK_SIZE
  }

  /** A place between two bounds that a mapping of len bytes fits into. */
  predicate FitsBetween(addr: nat, len: nat, low: nat, high: nat) {
    MmapArgsOk(addr, len) && low <= addr && addr + RoundUp(len) <= high
  }

  /** Some run of free pages between the bounds is long enough. */
  ghost predicate HasRoom(s: Space, low: nat, high: nat, len: nat) {
    exists addr: nat :: FitsBetween(addr, len, low, high) && Free(s, addr, addr + RoundUp(len))
  }

  /** The lowest place from `low` on. */
  function FirstPlace(low: nat): (addr: nat)
    ensures Aligned(addr) && low <= addr && MMAP_MIN_ADDR <= addr
    ensures forall a: nat, len: nat, high: nat :: FitsBetween(a, len, low, high) ==> addr <= a
  {
    RoundingIsTight(low, 0);
    assert forall a: nat :: Aligned(a) && low <= a ==> RoundUp(low) <= a;
    if low < MMAP_MIN_ADDR then MMAP_MIN_ADDR else RoundUp(low)
  }

  lemma PageInsideOrOutside(lo: nat, hi: nat, a: nat, b: nat)
    requires Aligned(lo) && Aligned(hi) && SamePage(a, b)
    ensures lo <= a < hi <==> lo <= b < hi
  {
  }

  lemma PlaceKeepsWholePages(s: Space, addr: nat, data: seq<Byte>, prot: nat)
    requires WholePages(s) && Aligned(addr) && Aligned(|data|) && ValidProt(prot) && addr + |data| <= TASK_SIZE
    ensures WholePages(Place(s, addr, data, prot))
  {
    var t := Place(s, addr, data, prot);
    forall a, b | a in t && SamePage(a, b) ensures b in t && t[b].prot == t[a].prot {
      PageInsideOrOutside(addr, addr + |data|, a, b);
    }
  }

  lemma StoreKeepsWholePages(s: Space, addr: nat, data: seq<Byte>)
    requires WholePages(s)
    ensures WholePages(Store(s, addr, data))
  {
    var t := Store(s, addr, data);
    assert t.Keys == s.Keys && forall a :: a in s ==> t[a].prot == s[a].prot;
  }

  lemma ProtectKeepsWholePages(s: Space, lo: nat, hi: nat, prot: nat)
    requires WholePages(s) && Aligned(lo) && Aligned(hi) && ValidProt(prot)
    ensures WholePages(Protect(s, lo, hi, prot))
  {
    var t := Protect(s, lo, hi, prot);
    assert t.Keys == s.Keys;
    forall a, b | a in t && SamePage(a, b) ensures b in t && t[b].prot == t[a].prot {
      PageInsideOrOutside(lo, hi, a, b);
    }
  }

  /**
   A range free of mapped bytes stays free when its end is rounded up to a page: the reason an
   unrounded overlap test is enough before a mapping that the kernel rounds.
   */
  lemma FreeUpToPage(s: Space, addr: nat, n: nat)
    requires WholePages(s) && Aligned(addr) && 0 < n && Free(s, addr, addr + n)
    ensures Free(s, addr, RoundUp(addr + n))
  {
    forall b | addr <= b < RoundUp(addr + n) ensures b !in s {
      if addr + n <= b {
        TailSharesPage(addr, n, b);
        assert SamePage(b, addr + n - 1);
        assert addr + n - 1 !in s;
      }
    }
  }

  /**
   One process's memory. `refusals` schedules memory pressure: each mmap call takes the next entry,
   true meaning that the kernel answers ENOMEM; an empty schedule refuses nothing. Mappings that name no
   address are placed between `low` and `high`.
   */
  class AddressSpace {
    const low: nat
    const high: nat
    var space: Space
    var refusals: seq<bool>

    ghost predicate Valid()
      reads this
    {
      WholePages(space)
    }

    constructor (space: Space, refusals: seq<bool>, low: nat, high: nat)
      requires WholePages(space)
      ensures Valid() && this.space == space && this.refusals == refusals && this.low == low && this.high == high
    {
      this.space, this.refusals, this.low, this.high := space, refusals, low, high;
    }

    method TakeRefusal() returns (refused: bool)
      modifies this`refusals
      ensures refused == Refused(old(refusals)) && refusals == NextRefusals(old(refusals))
    {
      refused := Refused(refusals);
      refusals := NextRefusals(refusals);
    }

    /** mmap with MAP_FIXED; false stands for MAP_FAILED. */
    method MmapFixed(addr: nat, len: nat, prot: nat, src: Backing) returns (ok: bool)
      requires Valid()
      modifies this
      ensures Valid()
      ensures ok == (MmapArgsOk(addr, len) && !Refused(old(refusals)))
      ensures refusals == NextRefusals(old(refusals))
      ensures space == if ok then Place(old(space), addr, BackingBytes(src, RoundUp(len)), prot % 8) else old(space)
    {
      var refused := TakeRefusal();
      ok := MmapArgsOk(addr, len) && !refused;
      if ok {
        PlaceKeepsWholePages(space, addr, BackingBytes(src, RoundUp(len)), prot % 8);
        space := Place(space, addr, BackingBytes(src, RoundUp(len)), prot % 8);
      }
    }

    /** mmap without MAP_FIXED: zero pages at some free place of the kernel's choosing, or none. */
    method MmapAnywhere(len: nat, prot: nat) returns (addr: nat, ok: bool)
      requires Valid()
      modifies this
      ensures Valid() && refusals == NextRefusals(old(refusals))
      ensures ok <==> !Refused(old(refusals)) && HasRoom(old(space), low, high, len)
      ensures ok ==> FitsBetween(addr, len, low, high) && Free(old(space), addr, addr + RoundUp(len))
      ensures space == if ok then Place(old(space), addr, Zeros(RoundUp(len)), prot % 8) else old(space)
    {
      hide RoundUp, Place, WholePages;
      var refused := TakeRefusal();
      addr, ok := FirstPlace(low), false;
      while !refused && FitsBetween(addr, len, low, high)
        invariant Aligned(addr) && addr >= FirstPlace(low) && space == old(space) && !ok
        invariant forall a: nat :: FitsBetween(a, len, low, high) && a < addr ==> !Free(space, a, a + RoundUp(len))
        decreases TASK_SIZE - addr
      {
        if forall a: nat :: addr <= a < addr + RoundUp(len) ==> a !in space {
          RoundingIsTight(len, 0);
          PlaceKeepsWholePages(space, addr, Zeros(RoundUp(len)), prot % 8);
          space := Place(space, addr, Zeros(RoundUp(len)), prot % 8);
          ok := true;
          return;
        }
        addr := addr + PAGE_SIZE;
      }
    }

    /** mprotect; false stands for -1. Pages must be mapped. */
    method Mprotect(addr: nat, len: nat, prot: nat) returns (ok: bool)
      requires Valid()
      modifies this`space
      ensures Valid()
      ensures ok ==> ValidProt(prot) && Aligned(addr)
      ensures ValidProt(prot) && Aligned(addr) && Mapped(old(space), addr, RoundUp(addr + len)) ==> ok
      ensures space == if ok then Protect(old(space), addr, RoundUp(addr + len), prot) else old(space)
    {
      ok := ValidProt(prot) && Aligned(addr)
            && forall a: nat :: addr <= a < RoundUp(addr + len) ==> a in space;
      if ok {
        ProtectKeepsWholePages(space, addr, RoundUp(addr + len), prot);
        space := Protect(space, addr, RoundUp(addr + len), prot);
      }
    }

    /** A store by running code into mapped memory. */
    method Write(addr: nat, data: seq<Byte>)
      requires Valid() && Mapped(space, addr, addr + |data|)
      modifies this`space
      ensures Valid() && space == Store(old(space), addr, data)
    {
      StoreKeepsWholePages(space, addr, data);
      space := Store(space, addr, data);
    }
  }

  predicate Refused(refusals: seq<bool>) {
    |refusals| > 0 && refusals[0]
  }

  function NextRefusals(refusals: seq<bool>): seq<bool> {
    if |refusals| > 0 then refusals[1..] else refusals
  }
}
