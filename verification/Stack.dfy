/** Relocation of the initial process stack: deepCopyStack and patchAuxv of kernel-loader.c. */
module Stack {
  import opened Bytes
  import opened Pages
  import opened ProcMaps

  const AT_NULL: nat := 0
  const AT_PHDR: nat := 3
  const AT_PHNUM: nat := 5
  const AT_ENTRY: nat := 9

  /** "UH_PRELOAD" */
  const UH_PRELOAD: seq<Byte> := [85, 72, 95, 80, 82, 69, 76, 79, 65, 68]
  /** "LD_PRELOAD" */
  const LD_PRELOAD: seq<Byte> := [76, 68, 95, 80, 82, 69, 76, 79, 65, 68]
  const LETTER_L: Byte := 76
  const LETTER_D: Byte := 68

  // ---------------------------------------------------------------- words and strings in memory

  function Load64(m: seq<Byte>, at: nat): Word
    requires at + 8 <= |m|
  {
    WordIsEightBytes();
    LeValue(m[at..at + 8])
  }

  function Store64(m: seq<Byte>, at: nat, v: Word): (r: seq<Byte>)
    requires at + 8 <= |m|
    ensures |r| == |m|
  {
    m[..at] + LeBytes(v, 8) + m[at + 8..]
  }

  /** The C string at an offset. */
  function StrAt(m: seq<Byte>, at: nat): seq<Byte>
    requires at <= |m|
  {
    CString(m[at..])
  }

  /** The string at an offset ends, with its NUL, inside the memory. */
  predicate Terminated(m: seq<Byte>, at: nat) {
    at < |m| && at + |StrAt(m, at)| < |m|
  }

  lemma StoreThenLoad(m: seq<Byte>, at: nat, v: Word)
    requires at + 8 <= |m|
    ensures Load64(Store64(m, at, v), at) == v
    ensures forall x :: 0 <= x < |m| && !(at <= x < at + 8) ==> Store64(m, at, v)[x] == m[x]
  {
    WordIsEightBytes();
    LeValueOfLeBytes(v, 8);
    assert Store64(m, at, v)[at..at + 8] == LeBytes(v, 8);
  }

  /** a and b agree on [lo, hi). */
  ghost predicate SameOn(a: seq<Byte>, b: seq<Byte>, lo: nat, hi: nat) {
    |a| == |b| && forall x :: lo <= x < hi && x < |a| ==> a[x] == b[x]
  }

  lemma SameWord(a: seq<Byte>, b: seq<Byte>, at: nat)
    requires SameOn(a, b, at, at + 8) && at + 8 <= |a|
    ensures Load64(a, at) == Load64(b, at)
  {
    assert a[at..at + 8] == b[at..at + 8];
  }

  lemma {:induction false} SameString(a: seq<Byte>, b: seq<Byte>, at: nat)
    requires Terminated(a, at) && SameOn(a, b, at, at + |StrAt(a, at)| + 1)
    ensures StrAt(b, at) == StrAt(a, at) && Terminated(b, at)
    decreases |a| - at
  {
    assert a[at..][0] == a[at] && b[at..][0] == b[at];
    if a[at] != 0 {
      assert a[at..][1..] == a[at + 1..] && b[at..][1..] == b[at + 1..];
      SameString(a, b, at + 1);
    }
  }

  // ---------------------------------------------------------------- the layout

  /**
   The process stack of the System V AMD64 psABI, section 3.4, as offsets in its region: argc one word above `end`,
   then argv, the environment, the auxiliary vector, and above those the strings. The original region begins at
   `oldBase`, the copy at `newBase`; `target` is the address of the TARGET_LD value.
   */
  datatype Layout = Layout(oldBase: nat, newBase: nat, end: nat, argc: nat, envc: nat, auxc: nat, target: nat)
  {
    function Argv(): nat { end + 16 }
    function Env(): nat { Argv() + 8 * (argc + 1) }
    function Auxv(): nat { Env() + 8 * (envc + 1) }
    function Strings(): nat { Auxv() + 16 * (auxc + 1) }
  }

  /** A pointer into the original region's strings. */
  predicate StringPtr(m: seq<Byte>, l: Layout, p: nat) {
    l.oldBase + l.Strings() <= p && Terminated(m, p - l.oldBase)
  }

  predicate LayoutOk(m: seq<Byte>, l: Layout) {
    && 0 < l.oldBase && l.oldBase + |m| < WORD && 0 < l.newBase && l.newBase + |m| < WORD
    && l.Strings() <= |m| && 0 < l.argc < 0x8000_0000
    && LeValue(m[l.end + 8..l.end + 12]) == l.argc
    && (forall i :: 0 <= i < l.argc ==> Ptr(m, l.Argv(), i) != 0) && Ptr(m, l.Argv(), l.argc) == 0
    && (forall i :: 0 <= i < l.envc ==> Ptr(m, l.Env(), i) != 0) && Ptr(m, l.Env(), l.envc) == 0
    && (forall i :: 0 <= i < l.auxc ==> AuxType(m, l.Auxv(), i) != 0) && AuxType(m, l.Auxv(), l.auxc) == 0
  }

  /** All strings lie above the vectors and end in the region. */
  predicate StringsOk(m: seq<Byte>, l: Layout)
    requires LayoutOk(m, l)
  {
    && (forall i :: 0 <= i < l.argc ==> StringPtr(m, l, Ptr(m, l.Argv(), i)))
    && (forall i :: 0 <= i < l.envc ==> StringPtr(m, l, Ptr(m, l.Env(), i)))
    && StringPtr(m, l, l.target)
  }

  /** Word i of a pointer vector. */
  function Ptr(m: seq<Byte>, vec: nat, i: nat): Word
    requires vec + 8 * i + 8 <= |m|
  {
    Load64(m, vec + 8 * i)
  }

  function AuxType(m: seq<Byte>, auxv: nat, i: nat): Word
    requires auxv + 16 * i + 8 <= |m|
  {
    Load64(m, auxv + 16 * i)
  }

  function AuxValue(m: seq<Byte>, auxv: nat, i: nat): Word
    requires auxv + 16 * i + 16 <= |m|
  {
    Load64(m, auxv + 16 * i + 8)
  }

  // ---------------------------------------------------------------- the steps, as functions

  /** newVec + (p - oldVec), in 64-bit pointer arithmetic. */
  function Relocate(p: Word, oldVec: nat, newVec: nat): Word {
    (newVec + (p - oldVec)) % WORD
  }

  /** The first n words of a vector at `vec`, each relocated from its value in the original stack. */
  function RelocateVector(m: seq<Byte>, orig: seq<Byte>, vec: nat, n: nat, oldVec: nat, newVec: nat): (r: seq<Byte>)
    requires |m| == |orig| && vec + 8 * n <= |m|
    ensures |r| == |m|
  {
    if n == 0 then m
    else
      Store64(RelocateVector(m, orig, vec, n - 1, oldVec, newVec), vec + 8 * (n - 1),
              Relocate(Ptr(orig, vec, n - 1), oldVec, newVec))
  }

  /** Entry i of an environment vector points at a string inside the region at address `region`. */
  predicate EntryInside(m: seq<Byte>, env: nat, region: nat, i: nat) {
    env + 8 * i + 8 <= |m| && region <= Ptr(m, env, i) && Terminated(m, Ptr(m, env, i) - region)
  }

  function EnvString(m: seq<Byte>, env: nat, region: nat, i: nat): seq<Byte>
    requires EntryInside(m, env, region, i)
  {
    StrAt(m, Ptr(m, env, i) - region)
  }

  predicate EnvInside(m: seq<Byte>, env: nat, n: nat, region: nat) {
    env + 8 * n <= |m| && forall i :: 0 <= i < n ==> EntryInside(m, env, region, i)
  }

  /** strstr(s, "UH_PRELOAD") */
  predicate NamesPreload(s: seq<Byte>) {
    StrStr(s, UH_PRELOAD)
  }

  /** The first entry from i on that contains UH_PRELOAD; n if none does. */
  function FindPreload(m: seq<Byte>, env: nat, n: nat, region: nat, i: nat): (k: nat)
    requires EnvInside(m, env, n, region) && i <= n
    ensures i <= k <= n
    ensures k < n ==> NamesPreload(EnvString(m, env, region, k))
    ensures forall j :: i <= j < k ==> !NamesPreload(EnvString(m, env, region, j))
    decreases n - i
  {
    hide StrStr, EntryInside, StrAt;
    if i == n || NamesPreload(EnvString(m, env, region, i)) then i else FindPreload(m, env, n, region, i + 1)
  }

  lemma {:induction false} FoundStringIsLong(s: seq<Byte>)
    requires NamesPreload(s)
    ensures |s| >= 10
  {
    if !IsPrefix(UH_PRELOAD, s) {
      FoundStringIsLong(s[1..]);
    }
  }

  /** The first entry that contains UH_PRELOAD has its first two characters set to "LD". */
  function RenamePreload(m: seq<Byte>, env: nat, n: nat, region: nat): (r: seq<Byte>)
    requires EnvInside(m, env, n, region)
    ensures |r| == |m|
  {
    var k := FindPreload(m, env, n, region, 0);
    if k == n then m
    else
      FoundStringIsLong(EnvString(m, env, region, k));
      var at := Ptr(m, env, k) - region;
      m[at := LETTER_L][at + 1 := LETTER_D]
  }

  /** What the loaded image tells the new auxiliary vector. */
  datatype ImageInfo = ImageInfo(phnum: Word, phdr: Word, entry: Word)

  function PatchedValue(info: ImageInfo, atype: Word, value: Word): Word {
    if atype == AT_PHNUM then info.phnum
    else if atype == AT_PHDR then info.phdr
    else if atype == AT_ENTRY then info.entry
    else value
  }

  /** patchAuxv on the first n entries. */
  function PatchAuxv(m: seq<Byte>, auxv: nat, n: nat, info: ImageInfo): (r: seq<Byte>)
    requires auxv + 16 * n <= |m|
    ensures |r| == |m|
  {
    if n == 0 then m
    else
      var r := PatchAuxv(m, auxv, n - 1, info);
      Store64(r, auxv + 16 * (n - 1) + 8, PatchedValue(info, AuxType(r, auxv, n - 1), AuxValue(r, auxv, n - 1)))
  }

  // ---------------------------------------------------------------- what each step does

  lemma {:induction false} RelocateVectorResult(m: seq<Byte>, orig: seq<Byte>, vec: nat, n: nat, oldVec: nat,
                                                newVec: nat)
    requires |m| == |orig| && vec + 8 * n <= |m|
    ensures var r := RelocateVector(m, orig, vec, n, oldVec, newVec);
            && (forall i :: 0 <= i < n ==> Ptr(r, vec, i) == Relocate(Ptr(orig, vec, i), oldVec, newVec))
            && SameOn(r, m, 0, vec) && SameOn(r, m, vec + 8 * n, |m|)
  {
    if n > 0 {
      RelocateVectorResult(m, orig, vec, n - 1, oldVec, newVec);
      var prior := RelocateVector(m, orig, vec, n - 1, oldVec, newVec);
      var r := RelocateVector(m, orig, vec, n, oldVec, newVec);
      StoreThenLoad(prior, vec + 8 * (n - 1), Relocate(Ptr(orig, vec, n - 1), oldVec, newVec));
      forall i | 0 <= i < n ensures Ptr(r, vec, i) == Relocate(Ptr(orig, vec, i), oldVec, newVec) {
        if i < n - 1 {
          SameWord(r, prior, vec + 8 * i);
        }
      }
    }
  }

  lemma {:induction false} PatchAuxvResult(m: seq<Byte>, auxv: nat, n: nat, info: ImageInfo)
    requires auxv + 16 * n <= |m|
    ensures var r := PatchAuxv(m, auxv, n, info);
            && (forall i :: 0 <= i < n ==> EntryPatched(r, m, auxv, i, info))
            && SameOn(r, m, 0, auxv) && SameOn(r, m, auxv + 16 * n, |m|)
  {
    hide EntryPatched, PatchedValue, Load64, Store64;
    if n > 0 {
      PatchAuxvResult(m, auxv, n - 1, info);
      var prior, r, k := PatchAuxv(m, auxv, n - 1, info), PatchAuxv(m, auxv, n, info), n - 1;
      PatchEntry(prior, m, auxv, k, info);
      forall i | 0 <= i < k ensures EntryPatched(r, m, auxv, i, info) {
        EntryStays(r, prior, m, auxv, i, info);
      }
    }
  }

  /** Entry i keeps its type, and its value is the one for that type. */
  predicate EntryPatched(r: seq<Byte>, m: seq<Byte>, auxv: nat, i: nat, info: ImageInfo)
    requires auxv + 16 * i + 16 <= |m| == |r|
  {
    && AuxType(r, auxv, i) == AuxType(m, auxv, i)
    && AuxValue(r, auxv, i) == PatchedValue(info, AuxType(m, auxv, i), AuxValue(m, auxv, i))
  }

  lemma PatchEntry(prior: seq<Byte>, m: seq<Byte>, auxv: nat, k: nat, info: ImageInfo)
    requires |prior| == |m| && auxv + 16 * k + 16 <= |m| && SameOn(prior, m, auxv + 16 * k, |m|)
    ensures var at := auxv + 16 * k + 8;
            var r := Store64(prior, at, PatchedValue(info, AuxType(prior, auxv, k), AuxValue(prior, auxv, k)));
            EntryPatched(r, m, auxv, k, info) && SameOn(r, prior, 0, at) && SameOn(r, prior, at + 8, |m|)
  {
    hide PatchedValue, Load64, Store64;
    SameWord(prior, m, auxv + 16 * k);
    SameWord(prior, m, auxv + 16 * k + 8);
    var r := Store64(prior, auxv + 16 * k + 8, PatchedValue(info, AuxType(prior, auxv, k), AuxValue(prior, auxv, k)));
    StoreThenLoad(prior, auxv + 16 * k + 8, PatchedValue(info, AuxType(prior, auxv, k), AuxValue(prior, auxv, k)));
    SameWord(r, prior, auxv + 16 * k);
  }

  lemma EntryStays(r: seq<Byte>, prior: seq<Byte>, m: seq<Byte>, auxv: nat, i: nat, info: ImageInfo)
    requires auxv + 16 * i + 16 <= |m| == |prior| == |r|
    requires EntryPatched(prior, m, auxv, i, info) && SameOn(r, prior, auxv + 16 * i, auxv + 16 * i + 16)
    ensures EntryPatched(r, m, auxv, i, info)
  {
    hide PatchedValue, Load64;
    SameWord(r, prior, auxv + 16 * i);
    SameWord(r, prior, auxv + 16 * i + 8);
  }

  /** A relocated string pointer lands at the same offset of the new region. */
  lemma RelocatedOffset(l: Layout, p: Word, vec: nat, len: nat)
    requires l.oldBase <= p < l.oldBase + len && l.oldBase + len < WORD && l.newBase + len < WORD
    ensures Relocate(p, l.oldBase + vec, l.newBase + vec) == l.newBase + (p - l.oldBase)
  {
    assert l.newBase + vec + (p - (l.oldBase + vec)) == l.newBase + (p - l.oldBase);
  }

  // ---------------------------------------------------------------- the whole copy

  /** The copied stack after its argv and environment vectors were rewritten. */
  function Relocated(m: seq<Byte>, l: Layout): (r: seq<Byte>)
    requires LayoutOk(m, l) && l.target < WORD
    ensures |r| == |m|
  {
    var argv := RelocateVector(m, m, l.Argv(), l.argc, l.oldBase + l.Argv(), l.newBase + l.Argv());
    var targeted := Store64(argv, l.Argv(), Relocate(l.target, l.oldBase + l.Argv(), l.newBase + l.Argv()));
    RelocateVector(targeted, m, l.Env(), l.envc, l.oldBase + l.Env(), l.newBase + l.Env())
  }

  /** Address p of the original region, moved to the new one. */
  function Moved(l: Layout, p: nat): nat
    requires l.oldBase <= p
  {
    l.newBase + (p - l.oldBase)
  }

  /** What argument i of the new stack stands for: the original argument, except that argument 0 is TARGET_LD. */
  function ArgOf(m: seq<Byte>, l: Layout, i: nat): nat
    requires LayoutOk(m, l) && i < l.argc
  {
    if i == 0 then l.target else Ptr(m, l.Argv(), i)
  }

  lemma ArgvRelocated(m: seq<Byte>, l: Layout, i: nat)
    requires LayoutOk(m, l) && StringsOk(m, l) && i < l.argc
    ensures l.target < WORD && l.oldBase <= ArgOf(m, l, i)
    ensures Ptr(Relocated(m, l), l.Argv(), i) == Moved(l, ArgOf(m, l, i))
  {
    hide StrAt, Load64, Store64, Terminated, LayoutOk, StringsOk, StringPtr, Relocate, RelocateVector, Relocated;
    StringPtrs(m, l);
    RelocatedIs(m, l);
    VectorsFit(m, l);
    var from, to := l.oldBase + l.Argv(), l.newBase + l.Argv();
    var argv := RelocateVector(m, m, l.Argv(), l.argc, from, to);
    var targeted := Store64(argv, l.Argv(), Relocate(l.target, from, to));
    var r := Relocated(m, l);
    RelocateVectorResult(m, m, l.Argv(), l.argc, from, to);
    StoreThenLoad(argv, l.Argv(), Relocate(l.target, from, to));
    RelocateVectorResult(targeted, m, l.Env(), l.envc, l.oldBase + l.Env(), l.newBase + l.Env());
    RelocatedOffset(l, ArgOf(m, l, i), l.Argv(), |m|);
    SameWord(r, targeted, l.Argv() + 8 * i);
    if i > 0 {
      SameWord(targeted, argv, l.Argv() + 8 * i);
    }
  }

  lemma EnvRelocated(m: seq<Byte>, l: Layout, i: nat)
    requires LayoutOk(m, l) && StringsOk(m, l) && i < l.envc
    ensures l.target < WORD && l.oldBase <= Ptr(m, l.Env(), i)
    ensures Ptr(Relocated(m, l), l.Env(), i) == Moved(l, Ptr(m, l.Env(), i))
  {
    hide StrAt, Load64, Store64, Terminated, LayoutOk, StringsOk, StringPtr, Relocate, RelocateVector, Relocated;
    StringPtrs(m, l);
    RelocatedIs(m, l);
    VectorsFit(m, l);
    var from, to := l.oldBase + l.Argv(), l.newBase + l.Argv();
    var targeted := Store64(RelocateVector(m, m, l.Argv(), l.argc, from, to), l.Argv(), Relocate(l.target, from, to));
    RelocateVectorResult(targeted, m, l.Env(), l.envc, l.oldBase + l.Env(), l.newBase + l.Env());
    RelocatedOffset(l, Ptr(m, l.Env(), i), l.Env(), |m|);
  }

  /** Bounds of the string pointers. */
  lemma StringPtrs(m: seq<Byte>, l: Layout)
    requires LayoutOk(m, l) && StringsOk(m, l)
    ensures l.oldBase + l.Strings() <= l.target < l.oldBase + |m| < WORD && l.newBase + |m| < WORD
    ensures forall i :: 0 <= i < l.argc ==> l.oldBase + l.Strings() <= Ptr(m, l.Argv(), i) < l.oldBase + |m|
    ensures forall i :: 0 <= i < l.envc ==> l.oldBase + l.Strings() <= Ptr(m, l.Env(), i) < l.oldBase + |m|
  {
    hide StrAt, Load64;
    assert StringPtr(m, l, l.target);
  }

  /** Only the two vectors change: not the terminators, not what lies below argv or from the auxiliary vector on. */
  lemma RelocationFrame(m: seq<Byte>, l: Layout)
    requires LayoutOk(m, l) && l.target < WORD
    ensures var r := Relocated(m, l);
            && SameOn(r, m, 0, l.Argv()) && SameOn(r, m, l.Auxv(), |m|)
            && Ptr(r, l.Argv(), l.argc) == 0 && Ptr(r, l.Env(), l.envc) == 0
  {
    hide StrAt, Load64, Store64, Terminated, LayoutOk, Relocate, RelocateVector, Relocated;
    LayoutParts(m, l);
    RelocatedIs(m, l);
    var from, to := l.oldBase + l.Argv(), l.newBase + l.Argv();
    var argv := RelocateVector(m, m, l.Argv(), l.argc, from, to);
    var targeted := Store64(argv, l.Argv(), Relocate(l.target, from, to));
    var r := Relocated(m, l);
    RelocateVectorResult(m, m, l.Argv(), l.argc, from, to);
    StoreThenLoad(argv, l.Argv(), Relocate(l.target, from, to));
    RelocateVectorResult(targeted, m, l.Env(), l.envc, l.oldBase + l.Env(), l.newBase + l.Env());
    assert SameOn(r, m, l.Argv() + 8 * l.argc, l.Env()) && SameOn(r, m, l.Env() + 8 * l.envc, |m|);
    SameWord(r, m, l.Argv() + 8 * l.argc);
    SameWord(r, m, l.Env() + 8 * l.envc);
  }

  /** A string above the vectors reads the same after relocation, at the moved address. */
  lemma MovedString(m: seq<Byte>, l: Layout, p: nat)
    requires LayoutOk(m, l) && l.target < WORD && StringPtr(m, l, p)
    ensures var r := Relocated(m, l);
            && Terminated(r, p - l.oldBase) && StrAt(r, p - l.oldBase) == StrAt(m, p - l.oldBase)
  {
    RelocationFrame(m, l);
    hide LayoutOk, StrAt, Relocated;
    SameString(m, Relocated(m, l), p - l.oldBase);
  }

  lemma EnvStringPtr(m: seq<Byte>, l: Layout, i: nat)
    requires LayoutOk(m, l) && StringsOk(m, l) && i < l.envc
    ensures l.Strings() <= |m| && StringPtr(m, l, Ptr(m, l.Env(), i))
  {
    hide StrAt, Load64, Terminated;
  }

  lemma RelocatedEntryInside(m: seq<Byte>, l: Layout, i: nat)
    requires LayoutOk(m, l) && StringsOk(m, l) && i < l.envc
    ensures l.target < WORD && EntryInside(m, l.Env(), l.oldBase, i)
    ensures EntryInside(Relocated(m, l), l.Env(), l.newBase, i)
    ensures EnvString(Relocated(m, l), l.Env(), l.newBase, i) == EnvString(m, l.Env(), l.oldBase, i)
  {
    hide LayoutOk, StringsOk, StrAt, Load64, Relocated, Terminated;
    StringPtrs(m, l);
    EnvStringPtr(m, l, i);
    EnvRelocated(m, l, i);
    MovedString(m, l, Ptr(m, l.Env(), i));
  }

  lemma RelocatedEnvInside(m: seq<Byte>, l: Layout)
    requires LayoutOk(m, l) && StringsOk(m, l)
    ensures l.target < WORD
    ensures EnvInside(m, l.Env(), l.envc, l.oldBase) && EnvInside(Relocated(m, l), l.Env(), l.envc, l.newBase)
    ensures forall i :: 0 <= i < l.envc ==>
            EnvString(Relocated(m, l), l.Env(), l.newBase, i) == EnvString(m, l.Env(), l.oldBase, i)
  {
    StringPtrs(m, l);
    hide LayoutOk, StringsOk, StrAt, Load64, Relocated, Terminated, EntryInside, EnvString;
    forall i | 0 <= i < l.envc
      ensures EntryInside(m, l.Env(), l.oldBase, i) && EntryInside(Relocated(m, l), l.Env(), l.newBase, i)
      ensures EnvString(Relocated(m, l), l.Env(), l.newBase, i) == EnvString(m, l.Env(), l.oldBase, i)
    {
      RelocatedEntryInside(m, l, i);
    }
  }

  /** The environment entry that is renamed: the first that contains UH_PRELOAD. */
  function PreloadEntry(m: seq<Byte>, l: Layout): (k: nat)
    requires LayoutOk(m, l) && StringsOk(m, l)
    ensures k <= l.envc
  {
    RelocatedEnvInside(m, l);
    FindPreload(m, l.Env(), l.envc, l.oldBase, 0)
  }

  lemma {:induction false} SamePreload(a: seq<Byte>, b: seq<Byte>, env: nat, n: nat, regionA: nat, regionB: nat, i: nat)
    requires EnvInside(a, env, n, regionA) && EnvInside(b, env, n, regionB) && i <= n
    requires forall j :: 0 <= j < n ==> EnvString(a, env, regionA, j) == EnvString(b, env, regionB, j)
    ensures FindPreload(a, env, n, regionA, i) == FindPreload(b, env, n, regionB, i)
    decreases n - i
  {
    hide StrAt, EnvString, EntryInside, NamesPreload;
    if i < n && !NamesPreload(EnvString(a, env, regionA, i)) {
      SamePreload(a, b, env, n, regionA, regionB, i + 1);
    }
  }

  /** deepCopyStack: the contents of the new region. */
  function DeepCopy(m: seq<Byte>, l: Layout, info: ImageInfo): (r: seq<Byte>)
    requires LayoutOk(m, l) && StringsOk(m, l)
    ensures |r| == |m|
  {
    RelocatedEnvInside(m, l);
    var renamed := RenamePreload(Relocated(m, l), l.Env(), l.envc, l.newBase);
    var patched := PatchAuxv(renamed, l.Auxv(), l.auxc, info);
    Zeros(l.end) + patched[l.end..]
  }

  // ---------------------------------------------------------------- what the copy means

  /** "LD" in place of the first two characters. */
  function WithLd(s: seq<Byte>): seq<Byte> {
    if |s| >= 2 then ['L' as int, 'D' as int] + s[2..] else s
  }

  /** The string s at `at`, where it covers them with 'L' at q and 'D' at q + 1. */
  function Overlaid(s: seq<Byte>, at: nat, q: nat): (r: seq<Byte>)
    ensures |r| == |s|
  {
    seq<Byte>(|s|, i requires 0 <= i < |s| =>
      if at + i == q then 'L' as int else if at + i == q + 1 then 'D' as int else s[i])
  }

  /** A string keeps its text if and only if it covers neither byte, or had those letters there already. */
  lemma KeptIffApart(s: seq<Byte>, at: nat, q: nat)
    ensures Overlaid(s, at, q) == s <==>
            && (at <= q < at + |s| ==> s[q - at] == 'L' as int)
            && (at <= q + 1 < at + |s| ==> s[q + 1 - at] == 'D' as int)
  {
    var r := Overlaid(s, at, q);
    if at <= q < at + |s| {
      assert r[q - at] == LETTER_L;
    }
    if at <= q + 1 < at + |s| {
      assert r[q + 1 - at] == LETTER_D;
    }
  }

  lemma OverlaidAtStart(s: seq<Byte>, q: nat)
    requires |s| >= 2
    ensures Overlaid(s, q, q) == WithLd(s)
  {
  }

  /** New pointer p' is p moved, and reads in the new region the string that p reads, but for the bytes at q. */
  ghost predicate SameMeaning(r: seq<Byte>, m: seq<Byte>, l: Layout, p': nat, p: nat, q: nat) {
    && l.oldBase <= p && p' == Moved(l, p) && p' < l.newBase + |r| && p < l.oldBase + |m|
    && StrAt(r, p - l.oldBase) == Overlaid(StrAt(m, p - l.oldBase), p - l.oldBase, q)
  }

  lemma RenamedFrame(m: seq<Byte>, env: nat, n: nat, region: nat, k: nat)
    requires EnvInside(m, env, n, region) && k == FindPreload(m, env, n, region, 0) < n
    ensures EntryInside(m, env, region, k) && Ptr(m, env, k) - region + 1 < |m|
    ensures var r, q := RenamePreload(m, env, n, region), Ptr(m, env, k) - region;
              && r[q] == LETTER_L && r[q + 1] == LETTER_D
              && forall x :: 0 <= x < |m| && x != q && x != q + 1 ==> r[x] == m[x]
  {
    hide StrAt, Ptr, StrStr;
    FoundStringIsLong(EnvString(m, env, region, k));
  }

  /** Letters written over two characters of some string leave all others, and every string's end, in place. */
  lemma {:induction false} OverlaidString(a: seq<Byte>, b: seq<Byte>, at: nat, q: nat)
    requires Terminated(a, at) && |b| == |a| && q + 1 < |a| && a[q] != 0 && a[q + 1] != 0
    requires b[q] == LETTER_L && b[q + 1] == LETTER_D && forall x :: at <= x < |a| && x != q && x != q + 1 ==>
             b[x] == a[x]
    ensures StrAt(b, at) == Overlaid(StrAt(a, at), at, q)
    decreases |a| - at
  {
    FirstCharacter(a, at);
    FirstCharacter(b, at);
    if a[at] != 0 {
      hide StrAt;
      OverlaidString(a, b, at + 1, q);
      assert StrAt(a, at)[1..] == StrAt(a, at + 1);
    }
  }

  lemma FirstCharacter(m: seq<Byte>, at: nat)
    requires at < |m|
    ensures StrAt(m, at) == if m[at] == 0 then [] else [m[at]] + StrAt(m, at + 1)
  {
    assert m[at..][0] == m[at] && m[at..][1..] == m[at + 1..];
  }

  lemma DeepCopyIs(m: seq<Byte>, l: Layout, info: ImageInfo)
    requires LayoutOk(m, l) && StringsOk(m, l)
    ensures l.target < WORD && l.Strings() <= |m| && EnvInside(Relocated(m, l), l.Env(), l.envc, l.newBase)
    ensures DeepCopy(m, l, info) ==
            Zeros(l.end) + PatchAuxv(RenamePreload(Relocated(m, l), l.Env(), l.envc, l.newBase), l.Auxv(), l.auxc,
                                     info)[l.end..]
  {
    RelocatedEnvInside(m, l);
  }

  lemma PreloadEntryIs(m: seq<Byte>, l: Layout)
    requires LayoutOk(m, l) && StringsOk(m, l)
    ensures EnvInside(m, l.Env(), l.envc, l.oldBase)
    ensures PreloadEntry(m, l) == FindPreload(m, l.Env(), l.envc, l.oldBase, 0)
  {
    hide LayoutOk, StringsOk, FindPreload, EnvInside;
    assert EnvInside(m, l.Env(), l.envc, l.oldBase) by {
      hide *;
      RelocatedEnvInside(m, l);
    }
  }

  /** Where the copy agrees with the relocated stack: all vectors, and every byte above them but two. */
  lemma CopyFrame(m: seq<Byte>, l: Layout, info: ImageInfo, k: nat)
    requires LayoutOk(m, l) && StringsOk(m, l) && k == PreloadEntry(m, l) < l.envc
    ensures l.target < WORD && l.oldBase <= Ptr(m, l.Env(), k)
    ensures var r, rel, q := DeepCopy(m, l, info), Relocated(m, l), Ptr(m, l.Env(), k) - l.oldBase;
            && l.Strings() <= q && q + 1 < |m| && r[q] == LETTER_L && r[q + 1] == LETTER_D
            && SameOn(r, rel, l.end, l.Auxv())
            && (forall x :: l.Auxv() + 16 * l.auxc <= x < |m| && x != q && x != q + 1 ==> r[x] == rel[x])
            && (forall x :: 0 <= x < l.end ==> r[x] == 0)
  {
    hide LayoutOk, StringsOk, PreloadEntry, StrAt, Load64, StringPtr, Terminated, DeepCopy, Relocated, RenamePreload,
         PatchAuxv, EnvInside, EntryInside, EnvString, FindPreload, NamesPreload, PatchedValue;
    DeepCopyIs(m, l, info);
    PreloadEntryIs(m, l);
    RelocatedEnvInside(m, l);
    StringPtrs(m, l);
    EnvRelocated(m, l, k);
    var rel := Relocated(m, l);
    var renamed := RenamePreload(rel, l.Env(), l.envc, l.newBase);
    SamePreload(m, rel, l.Env(), l.envc, l.oldBase, l.newBase, 0);
    RenamedFrame(rel, l.Env(), l.envc, l.newBase, k);
    PatchAuxvResult(renamed, l.Auxv(), l.auxc, info);
  }

  /** The bounds that make the vectors readable. */
  lemma VectorsFit(m: seq<Byte>, l: Layout)
    requires LayoutOk(m, l) && StringsOk(m, l)
    ensures l.Strings() <= |m| && l.target < WORD
  {
    StringPtrs(m, l);
  }

  /** Where the renamed entry's string begins. */
  function RenamedAt(m: seq<Byte>, l: Layout): (q: nat)
    requires LayoutOk(m, l) && StringsOk(m, l) && PreloadEntry(m, l) < l.envc
    ensures q < |m|
  {
    StringPtrs(m, l);
    Ptr(m, l.Env(), PreloadEntry(m, l)) - l.oldBase
  }

  /** The two characters that are overwritten are none of them a NUL. */
  lemma RenamedCharacters(m: seq<Byte>, l: Layout)
    requires LayoutOk(m, l) && StringsOk(m, l) && PreloadEntry(m, l) < l.envc
    ensures var q := RenamedAt(m, l);
            && l.Strings() <= q && q + 1 < |m| && m[q] != 0 && m[q + 1] != 0 && |StrAt(m, q)| >= 2
            && l.oldBase <= Ptr(m, l.Env(), PreloadEntry(m, l)) && q == Ptr(m, l.Env(), PreloadEntry(m, l)) - l.oldBase
  {
    hide LayoutOk, StringsOk, PreloadEntry, StrAt, Load64, Terminated;
    var k := PreloadEntry(m, l);
    VectorsFit(m, l);
    PreloadString(m, l, k);
    var q := RenamedAt(m, l);
    StringPtrs(m, l);
    FirstCharacter(m, q);
    assert q + 1 < |m| by {
      StringBound(m, q);
    }
    FirstCharacter(m, q + 1);
  }

  lemma StringBound(m: seq<Byte>, q: nat)
    requires Terminated(m, q)
    ensures q + |StrAt(m, q)| < |m|
  {
  }

  /** Any string of the copy. */
  lemma CopiedString(m: seq<Byte>, l: Layout, info: ImageInfo, k: nat, p: nat)
    requires LayoutOk(m, l) && StringsOk(m, l) && k == PreloadEntry(m, l) < l.envc && StringPtr(m, l, p)
    ensures SameMeaning(DeepCopy(m, l, info), m, l, Moved(l, p), p, RenamedAt(m, l))
  {
    hide LayoutOk, StringsOk, PreloadEntry, StrAt, Load64, DeepCopy, Relocated, Overlaid, RenamedAt;
    CopyFrame(m, l, info, k);
    RenamedCharacters(m, l);
    RelocationFrame(m, l);
    MovedString(m, l, p);
    OverlaidString(Relocated(m, l), DeepCopy(m, l, info), p - l.oldBase, RenamedAt(m, l));
  }

  lemma ArgPart(m: seq<Byte>, l: Layout, i: nat)
    requires LayoutOk(m, l) && StringsOk(m, l) && i < l.argc
    ensures l.oldBase <= ArgOf(m, l, i) && StringPtr(m, l, ArgOf(m, l, i))
  {
    hide Terminated, Load64;
    StringPtrs(m, l);
  }

  /** Argument i of the copy. */
  lemma CopiedArg(m: seq<Byte>, l: Layout, info: ImageInfo, k: nat, i: nat)
    requires LayoutOk(m, l) && StringsOk(m, l) && k == PreloadEntry(m, l) < l.envc && i < l.argc
    ensures var r := DeepCopy(m, l, info); SameMeaning(r, m, l, Ptr(r, l.Argv(), i), ArgOf(m, l, i), RenamedAt(m, l))
  {
    hide LayoutOk, StringsOk, PreloadEntry, StrAt, Load64, StringPtr, Terminated, DeepCopy, Relocated, RenamePreload,
         PatchAuxv, EnvInside, EntryInside, EnvString, FindPreload, NamesPreload, Overlaid, RenamedAt, ArgOf,
         SameMeaning, PatchedValue;
    VectorsFit(m, l);
    ArgPart(m, l, i);
    ArgvRelocated(m, l, i);
    CopyFrame(m, l, info, k);
    CopiedString(m, l, info, k, ArgOf(m, l, i));
    SameWord(DeepCopy(m, l, info), Relocated(m, l), l.Argv() + 8 * i);
  }

  lemma CopiedEnvPtr(m: seq<Byte>, l: Layout, info: ImageInfo, k: nat, j: nat)
    requires LayoutOk(m, l) && StringsOk(m, l) && k == PreloadEntry(m, l) < l.envc && j < l.envc
    ensures l.oldBase <= Ptr(m, l.Env(), j)
    ensures Ptr(DeepCopy(m, l, info), l.Env(), j) == Moved(l, Ptr(m, l.Env(), j))
  {
    hide LayoutOk, StringsOk, PreloadEntry, StrAt, Load64, StringPtr, Terminated, DeepCopy, Relocated, RenamePreload,
         PatchAuxv, EnvInside, EntryInside, EnvString, FindPreload, NamesPreload, PatchedValue;
    VectorsFit(m, l);
    EnvRelocated(m, l, j);
    CopyFrame(m, l, info, k);
    SameWord(DeepCopy(m, l, info), Relocated(m, l), l.Env() + 8 * j);
  }

  /** Environment entry j of the copy. */
  lemma CopiedEnv(m: seq<Byte>, l: Layout, info: ImageInfo, k: nat, j: nat)
    requires LayoutOk(m, l) && StringsOk(m, l) && k == PreloadEntry(m, l) < l.envc && j < l.envc
    ensures var r := DeepCopy(m, l, info); SameMeaning(r, m, l, Ptr(r, l.Env(), j), Ptr(m, l.Env(), j), RenamedAt(m, l))
  {
    hide LayoutOk, StringsOk, PreloadEntry, StrAt, Load64, StringPtr, Terminated, DeepCopy, Relocated, RenamePreload,
         PatchAuxv, EnvInside, EntryInside, EnvString, FindPreload, NamesPreload, Overlaid, RenamedAt, SameMeaning,
         PatchedValue;
    VectorsFit(m, l);
    EnvStringPtr(m, l, j);
    CopiedEnvPtr(m, l, info, k, j);
    CopiedString(m, l, info, k, Ptr(m, l.Env(), j));
  }

  lemma PreloadString(m: seq<Byte>, l: Layout, k: nat)
    requires LayoutOk(m, l) && StringsOk(m, l) && k == PreloadEntry(m, l) < l.envc
    ensures StringPtr(m, l, Ptr(m, l.Env(), k)) && |StrAt(m, Ptr(m, l.Env(), k) - l.oldBase)| >= 2
  {
    hide LayoutOk, FindPreload, StrAt, Load64;
    PreloadEntryIs(m, l);
    VectorsFit(m, l);
    assert EntryInside(m, l.Env(), l.oldBase, k);
    FoundStringIsLong(EnvString(m, l.Env(), l.oldBase, k));
  }

  /**
   The relocated stack means what the original one meant. Every argument and every environment entry points
   inside the new region, at the string that the original one reads (argument 0 at the TARGET_LD value), where
   two bytes have become "LD": the first two of the first environment string that names UH_PRELOAD. So that entry
   reads its string with those letters in front, and every string that does not share the bytes is as it was.
   */
  lemma DeepCopyPreservesMeaning(m: seq<Byte>, l: Layout, info: ImageInfo, k: nat)
    requires LayoutOk(m, l) && StringsOk(m, l) && k == PreloadEntry(m, l) < l.envc
    ensures var r, q := DeepCopy(m, l, info), RenamedAt(m, l);
            && (forall i :: 0 <= i < l.argc ==> SameMeaning(r, m, l, Ptr(r, l.Argv(), i), ArgOf(m, l, i), q))
            && (forall j :: 0 <= j < l.envc ==> SameMeaning(r, m, l, Ptr(r, l.Env(), j), Ptr(m, l.Env(), j), q))
            && StrAt(r, q) == WithLd(StrAt(m, q))
    ensures l.oldBase <= Ptr(m, l.Env(), k) && RenamedAt(m, l) == Ptr(m, l.Env(), k) - l.oldBase
  {
    hide LayoutOk, StringsOk, PreloadEntry, StrAt, Load64, StringPtr, Terminated, DeepCopy, Relocated, RenamePreload,
         PatchAuxv, EnvInside, EntryInside, EnvString, FindPreload, NamesPreload, Overlaid, RenamedAt, ArgOf,
         SameMeaning, Moved, PatchedValue;
    VectorsFit(m, l);
    var r, q := DeepCopy(m, l, info), RenamedAt(m, l);
    RenamedCharacters(m, l);
    forall i | 0 <= i < l.argc ensures SameMeaning(r, m, l, Ptr(r, l.Argv(), i), ArgOf(m, l, i), q) {
      CopiedArg(m, l, info, k, i);
    }
    forall j | 0 <= j < l.envc ensures SameMeaning(r, m, l, Ptr(r, l.Env(), j), Ptr(m, l.Env(), j), q) {
      CopiedEnv(m, l, info, k, j);
    }
    MeaningIs(r, m, l, Ptr(r, l.Env(), k), Ptr(m, l.Env(), k), q);
    OverlaidAtStart(StrAt(m, q), q);
  }

  lemma MeaningIs(r: seq<Byte>, m: seq<Byte>, l: Layout, p': nat, p: nat, q: nat)
    requires SameMeaning(r, m, l, p', p, q) && |r| == |m|
    ensures l.oldBase <= p && p - l.oldBase < |m|
    ensures StrAt(r, p - l.oldBase) == Overlaid(StrAt(m, p - l.oldBase), p - l.oldBase, q)
  {
  }

  /**
   An environment entry that starts with UH_PRELOAD turns into an LD_PRELOAD setting if and only if its string
   is that of the first entry that contains UH_PRELOAD anywhere (NamesPreloadIff).
   */
  lemma PreloadRenamedIffFirst(m: seq<Byte>, l: Layout, info: ImageInfo, k: nat, t: nat)
    requires LayoutOk(m, l) && StringsOk(m, l) && k == PreloadEntry(m, l) < l.envc && t < l.envc
    requires l.oldBase <= Ptr(m, l.Env(), t) && Ptr(m, l.Env(), t) - l.oldBase <= |m|
    requires ReadsAt(StrAt(m, Ptr(m, l.Env(), t) - l.oldBase), 0, "UH_PRELOAD")
    ensures ReadsAt(StrAt(DeepCopy(m, l, info), Ptr(m, l.Env(), t) - l.oldBase), 0, "LD_PRELOAD") <==>
            Ptr(m, l.Env(), t) == Ptr(m, l.Env(), k)
  {
    hide LayoutOk, StringsOk, PreloadEntry, StrAt, Load64, DeepCopy, Relocated, Overlaid, RenamedAt, SameMeaning,
         IsPrefix, Terminated, ReadsAt;
    VectorsFit(m, l);
    RenamedCharacters(m, l);
    CopiedEnv(m, l, info, k, t);
    PreloadWords(StrAt(m, Ptr(m, l.Env(), t) - l.oldBase));
    PreloadWords(StrAt(DeepCopy(m, l, info), Ptr(m, l.Env(), t) - l.oldBase));
    var r, p := DeepCopy(m, l, info), Ptr(m, l.Env(), t);
    MeaningIs(r, m, l, Ptr(r, l.Env(), t), p, RenamedAt(m, l));
    PrefixOverlaid(StrAt(m, p - l.oldBase), p - l.oldBase, RenamedAt(m, l));
  }

  lemma PreloadWords(s: seq<Byte>)
    ensures Spells(UH_PRELOAD, "UH_PRELOAD") && Spells(LD_PRELOAD, "LD_PRELOAD")
    ensures IsPrefix(UH_PRELOAD, s) <==> ReadsAt(s, 0, "UH_PRELOAD")
    ensures IsPrefix(LD_PRELOAD, s) <==> ReadsAt(s, 0, "LD_PRELOAD")
  {
    if |s| >= 10 {
      SpelledAt(s, 0, UH_PRELOAD, "UH_PRELOAD");
      SpelledAt(s, 0, LD_PRELOAD, "LD_PRELOAD");
    }
  }

  /** An entry is found if and only if its string has the characters UH_PRELOAD somewhere. */
  lemma NamesPreloadIff(s: seq<Byte>)
    ensures NamesPreload(s) <==> exists k: nat :: ReadsAt(s, k, "UH_PRELOAD")
  {
    PreloadWords(s);
    StrStrIff(s, UH_PRELOAD);
    forall k: nat ensures StandsAt(s, k, UH_PRELOAD) <==> ReadsAt(s, k, "UH_PRELOAD") {
      if k + 10 <= |s| {
        SpelledAt(s, k, UH_PRELOAD, "UH_PRELOAD");
      }
    }
    hide StrStr, StandsAt, ReadsAt;
  }

  lemma PrefixOverlaid(s: seq<Byte>, at: nat, q: nat)
    requires IsPrefix(UH_PRELOAD, s)
    ensures IsPrefix(LD_PRELOAD, Overlaid(s, at, q)) <==> at == q
  {
    var r := Overlaid(s, at, q);
    assert s[..10][0] == s[0];
    if at == q {
      OverlaidAtStart(s, q);
      PrefixRenamed(s);
    } else {
      assert |r| >= 10 && r[..10][0] == r[0] != LETTER_L;
    }
  }

  lemma PrefixRenamed(s: seq<Byte>)
    requires IsPrefix(UH_PRELOAD, s)
    ensures IsPrefix(LD_PRELOAD, WithLd(s))
  {
    assert WithLd(s)[..10] == [LETTER_L, LETTER_D] + s[..10][2..];
  }

  /** One entry of the auxiliary vector after the copy: of its type, patched if it is one of the three. */
  lemma CopiedAuxEntry(m: seq<Byte>, l: Layout, info: ImageInfo, k: nat, i: nat)
    requires LayoutOk(m, l) && StringsOk(m, l) && k == PreloadEntry(m, l) < l.envc && i < l.auxc
    ensures EntryPatched(DeepCopy(m, l, info), m, l.Auxv(), i, info)
  {
    hide LayoutOk, StringsOk, PreloadEntry, StrAt, Load64, StringPtr, Terminated, DeepCopy, Relocated, RenamePreload,
         PatchAuxv, EnvInside, EntryInside, EnvString, FindPreload, NamesPreload, PatchedValue, EntryPatched;
    VectorsFit(m, l);
    DeepCopyIs(m, l, info);
    RenameKeepsVectors(m, l);
    var renamed := RenamePreload(Relocated(m, l), l.Env(), l.envc, l.newBase);
    var patched := PatchAuxv(renamed, l.Auxv(), l.auxc, info);
    PatchAuxvResult(renamed, l.Auxv(), l.auxc, info);
    var at := l.Auxv() + 16 * i;
    assert EntryPatched(patched, renamed, l.Auxv(), i, info);
    EntryThroughCopies(DeepCopy(m, l, info), patched, renamed, m, l.Auxv(), i, info);
  }

  lemma EntryThroughCopies(r: seq<Byte>, patched: seq<Byte>, renamed: seq<Byte>, m: seq<Byte>, auxv: nat, i: nat,
                           info: ImageInfo)
    requires auxv + 16 * i + 16 <= |m| == |renamed| == |patched| == |r| && EntryPatched(patched, renamed, auxv, i, info)
    requires SameOn(r, patched, auxv + 16 * i, auxv + 16 * i + 16)
    requires SameOn(renamed, m, auxv + 16 * i, auxv + 16 * i + 16)
    ensures EntryPatched(r, m, auxv, i, info)
  {
    hide PatchedValue, Load64;
    EntryStays(r, patched, renamed, auxv, i, info);
    SameWord(renamed, m, auxv + 16 * i);
    SameWord(renamed, m, auxv + 16 * i + 8);
  }

  /** The auxiliary vector, argc, the terminators and the space below the stack after the copy. */
  lemma DeepCopyVectors(m: seq<Byte>, l: Layout, info: ImageInfo, k: nat)
    requires LayoutOk(m, l) && StringsOk(m, l) && k == PreloadEntry(m, l) < l.envc
    ensures var r := DeepCopy(m, l, info);
            && SameOn(r, m, l.end, l.Argv()) && (forall x :: 0 <= x < l.end ==> r[x] == 0)
            && Ptr(r, l.Argv(), l.argc) == 0 && Ptr(r, l.Env(), l.envc) == 0
            && AuxType(r, l.Auxv(), l.auxc) == AT_NULL
    ensures forall i :: 0 <= i < l.auxc ==> EntryPatched(DeepCopy(m, l, info), m, l.Auxv(), i, info)
  {
    hide LayoutOk, StringsOk, PreloadEntry, StrAt, Load64, StringPtr, Terminated, DeepCopy, Relocated, RenamePreload,
         PatchAuxv, EnvInside, EntryInside, EnvString, FindPreload, NamesPreload, PatchedValue;
    VectorsFit(m, l);
    var r, rel := DeepCopy(m, l, info), Relocated(m, l);
    CopyFrame(m, l, info, k);
    RelocationFrame(m, l);
    AuxTerminated(m, l);
    SameWord(r, rel, l.Argv() + 8 * l.argc);
    SameWord(r, rel, l.Env() + 8 * l.envc);
    var at := l.Auxv() + 16 * l.auxc;
    assert SameOn(r, m, at, at + 8);
    SameWord(r, m, at);
    forall i | 0 <= i < l.auxc ensures EntryPatched(r, m, l.Auxv(), i, info) {
      CopiedAuxEntry(m, l, info, k, i);
    }
  }

  lemma AuxTerminated(m: seq<Byte>, l: Layout)
    requires LayoutOk(m, l)
    ensures AuxType(m, l.Auxv(), l.auxc) == AT_NULL
  {
  }

  // ---------------------------------------------------------------- the copy as a program

  method StoreWord(a: array<Byte>, at: nat, v: Word)
    requires at + 8 <= a.Length
    modifies a
    ensures a[..] == Store64(old(a[..]), at, v)
  {
    var b := LeBytes(v, 8);
    forall i | 0 <= i < 8 {
      a[at + i] := b[i];
    }
  }

  /** The loops over argv and env: each pointer of the original vector, up to its NULL, relocated in the copy. */
  method RelocatePointers(a: array<Byte>, orig: array<Byte>, vec: nat, oldVec: nat, newVec: nat, ghost n: nat)
    requires a != orig && a.Length == orig.Length && vec + 8 * n + 8 <= a.Length
    requires (forall i :: 0 <= i < n ==> Ptr(orig[..], vec, i) != 0) && Ptr(orig[..], vec, n) == 0
    modifies a
    ensures a[..] == RelocateVector(old(a[..]), orig[..], vec, n, oldVec, newVec)
  {
    hide Ptr, Load64, Store64, Relocate;
    ghost var m0 := a[..];
    var i := 0;
    while Ptr(orig[..], vec, i) != 0
      invariant 0 <= i <= n
      invariant a[..] == RelocateVector(m0, orig[..], vec, i, oldVec, newVec)
      decreases n - i
    {
      StoreWord(a, vec + 8 * i, Relocate(Ptr(orig[..], vec, i), oldVec, newVec));
      i := i + 1;
    }
  }

  /** The loop that turns UH_PRELOAD into LD_PRELOAD. */
  method RenamePreloadIn(a: array<Byte>, env: nat, region: nat, ghost n: nat)
    requires EnvInside(a[..], env, n, region) && env + 8 * n + 8 <= a.Length && Ptr(a[..], env, n) == 0
    requires forall i :: 0 <= i < n ==> Ptr(a[..], env, i) != 0
    modifies a
    ensures a[..] == RenamePreload(old(a[..]), env, n, region)
  {
    hide Ptr, StrAt, NamesPreload;
    ghost var m := a[..];
    var i := 0;
    while Ptr(a[..], env, i) != 0
      invariant 0 <= i <= n && a[..] == m
      invariant FindPreload(m, env, n, region, i) == FindPreload(m, env, n, region, 0)
      decreases n - i
    {
      assert EntryInside(m, env, region, i);
      if NamesPreload(EnvString(a[..], env, region, i)) {
        FoundStringIsLong(EnvString(m, env, region, i));
        var at := Ptr(a[..], env, i) - region;
        a[at], a[at + 1] := LETTER_L, LETTER_D;
        ghost var marked: seq<Byte> := m[at := LETTER_L];
        assert a[..] == marked[at + 1 := LETTER_D];
        break;
      }
      i := i + 1;
    }
  }

  /** patchAuxv: up to AT_NULL. */
  method PatchAuxvIn(a: array<Byte>, auxv: nat, info: ImageInfo, ghost n: nat)
    requires auxv + 16 * n + 8 <= a.Length && AuxType(a[..], auxv, n) == AT_NULL
    requires forall i :: 0 <= i < n ==> AuxType(a[..], auxv, i) != AT_NULL
    modifies a
    ensures a[..] == PatchAuxv(old(a[..]), auxv, n, info)
  {
    hide Load64, Store64, PatchedValue, PatchAuxv, AuxType;
    ghost var m := a[..];
    var i := 0;
    PatchOneMore(m, auxv, 0, info);
    while AuxType(a[..], auxv, i) != AT_NULL
      invariant 0 <= i <= n && a[..] == PatchAuxv(m, auxv, i, info)
      invariant forall j :: 0 <= j <= n ==> AuxType(a[..], auxv, j) == AuxType(m, auxv, j)
      decreases n - i
    {
      StoreWord(a, auxv + 16 * i + 8, PatchedValue(info, AuxType(a[..], auxv, i), AuxValue(a[..], auxv, i)));
      PatchOneMore(m, auxv, i, info);
      i := i + 1;
      PatchAuxvTypes(m, auxv, i, info, n);
    }
  }

  lemma PatchOneMore(m: seq<Byte>, auxv: nat, i: nat, info: ImageInfo)
    requires auxv + 16 * i <= |m|
    ensures PatchAuxv(m, auxv, 0, info) == m
    ensures auxv + 16 * i + 16 <= |m| ==>
              var r := PatchAuxv(m, auxv, i, info);
              PatchAuxv(m, auxv, i + 1, info) ==
                  Store64(r, auxv + 16 * i + 8, PatchedValue(info, AuxType(r, auxv, i), AuxValue(r, auxv, i)))
  {
    hide Load64, Store64, PatchedValue;
  }

  lemma PatchAuxvTypes(m: seq<Byte>, auxv: nat, i: nat, info: ImageInfo, n: nat)
    requires i <= n && auxv + 16 * n + 8 <= |m|
    ensures forall j :: 0 <= j <= n ==> AuxType(PatchAuxv(m, auxv, i, info), auxv, j) == AuxType(m, auxv, j)
  {
    hide PatchAuxv, PatchedValue, Load64;
    PatchAuxvResult(m, auxv, i, info);
    var r := PatchAuxv(m, auxv, i, info);
    forall j | 0 <= j <= n ensures AuxType(r, auxv, j) == AuxType(m, auxv, j) {
      if j < i {
        assert EntryPatched(r, m, auxv, j, info);
      } else {
        SameWord(r, m, auxv + 16 * j);
      }
    }
  }

  /**
   deepCopyStack: copies the original region bit by bit, then rewrites argv, argv[0], the environment, the
   preload entry and the auxiliary vector in the copy, and clears everything below the stack. Returns the
   address of argc. The original region is not written.
   */
  method DeepCopyStack(newStack: array<Byte>, origStack: array<Byte>, oldBase: nat, newBase: nat, end: nat,
                       target: Word,
                       info: ImageInfo, ghost l: Layout) returns (start: nat)
    requires newStack != origStack && newStack.Length == origStack.Length
    requires LayoutOk(origStack[..], l) && StringsOk(origStack[..], l)
    requires l.oldBase == oldBase && l.newBase == newBase && l.end == end && l.target == target
    modifies newStack
    ensures newStack[..] == DeepCopy(origStack[..], l, info)
    ensures start == newBase + end + 8
  {
    hide LayoutOk, StringsOk, DeepCopy, Relocated, EnvInside, RenamePreload, PatchAuxv, RelocateVector, Load64, Store64,
         Relocate;
    ghost var m := origStack[..];
    VectorsFit(m, l);
    LayoutParts(m, l);
    forall i | 0 <= i < newStack.Length {
      newStack[i] := origStack[i];
    }
    assert newStack[..] == m;
    var argc := LeValue(newStack[end + 8..end + 12]);
    assert newStack[end + 8..end + 12] == m[end + 8..end + 12];
    var argv := end + 16;
    var env := argv + 8 * (argc + 1);
    var auxv := FindAuxv(newStack, env, l.envc);
    assert origStack[..] == m;
    RelocatePointers(newStack, origStack, argv, oldBase + argv, newBase + argv, l.argc);
    StoreWord(newStack, argv, Relocate(target, oldBase + argv, newBase + argv));
    assert origStack[..] == m;
    RelocatePointers(newStack, origStack, env, oldBase + env, newBase + env, l.envc);
    assert origStack[..] == m;
    RelocatedIs(m, l);
    RenameReady(m, l);
    RenamePreloadIn(newStack, env, newBase, l.envc);
    PatchReady(m, l);
    PatchAuxvIn(newStack, auxv, info, l.auxc);
    assert origStack[..] == m;
    DeepCopyIs(m, l, info);
    ClearBelow(newStack, end);
    assert origStack[..] == m;
    start := newBase + end + 8;
  }

  /** memset(a, 0, end). */
  method ClearBelow(a: array<Byte>, end: nat)
    requires end <= a.Length
    modifies a
    ensures a[..] == Zeros(end) + old(a[..])[end..]
  {
    forall i | 0 <= i < end {
      a[i] := 0;
    }
  }

  /** GET_AUXV_ADDR: one past the NULL that ends the environment. */
  method FindAuxv(a: array<Byte>, env: nat, ghost n: nat) returns (auxv: nat)
    requires env + 8 * n + 8 <= a.Length && Ptr(a[..], env, n) == 0 && forall i :: 0 <= i < n ==>
             Ptr(a[..], env, i) != 0
    ensures auxv == env + 8 * (n + 1)
  {
    hide Load64;
    var i := 0;
    while Ptr(a[..], env, i) != 0
      invariant 0 <= i <= n
      decreases n - i
    {
      i := i + 1;
    }
    auxv := env + 8 * (i + 1);
  }

  lemma LayoutParts(m: seq<Byte>, l: Layout)
    requires LayoutOk(m, l)
    ensures l.Strings() <= |m| && LeValue(m[l.end + 8..l.end + 12]) == l.argc && l.argc > 0
    ensures (forall i :: 0 <= i < l.argc ==> Ptr(m, l.Argv(), i) != 0) && Ptr(m, l.Argv(), l.argc) == 0
    ensures (forall i :: 0 <= i < l.envc ==> Ptr(m, l.Env(), i) != 0) && Ptr(m, l.Env(), l.envc) == 0
    ensures (forall i :: 0 <= i < l.auxc ==> AuxType(m, l.Auxv(), i) != AT_NULL)
    ensures AuxType(m, l.Auxv(), l.auxc) == AT_NULL
  {
  }

  lemma RelocatedIs(m: seq<Byte>, l: Layout)
    requires LayoutOk(m, l) && l.target < WORD
    ensures var argv := RelocateVector(m, m, l.Argv(), l.argc, l.oldBase + l.Argv(), l.newBase + l.Argv());
            Relocated(m, l) == RelocateVector(Store64(argv, l.Argv(),
                                                      Relocate(l.target, l.oldBase + l.Argv(), l.newBase + l.Argv())),
                                              m, l.Env(), l.envc, l.oldBase + l.Env(), l.newBase + l.Env())
  {
    hide LayoutOk, RelocateVector, Store64, Relocate, Load64;
  }

  /** The copied environment vector is one that the renaming loop can walk. */
  lemma RenameReady(m: seq<Byte>, l: Layout)
    requires LayoutOk(m, l) && StringsOk(m, l)
    ensures l.target < WORD && l.Strings() <= |m|
    ensures var rel := Relocated(m, l);
            && EnvInside(rel, l.Env(), l.envc, l.newBase) && Ptr(rel, l.Env(), l.envc) == 0
            && forall i :: 0 <= i < l.envc ==> Ptr(rel, l.Env(), i) != 0
  {
    RelocatedEnvInside(m, l);
    RelocationFrame(m, l);
    VectorsFit(m, l);
    NonZeroBase(m, l);
    hide LayoutOk, StringsOk, Relocated, Load64, EnvInside;
    forall i | 0 <= i < l.envc ensures Ptr(Relocated(m, l), l.Env(), i) != 0 {
      EnvRelocated(m, l, i);
    }
  }

  lemma NonZeroBase(m: seq<Byte>, l: Layout)
    requires LayoutOk(m, l)
    ensures l.newBase > 0
  {
  }

  /** Renaming does not reach the auxiliary vector. */
  lemma PatchReady(m: seq<Byte>, l: Layout)
    requires LayoutOk(m, l) && StringsOk(m, l)
    ensures l.target < WORD && l.Strings() <= |m| && EnvInside(Relocated(m, l), l.Env(), l.envc, l.newBase)
    ensures var renamed := RenamePreload(Relocated(m, l), l.Env(), l.envc, l.newBase);
            && (forall i :: 0 <= i < l.auxc ==> AuxType(renamed, l.Auxv(), i) != AT_NULL)
            && AuxType(renamed, l.Auxv(), l.auxc) == AT_NULL
  {
    hide LayoutOk, StringsOk, Relocated, Load64, EnvInside, FindPreload, RenamePreload;
    VectorsFit(m, l);
    RelocatedEnvInside(m, l);
    RelocationFrame(m, l);
    StringPtrs(m, l);
    LayoutParts(m, l);
    var rel := Relocated(m, l);
    var renamed := RenamePreload(rel, l.Env(), l.envc, l.newBase);
    RenameKeepsVectors(m, l);
    forall i | 0 <= i <= l.auxc ensures AuxType(renamed, l.Auxv(), i) == AuxType(m, l.Auxv(), i) {
      SameWord(renamed, m, l.Auxv() + 16 * i);
    }
  }

  lemma RenameKeepsVectors(m: seq<Byte>, l: Layout)
    requires LayoutOk(m, l) && StringsOk(m, l)
    ensures l.target < WORD && l.Strings() <= |m| && EnvInside(Relocated(m, l), l.Env(), l.envc, l.newBase)
    ensures SameOn(RenamePreload(Relocated(m, l), l.Env(), l.envc, l.newBase), m, l.Auxv(), l.Strings())
  {
    hide LayoutOk, StringsOk, Relocated, Load64, EnvInside, FindPreload, RenamePreload;
    VectorsFit(m, l);
    RelocatedEnvInside(m, l);
    RelocationFrame(m, l);
    StringPtrs(m, l);
    var rel := Relocated(m, l);
    var k := FindPreload(rel, l.Env(), l.envc, l.newBase, 0);
    if k < l.envc {
      RenamedFrame(rel, l.Env(), l.envc, l.newBase, k);
      EnvRelocated(m, l, k);
    } else {
      NothingRenamed(rel, l.Env(), l.envc, l.newBase);
    }
  }

  lemma NothingRenamed(m: seq<Byte>, env: nat, n: nat, region: nat)
    requires EnvInside(m, env, n, region)
    ensures FindPreload(m, env, n, region, 0) == n ==> RenamePreload(m, env, n, region) == m
  {
  }

  // ---------------------------------------------------------------- a stack whose preload setting is missed

  /** "k", "X=UH_PRELOAD" and "UH_PRELOAD=z" */
  const ARGUMENT: seq<Byte> := [107]
  const FIRST: seq<Byte> := [88, 61] + UH_PRELOAD
  const SECOND: seq<Byte> := UH_PRELOAD + [61, 122]

  /** One argument, these two environment entries, no auxiliary entry. */
  const SMALL: Layout := Layout(4096, 8192, 0, 1, 2, 0, 4168)

  function SmallVectors(): seq<Byte> {
    LeBytes(0, 8) + LeBytes(1, 4) + LeBytes(0, 4) + LeBytes(4168, 8) + LeBytes(0, 8)
    + LeBytes(4170, 8) + LeBytes(4183, 8) + LeBytes(0, 8) + LeBytes(0, 8) + LeBytes(0, 8)
  }

  function SmallStack(): seq<Byte> {
    SmallVectors() + (ARGUMENT + [0] + (FIRST + [0] + (SECOND + [0])))
  }

  lemma SmallSlices()
    ensures var m := SmallStack();
            && |m| == 100 && m[8..12] == LeBytes(1, 4) && m[16..24] == LeBytes(4168, 8) && m[24..32] == LeBytes(0, 8)
            && m[32..40] == LeBytes(4170, 8) && m[40..48] == LeBytes(4183, 8)
            && m[48..56] == LeBytes(0, 8) && m[56..64] == LeBytes(0, 8)
  {
    hide LeBytes;
  }

  lemma SmallWords()
    ensures var m := SmallStack();
            && |m| == 100 && LeValue(m[8..12]) == 1 && Load64(m, 16) == 4168 && Load64(m, 24) == 0
            && Load64(m, 32) == 4170 && Load64(m, 40) == 4183 && Load64(m, 48) == 0 && Load64(m, 56) == 0
  {
    hide LeBytes, LeValue, Pow256, SmallStack;
    WordIsEightBytes();
    SmallSlices();
    LeValueOfLeBytes(0, 8);
    LeValueOfLeBytes(1, 4);
    LeValueOfLeBytes(4168, 8);
    LeValueOfLeBytes(4170, 8);
    LeValueOfLeBytes(4183, 8);
  }

  lemma SmallStrings()
    ensures var m := SmallStack();
            && |m| == 100 && StrAt(m, 72) == ARGUMENT && StrAt(m, 74) == FIRST && StrAt(m, 87) == SECOND
            && Terminated(m, 72) && Terminated(m, 74) && Terminated(m, 87)
  {
    SmallSizes();
    hide SmallVectors, CString, ARGUMENT, FIRST, SECOND, StrAt, Terminated;
    var m := SmallStack();
    assert m == SmallVectors() + (ARGUMENT + [0] + (FIRST + [0] + (SECOND + [0])));
    StringIn(m, SmallVectors(), ARGUMENT, FIRST + [0] + (SECOND + [0]));
    assert m == SmallVectors() + (ARGUMENT + [0]) + (FIRST + [0] + (SECOND + [0]));
    StringIn(m, SmallVectors() + (ARGUMENT + [0]), FIRST, SECOND + [0]);
    assert m == SmallVectors() + (ARGUMENT + [0]) + (FIRST + [0]) + (SECOND + [0] + []);
    StringIn(m, SmallVectors() + (ARGUMENT + [0]) + (FIRST + [0]), SECOND, []);
  }

  lemma SmallSizes()
    ensures |SmallVectors()| == 72 && |ARGUMENT| == 1 && |FIRST| == 12 && |SECOND| == 12
    ensures 0 !in ARGUMENT && 0 !in FIRST && 0 !in SECOND
  {
    hide LeBytes;
  }

  /** A string followed by its NUL. */
  lemma StringIn(m: seq<Byte>, before: seq<Byte>, s: seq<Byte>, rest: seq<Byte>)
    requires m == before + (s + [0] + rest) && 0 !in s
    ensures StrAt(m, |before|) == s && Terminated(m, |before|)
  {
    assert m[|before|..] == s + [0] + rest;
    CStringOfStored(s, rest);
  }

  lemma SmallLayoutIsOk()
    ensures LayoutOk(SmallStack(), SMALL)
    ensures var m := SmallStack();
            Ptr(m, SMALL.Argv(), 0) == 4168 && Ptr(m, SMALL.Env(), 0) == 4170 && Ptr(m, SMALL.Env(), 1) == 4183
  {
    hide SmallStack, Load64, LeValue;
    SmallWords();
    var m := SmallStack();
    assert Ptr(m, SMALL.Argv(), 0) == 4168 && Ptr(m, SMALL.Argv(), 1) == 0;
    assert Ptr(m, SMALL.Env(), 0) == 4170 && Ptr(m, SMALL.Env(), 1) == 4183 && Ptr(m, SMALL.Env(), 2) == 0;
    assert AuxType(m, SMALL.Auxv(), 0) == AT_NULL;
  }

  lemma SmallStackIsOk()
    ensures LayoutOk(SmallStack(), SMALL) && StringsOk(SmallStack(), SMALL) && PreloadEntry(SmallStack(), SMALL) == 0
    ensures RenamedAt(SmallStack(), SMALL) == 74
  {
    SmallLayoutIsOk();
    hide SmallStack, Load64, LayoutOk, StrAt, StrStr, Terminated, PreloadEntry, EnvInside, FIRST, SECOND, ARGUMENT;
    SmallStrings();
    NamedAfterTwo();
    var m := SmallStack();
    assert StringPtr(m, SMALL, 4168) && StringPtr(m, SMALL, 4170) && StringPtr(m, SMALL, 4183);
    assert StringsOk(m, SMALL);
    PreloadEntryIs(m, SMALL);
    FirstIsFound(m, SMALL.Env(), 2, 4096);
  }

  lemma FirstIsFound(m: seq<Byte>, env: nat, n: nat, region: nat)
    requires EnvInside(m, env, n, region) && n > 0 && EntryInside(m, env, region, 0)
    requires NamesPreload(EnvString(m, env, region, 0))
    ensures FindPreload(m, env, n, region, 0) == 0
  {
    hide NamesPreload, EntryInside, StrAt;
  }

  lemma NamedAfterTwo()
    ensures StrStr(FIRST, UH_PRELOAD)
  {
    assert FIRST[1..][1..] == UH_PRELOAD;
    assert IsPrefix(UH_PRELOAD, FIRST[1..][1..]);
    assert StrStr(FIRST[1..][1..], UH_PRELOAD);
  }

  /**
   On this stack the first entry only mentions UH_PRELOAD, and it is the one that is rewritten: it becomes
   "LDUH_PRELOAD", while the UH_PRELOAD setting that follows is copied as it is and no LD_PRELOAD is set.
   */
  lemma MentionIsRenamedInstead(info: ImageInfo)
    ensures LayoutOk(SmallStack(), SMALL) && StringsOk(SmallStack(), SMALL)
    ensures var r := DeepCopy(SmallStack(), SMALL, info);
            && Spells(StrAt(SmallStack(), 74), "X=UH_PRELOAD") && Spells(StrAt(SmallStack(), 87), "UH_PRELOAD=z")
            && Spells(StrAt(r, 74), "LDUH_PRELOAD") && Spells(StrAt(r, 87), "UH_PRELOAD=z")
  {
    SmallStackIsOk();
    SmallLayoutIsOk();
    SmallStrings();
    hide SmallStack, SmallVectors, Load64, StrAt, LayoutOk, StringsOk, PreloadEntry, DeepCopy, RenamedAt, LeValue,
         Overlaid, SameMeaning, Terminated;
    var m := SmallStack();
    var r := DeepCopy(m, SMALL, info);
    DeepCopyPreservesMeaning(m, SMALL, info, 0);
    CopiedEnv(m, SMALL, info, 0, 1);
    MeaningIs(r, m, SMALL, Ptr(r, SMALL.Env(), 1), 4183, 74);
    KeptIffApart(SECOND, 87, 74);
    SmallSpelling();
    assert StrAt(r, 74) == [LETTER_L, LETTER_D] + UH_PRELOAD && StrAt(r, 87) == SECOND;
  }

  lemma SmallSpelling()
    ensures Spells(FIRST, "X=UH_PRELOAD") && Spells(SECOND, "UH_PRELOAD=z")
    ensures Spells([LETTER_L, LETTER_D] + UH_PRELOAD, "LDUH_PRELOAD")
  {
  }
}
