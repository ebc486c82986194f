/** Bytes, and the little-endian layout of integers in x86-64 memory and files. */
module Bytes {
  type Byte = b: int | 0 <= b < 256

  function Min(a: nat, b: nat): (m: nat)
    ensures m <= a && m <= b && (m == a || m == b)
  {
    if a <= b then a else b
  }

  function Zeros(n: nat): (z: seq<Byte>)
    ensures |z| == n && forall i :: 0 <= i < n ==> z[i] == 0
  {
    seq(n, _ => 0)
  }

  function Pow256(n: nat): (p: nat)
    ensures p > 0
  {
    if n == 0 then 1 else 256 * Pow256(n - 1)
  }

  /** The low n bytes of v, least significant first. */
  function LeBytes(v: nat, n: nat): (b: seq<Byte>)
    ensures |b| == n
  {
    if n == 0 then [] else [v % 256] + LeBytes(v / 256, n - 1)
  }

  function LeValue(b: seq<Byte>): (v: nat)
    ensures v < Pow256(|b|)
  {
    if |b| == 0 then 0 else b[0] + 256 * LeValue(b[1..])
  }

  lemma {:induction false} LeValueOfLeBytes(v: nat, n: nat)
    requires v < Pow256(n)
    ensures LeValue(LeBytes(v, n)) == v
  {
    if n > 0 {
      LeValueOfLeBytes(v / 256, n - 1);
      assert LeBytes(v, n)[1..] == LeBytes(v / 256, n - 1);
    }
  }

  lemma {:induction false} LeBytesOfLeValue(b: seq<Byte>)
    ensures LeBytes(LeValue(b), |b|) == b
  {
    if |b| > 0 {
      LeBytesOfLeValue(b[1..]);
      assert LeValue(b) / 256 == LeValue(b[1..]);
    }
  }

  lemma WordIsEightBytes()
    ensures Pow256(8) == 0x1_0000_0000_0000_0000 && Pow256(4) == 0x1_0000_0000 && Pow256(2) == 0x1_0000
  {
    assert Pow256(2) == 256 * Pow256(1);
    assert Pow256(4) == 256 * Pow256(3) == 256 * (256 * Pow256(2));
    assert Pow256(6) == 256 * Pow256(5) == 256 * (256 * Pow256(4));
    assert Pow256(8) == 256 * Pow256(7) == 256 * (256 * Pow256(6));
  }

  predicate IsPrefix(p: seq<Byte>, s: seq<Byte>) {
    |p| <= |s| && s[..|p|] == p
  }

  /** strstr(s, needle) != NULL, on C strings without their NUL. */
  predicate StrStr(s: seq<Byte>, needle: seq<Byte>) {
    IsPrefix(needle, s) || (s != [] && StrStr(s[1..], needle))
  }

  predicate StandsAt(s: seq<Byte>, k: nat, needle: seq<Byte>) {
    k + |needle| <= |s| && s[k..k + |needle|] == needle
  }

  /** strstr finds the needle if and only if it stands somewhere in the string. */
  lemma {:induction false} StrStrIff(s: seq<Byte>, needle: seq<Byte>)
    ensures StrStr(s, needle) <==> exists k: nat :: StandsAt(s, k, needle)
  {
    if IsPrefix(needle, s) {
      assert StandsAt(s, 0, needle);
    } else if s != [] {
      StrStrIff(s[1..], needle);
      forall k: nat ensures StandsAt(s[1..], k, needle) <==> StandsAt(s, k + 1, needle) {
        TailStands(s, k, needle);
      }
      if k: nat :| StandsAt(s, k, needle) {
        assert k > 0 && StandsAt(s[1..], k - 1, needle);
      }
      if k: nat :| StandsAt(s[1..], k, needle) {
        assert StandsAt(s, k + 1, needle);
      }
    }
  }

  lemma TailStands(s: seq<Byte>, k: nat, needle: seq<Byte>)
    requires s != []
    ensures StandsAt(s[1..], k, needle) <==> StandsAt(s, k + 1, needle)
  {
    if k + 1 + |needle| <= |s| {
      assert s[1..][k..k + |needle|] == s[k + 1..k + 1 + |needle|];
    }
  }

  /** The characters of the word stand in the buffer at k. */
  predicate ReadsAt(b: seq<Byte>, k: nat, word: string) {
    k + |word| <= |b| && forall i :: 0 <= i < |word| ==> b[k + i] == word[i] as int
  }

  /** The same word, as bytes. */
  predicate Spells(b: seq<Byte>, word: string) {
    |b| == |word| && forall i :: 0 <= i < |b| ==> b[i] == word[i] as int
  }

  lemma SpelledAt(b: seq<Byte>, k: nat, needle: seq<Byte>, word: string)
    requires Spells(needle, word) && k + |needle| <= |b|
    ensures ReadsAt(b, k, word) <==> StandsAt(b, k, needle)
  {
    if ReadsAt(b, k, word) {
      assert forall i :: 0 <= i < |needle| ==> b[k + i] == needle[i];
    } else {
      var i :| 0 <= i < |word| && b[k + i] != word[i] as int;
      assert b[k..k + |needle|][i] != needle[i];
    }
  }

  /** Little-endian: byte k holds digit k to the base 256. */
  lemma {:induction false} LeByteAt(v: nat, n: nat, k: nat)
    requires k < n
    ensures LeBytes(v, n)[k] == v / Pow256(k) % 256
  {
    if k > 0 {
      LeByteAt(v / 256, n - 1, k - 1);
      DivideTwice(v, Pow256(k - 1));
    }
  }

  lemma DivideTwice(v: nat, p: nat)
    requires p > 0
    ensures v / 256 / p == v / (256 * p)
  {
    var q := v / 256 / p;
    var r := v / 256 % p;
    assert v / 256 == q * p + r;
    assert v == 256 * (q * p + r) + v % 256;
    var rest := 256 * r + v % 256;
    assert 256 * (q * p + r) == q * (256 * p) + 256 * r;
    QuotientIs(v, 256 * p, q, rest);
  }

  lemma QuotientIs(v: nat, d: nat, q: nat, r: nat)
    requires v == q * d + r && r < d
    ensures v / d == q
  {
    var e := q - v / d;
    assert v == v / d * d + v % d;
    assert e * d == q * d - v / d * d == v % d - r;
    Multiple(e, d);
  }

  lemma Multiple(e: int, d: int)
    requires d >= 0
    ensures e >= 1 ==> e * d >= d
    ensures e <= -1 ==> e * d <= -d
  {
  }
}
