/**
 The parser of /proc/self/maps (procmapsutils.c) and, as its independent partner, a printer of the
 format of proc(5): "start-end perms offset major:minor inode   name\n".
 */
module ProcMaps {
  import opened Areas
  import opened Bytes
  import opened Pages
  import opened Transfer

  const NEWLINE: Byte := 10
  const SPACE: Byte := 32
  const ZERO: Byte := 48
  const DASH: Byte := 45
  const SLASH: Byte := 47
  const COLON: Byte := 58
  const BRACKET: Byte := 91

  const MAP_SHARED: nat := 0x01
  const MAP_PRIVATE: nat := 0x02
  const MAP_FIXED: nat := 0x10
  const MAP_ANONYMOUS: nat := 0x20

  // ---------------------------------------------------------------- numbers

  /** The value of a digit character in base 10 or 16, or None. */
  function DigitValue(c: Byte, base: nat): (d: int)
    ensures -1 <= d && (base == 10 || base == 16 ==> d < base)
  {
    if 48 <= c <= 57 then c - 48
    else if base == 16 && 97 <= c <= 102 then c - 87
    else if base == 16 && 65 <= c <= 70 then c - 55
    else -1
  }

  function DigitChar(d: nat): (c: Byte)
    requires d < 16
    ensures DigitValue(c, 16) == d && (d < 10 ==> DigitValue(c, 10) == d)
  {
    "0123456789abcdef"[d] as int
  }

  /** v * base + d in 64-bit arithmetic. */
  function Shift(v: Word, base: nat, d: nat): Word
    requires base == 10 || base == 16
  {
    ((if base == 10 then v * 10 else v * 16) + d) % WORD
  }

  function Front(v: nat, base: nat): (q: nat)
    requires base == 10 || base == 16
    ensures q <= v && (q == v ==> v == 0)
  {
    if base == 10 then v / 10 else v / 16
  }

  function LastDigit(v: nat, base: nat): (d: nat)
    requires base == 10 || base == 16
    ensures d < base
  {
    if base == 10 then v % 10 else v % 16
  }

  /** Digits of v, most significant first, at least `width` of them. */
  function PrintNumber(v: nat, base: nat, width: nat): (b: seq<Byte>)
    requires base == 10 || base == 16
    ensures |b| > 0
    decreases v, width
  {
    if v < base && width <= 1 then [DigitChar(v)]
    else PrintNumber(Front(v, base), base, if width > 0 then width - 1 else 0) + [DigitChar(LastDigit(v, base))]
  }

  predicate AllDigits(b: seq<Byte>, base: nat) {
    forall c :: c in b ==> DigitValue(c, base) >= 0
  }

  /** What the accumulator of readHex or readDec becomes over a run of digits. */
  function Accumulate(b: seq<Byte>, base: nat, v: Word): Word
    requires base == 10 || base == 16
    requires AllDigits(b, base)
  {
    if b == [] then v
    else
      assert b[0] in b;
      Accumulate(b[1..], base, Shift(v, base, DigitValue(b[0], base)))
  }

  lemma {:induction false} AccumulateLast(b: seq<Byte>, c: Byte, base: nat, v: Word)
    requires base == 10 || base == 16
    requires AllDigits(b + [c], base)
    ensures AllDigits(b, base) && DigitValue(c, base) >= 0
    ensures Accumulate(b + [c], base, v) == Shift(Accumulate(b, base, v), base, DigitValue(c, base))
  {
    assert c in b + [c] && forall d :: d in b ==> d in b + [c];
    if b != [] {
      assert (b + [c])[1..] == b[1..] + [c];
      AccumulateLast(b[1..], c, base, Shift(v, base, DigitValue(b[0], base)));
    }
  }

  lemma ShiftRejoins(v: Word, base: nat)
    requires base == 10 || base == 16
    ensures Shift(Front(v, base), base, LastDigit(v, base)) == v
  {
  }

  /** Reading back a printed number yields the number, whatever its zero padding. */
  lemma {:induction false} AccumulatePrinted(v: Word, base: nat, width: nat)
    requires base == 10 || base == 16
    ensures AllDigits(PrintNumber(v, base, width), base)
    ensures Accumulate(PrintNumber(v, base, width), base, 0) == v
    decreases v, width
  {
    hide Shift, Front, LastDigit, Accumulate, DigitChar;
    if v < base && width <= 1 {
      assert PrintNumber(v, base, width) == [] + [DigitChar(v)];
      AccumulateLast([], DigitChar(v), base, 0);
      LoneDigit(v, base);
    } else {
      var w := if width > 0 then width - 1 else 0;
      var front, last := PrintNumber(Front(v, base), base, w), DigitChar(LastDigit(v, base));
      AccumulatePrinted(Front(v, base), base, w);
      assert forall c :: c in front + [last] ==> c in front || c == last;
      AccumulateLast(front, last, base, 0);
      ShiftRejoins(v, base);
      assert PrintNumber(v, base, width) == front + [last];
    }
  }

  lemma LoneDigit(v: Word, base: nat)
    requires (base == 10 || base == 16) && v < base
    ensures Shift(Accumulate([], base, 0), base, v) == v
  {
  }

  /** The digits are the characters 0 to 9, and to base 16 the letters a to f in either case. */
  lemma DigitLetters(c: Byte, d: nat)
    requires d < 16
    ensures DigitValue(c, 10) == d <==> d < 10 && c == "0123456789"[d] as int
    ensures DigitValue(c, 16) == d <==> c == "0123456789abcdef"[d] as int || c == "0123456789ABCDEF"[d] as int
  {
  }

  /** The number that a run of digits stands for. */
  function NumberOf(b: seq<Byte>, base: nat): nat
    requires (base == 10 || base == 16) && AllDigits(b, base)
  {
    if b == [] then 0
    else
      assert b[|b| - 1] in b && forall c :: c in b[..|b| - 1] ==> c in b;
      var front := NumberOf(b[..|b| - 1], base);
      (if base == 10 then front * 10 else front * 16) + DigitValue(b[|b| - 1], base)
  }

  /** Whatever the number of digits, they are read as their number modulo 2^64. */
  lemma {:induction false} AccumulateIsNumber(b: seq<Byte>, base: nat)
    requires (base == 10 || base == 16) && AllDigits(b, base)
    ensures Accumulate(b, base, 0) == NumberOf(b, base) % WORD
    decreases |b|
  {
    if b != [] {
      var front, c := b[..|b| - 1], b[|b| - 1];
      assert b == front + [c];
      AccumulateLast(front, c, base, 0);
      AccumulateIsNumber(front, base);
      ShiftModulo(NumberOf(front, base), base, DigitValue(c, base));
    }
  }

  lemma ShiftModulo(v: nat, base: nat, d: nat)
    requires base == 10 || base == 16
    ensures Shift(v % WORD, base, d) == ((if base == 10 then v * 10 else v * 16) + d) % WORD
  {
    var q, r := v / WORD, v % WORD;
    assert v == q * WORD + r;
    WholeTurns(r * 10 + d, q * 10);
    WholeTurns(r * 16 + d, q * 16);
  }

  lemma {:induction false} WholeTurns(x: nat, k: nat)
    ensures (x + k * WORD) % WORD == x % WORD
  {
    if k > 0 {
      WholeTurns(x, k - 1);
      OneTurn(x + (k - 1) * WORD);
    }
  }

  lemma OneTurn(x: nat)
    ensures (x + WORD) % WORD == x % WORD
  {
  }

  // ---------------------------------------------------------------- the parser as a function

  /** readChar: the next character, or NUL at the end of the text. */
  function CharAt(text: seq<Byte>, i: nat): Byte {
    if i < |text| then text[i] else 0
  }

  function After(text: seq<Byte>, i: nat): (j: nat)
    ensures i <= |text| ==> i <= j <= |text|
  {
    if i < |text| then i + 1 else i
  }

  /** A number, the character that ended it and the position after that character. */
  datatype Number = Number(value: Word, stop: Byte, next: nat)

  function ReadNumber(text: seq<Byte>, i: nat, base: nat, v: Word): (n: Number)
    requires base == 10 || base == 16
    requires i <= |text|
    ensures i <= n.next <= |text|
    decreases |text| - i
  {
    var d := DigitValue(CharAt(text, i), base);
    if d >= 0 then ReadNumber(text, i + 1, base, Shift(v, base, d))
    else Number(v, CharAt(text, i), After(text, i))
  }

  datatype Parse =
    | Line(area: Area, next: nat)   // returned 1
    | End(next: nat)                // returned 0
    | Bad                           // skipeol: the process aborts

  predicate Flag(c: Byte, on: Byte) {
    c == on || c == DASH
  }

  /** The position of the first non-blank character from i on. */
  function SkipSpaces(text: seq<Byte>, i: nat): (j: nat)
    requires i <= |text|
    ensures i <= j <= |text|
    ensures CharAt(text, j) != SPACE
    decreases |text| - i
  {
    if CharAt(text, i) == SPACE then SkipSpaces(text, i + 1) else i
  }

  /** The name loop: stores c at k and goes on until a newline; None when the buffer is full. */
  function ReadName(text: seq<Byte>, i: nat, c: Byte, k: nat, name: seq<Byte>): (r: (seq<Byte>, nat, bool))
    requires i <= |text| && k < FILENAMESIZE == |name|
    ensures |r.0| == FILENAMESIZE && i <= r.1 <= |text|
    decreases FILENAMESIZE - k
  {
    var stored := name[k := c];
    if k + 1 == FILENAMESIZE then (stored, i, false)
    else
      var d := CharAt(text, i);
      if d == NEWLINE then (stored[k + 1 := 0], After(text, i), true)
      else ReadName(text, After(text, i), d, k + 1, stored)
  }

  function ProtBits(r: bool, w: bool, x: bool): (p: nat)
    ensures p < 8
  {
    (if r then 1 else 0) + (if w then 2 else 0) + (if x then 4 else 0)
  }

  function MapFlags(shared: bool, anonymous: bool): (f: nat)
    ensures f < 0x100
  {
    MAP_FIXED + (if shared then MAP_SHARED else MAP_PRIVATE) + (if anonymous then MAP_ANONYMOUS else 0)
  }

  /** From the character that ended the inode number to the end of the line. */
  function ParseName(text: seq<Byte>, n: Number, a: Area): (p: Parse)
    requires n.next <= |text|
    ensures !p.End? && (p.Line? ==> n.next <= p.next <= |text|)
  {
    var cleared := a.name[0 := 0];
    var at := if n.stop == SPACE then SkipSpaces(text, n.next) else n.next;
    var c := if n.stop == SPACE then CharAt(text, at) else n.stop;
    var i := if n.stop == SPACE then After(text, at) else at;
    if c == SLASH || c == BRACKET then
      var (name, next, ok) := ReadName(text, i, c, 0, cleared);
      if ok then Line(a.(name := name), next) else Bad
    else if c == NEWLINE then Line(a.(name := cleared), i)
    else Bad
  }

  /** The record once every field of a line is known; its name buffer is already filled. */
  function Filled(a: Area, start: Word, end: Word, prot: nat, shared: bool,
                  offset: Word, major: Word, minor: Word, inode: Word): Area
    requires start <= end && prot < 8
  {
    a.(addr := start, endAddr := end, size := end - start, offset := offset,
    protSlot := SetInt(a.protSlot, prot),
    flagsSlot := SetInt(a.flagsSlot, MapFlags(shared, a.name[0] == 0)),
    devmajor := major, devminor := minor, inodenum := inode)
  }

  /** The part of readMapsLine after the permissions. */
  function ParseNumbers(text: seq<Byte>, i: nat, start: Word, end: Word, prot: nat, shared: bool,
                        prior: Area): (p: Parse)
    requires i <= |text| && start <= end && prot < 8
    ensures !p.End? && (p.Line? ==> i <= p.next <= |text|)
  {
    var offset := ReadNumber(text, i, 16, 0);
    if offset.stop != SPACE then Bad
    else
      var major := ReadNumber(text, offset.next, 16, 0);
      if major.stop != COLON then Bad
      else
        var minor := ReadNumber(text, major.next, 16, 0);
        if minor.stop != SPACE then Bad
        else
          var inode := ReadNumber(text, minor.next, 10, 0);
          var named := ParseName(text, inode, prior);
          if named.Line? then
            Line(Filled(named.area, start, end, prot, shared, offset.value, major.value, minor.value, inode.value),
                 named.next)
          else Bad
  }

  predicate PermsOk(text: seq<Byte>, i: nat) {
    && Flag(CharAt(text, i), 114)
    && Flag(CharAt(text, i + 1), 119)
    && Flag(CharAt(text, i + 2), 120)
    && (CharAt(text, i + 3) == 115 || CharAt(text, i + 3) == 112)
    && CharAt(text, i + 4) == SPACE
  }

  /** The part of readMapsLine after the two addresses. */
  function ParseFields(text: seq<Byte>, i: nat, start: Word, end: Word, prior: Area): (p: Parse)
    requires i <= |text| && start <= end
    ensures !p.End? && (p.Line? ==> i <= p.next <= |text|)
  {
    if !PermsOk(text, i) then Bad
    else ParseNumbers(text, i + 5, start, end, ProtBits(text[i] == 114, text[i + 1] == 119, text[i + 2] == 120),
                      text[i + 3] == 115, prior)
  }

  /** readMapsLine on the text from position i, filling the area record `prior`. */
  function ParseLine(text: seq<Byte>, i: nat, prior: Area): (p: Parse)
    requires i <= |text|
    ensures p.Line? ==> i <= p.next <= |text|
    ensures p.End? ==> i <= p.next <= |text|
  {
    var start := ReadNumber(text, i, 16, 0);
    if start.stop != DASH then
      if start.stop == 0 && start.value == 0 then End(start.next) else Bad
    else
      var end := ReadNumber(text, start.next, 16, 0);
      if end.stop != SPACE || end.value < start.value then Bad
      else ParseFields(text, end.next, start.value, end.value, prior)
  }

  // ---------------------------------------------------------------- the printer, in the characters of proc(5)

  /** One line of the file; `spaces` is the blank padding before the name. */
  datatype MapsLine = MapsLine(addr: Word, endAddr: Word, r: bool, w: bool, x: bool, shared: bool, offset: Word,
                               devmajor: Word, devminor: Word, inodenum: Word, spaces: nat, name: seq<Byte>)

  /** What the kernel prints: ordered bounds, a name without newline or NUL, set apart by blanks. */
  predicate Printable(l: MapsLine) {
    && l.addr <= l.endAddr
    && '\n' as int !in l.name && 0 !in l.name
    && (l.name != [] ==> l.spaces > 0)
  }

  /** The names that readMapsLine accepts. */
  predicate NameAccepted(name: seq<Byte>) {
    name == [] || ((name[0] == '/' as int || name[0] == '[' as int) && |name| <= 1023)
  }

  function Blanks(n: nat): (b: seq<Byte>)
    ensures |b| == n && forall i :: 0 <= i < n ==> b[i] == ' ' as int
  {
    seq(n, _ => ' ' as int)
  }

  function PrintHead(l: MapsLine): seq<Byte> {
    PrintNumber(l.addr, 16, 8) + ['-' as int] + (PrintNumber(l.endAddr, 16, 8) + [' ' as int])
  }

  function PrintPerms(l: MapsLine): (b: seq<Byte>)
    ensures |b| == 5
  {
    [if l.r then 'r' as int else '-' as int, if l.w then 'w' as int else '-' as int,
     if l.x then 'x' as int else '-' as int, if l.shared then 's' as int else 'p' as int, ' ' as int]
  }

  function PrintNumbers(l: MapsLine): seq<Byte> {
    (PrintNumber(l.offset, 16, 8) + [' ' as int]) + (PrintNumber(l.devmajor, 16, 2) + [':' as int])
    + (PrintNumber(l.devminor, 16, 2) + [' ' as int])
  }

  function PrintTail(l: MapsLine): seq<Byte> {
    PrintNumber(l.inodenum, 10, 1) + Blanks(l.spaces) + l.name + ['\n' as int]
  }

  function PrintLine(l: MapsLine): seq<Byte> {
    PrintHead(l) + PrintPerms(l) + PrintNumbers(l) + PrintTail(l)
  }

  function PrintLines(ls: seq<MapsLine>): seq<Byte> {
    if ls == [] then [] else PrintLine(ls[0]) + PrintLines(ls[1..])
  }

  /** The C string held by a character buffer. */
  function CString(buf: seq<Byte>): (s: seq<Byte>)
    ensures |s| <= |buf| && 0 !in s
  {
    if buf == [] || buf[0] == 0 then [] else [buf[0]] + CString(buf[1..])
  }

  /** The characters of the word stand in the buffer before its NUL. */
  ghost predicate Mentions(buf: seq<Byte>, word: string) {
    exists k: nat :: ReadsAt(buf, k, word) && 0 !in buf[..k + |word|]
  }

  /** The C string goes up to the first NUL. */
  lemma {:induction false} CStringIsPrefix(buf: seq<Byte>)
    ensures CString(buf) == buf[..|CString(buf)|]
    ensures |CString(buf)| < |buf| ==> buf[|CString(buf)|] == 0
  {
    if buf != [] && buf[0] != 0 {
      CStringIsPrefix(buf[1..]);
      assert buf[1..][..|CString(buf[1..])|] == buf[1..|CString(buf)|];
    }
  }

  /** strstr on a buffer. */
  lemma MentionsIffFound(buf: seq<Byte>, needle: seq<Byte>, word: string)
    requires Spells(needle, word)
    ensures StrStr(CString(buf), needle) <==> Mentions(buf, word)
  {
    var s := CString(buf);
    CStringIsPrefix(buf);
    StrStrIff(s, needle);
    forall k: nat ensures StandsAt(s, k, needle) <==> ReadsAt(buf, k, word) && 0 !in buf[..k + |word|] {
      FoundBeforeNul(buf, k, needle, word);
    }
  }

  lemma FoundBeforeNul(buf: seq<Byte>, k: nat, needle: seq<Byte>, word: string)
    requires Spells(needle, word)
    ensures StandsAt(CString(buf), k, needle) <==> ReadsAt(buf, k, word) && 0 !in buf[..k + |word|]
  {
    var s, n := CString(buf), k + |word|;
    CStringIsPrefix(buf);
    if n <= |buf| {
      SpelledAt(buf, k, needle, word);
    }
    if n <= |s| {
      assert s[k..n] == buf[k..n] && buf[..n] == s[..n];
    } else if n <= |buf| {
      assert buf[..n][|s|] == 0;
    }
  }

  /** PROT_READ is 1, PROT_WRITE 2 and PROT_EXEC 4. */
  predicate ProtIs(prot: nat, r: bool, w: bool, x: bool) {
    prot < 8 && (prot % 2 == 1 <==> r) && (prot / 2 % 2 == 1 <==> w) && (prot / 4 % 2 == 1 <==> x)
  }

  /** MAP_SHARED is 1, MAP_PRIVATE 2, MAP_FIXED 0x10 and MAP_ANONYMOUS 0x20; no other bit is set. */
  predicate FlagsAre(flags: nat, shared: bool, anonymous: bool) {
    && (flags % 2 == 1 <==> shared) && (flags / 2 % 2 == 1 <==> !shared)
    && flags / 0x10 % 2 == 1 && (flags / 0x20 % 2 == 1 <==> anonymous)
    && flags / 4 % 4 == 0 && flags < 0x40
  }

  lemma BitsDetermine(prot: nat, r: bool, w: bool, x: bool)
    ensures ProtIs(prot, r, w, x) <==> prot == ProtBits(r, w, x)
    ensures FlagsAre(MapFlags(r, w), r, w)
  {
  }

  /** The record describes the line: bounds, size, protection, flags, offset, device, inode and name. */
  ghost predicate Describes(a: Area, l: MapsLine) {
    && a.addr == l.addr && a.endAddr == l.endAddr && a.size == l.endAddr - l.addr
    && ProtIs(a.Prot(), l.r, l.w, l.x) && FlagsAre(a.Flags(), l.shared, l.name == [])
    && a.offset == l.offset && a.devmajor == l.devmajor && a.devminor == l.devminor && a.inodenum == l.inodenum
    && CString(a.name) == l.name
  }

  // ---------------------------------------------------------------- parsing what was printed

  predicate At(text: seq<Byte>, i: nat, b: seq<Byte>) {
    i + |b| <= |text| && text[i..i + |b|] == b
  }

  lemma AtSplit(text: seq<Byte>, i: nat, a: seq<Byte>, b: seq<Byte>)
    requires At(text, i, a + b)
    ensures At(text, i, a) && At(text, i + |a|, b)
  {
    assert text[i..i + |a|] == (a + b)[..|a|];
    assert text[i + |a|..i + |a| + |b|] == (a + b)[|a|..];
  }

  lemma {:induction false} ReadDigits(text: seq<Byte>, i: nat, b: seq<Byte>, base: nat, v: Word)
    requires base == 10 || base == 16
    requires At(text, i, b) && AllDigits(b, base) && DigitValue(CharAt(text, i + |b|), base) < 0
    ensures ReadNumber(text, i, base, v) ==
            Number(Accumulate(b, base, v), CharAt(text, i + |b|), After(text, i + |b|))
    decreases |b|
  {
    if b != [] {
      assert b[0] in b;
      assert text[i] == text[i..i + |b|][0];
      assert text[i + 1..i + |b|] == text[i..i + |b|][1..];
      ReadDigits(text, i + 1, b[1..], base, Shift(v, base, DigitValue(b[0], base)));
    }
  }

  /** A printed number and a separator that is no digit. */
  lemma ReadPrinted(text: seq<Byte>, i: nat, v: Word, base: nat, width: nat, stop: Byte)
    requires base == 10 || base == 16
    requires DigitValue(stop, base) < 0 && At(text, i, PrintNumber(v, base, width) + [stop])
    ensures ReadNumber(text, i, base, 0) == Number(v, stop, i + |PrintNumber(v, base, width)| + 1)
  {
    var b := PrintNumber(v, base, width);
    AtSplit(text, i, b, [stop]);
    assert text[i + |b|] == text[i + |b|..i + |b| + 1][0];
    AccumulatePrinted(v, base, width);
    ReadDigits(text, i, b, base, 0);
  }

  lemma {:induction false} SkipBlanks(text: seq<Byte>, i: nat, n: nat)
    requires At(text, i, Blanks(n)) && CharAt(text, i + n) != SPACE
    ensures SkipSpaces(text, i) == i + n
    decreases n
  {
    if n > 0 {
      assert text[i] == text[i..i + n][0];
      assert text[i + 1..i + n] == text[i..i + n][1..] == Blanks(n - 1);
      SkipBlanks(text, i + 1, n - 1);
    }
  }

  /** The name buffer after the whole name and its NUL have been stored over `old` contents. */
  function Stored(name: seq<Byte>, buf: seq<Byte>): (r: seq<Byte>)
    requires |name| < FILENAMESIZE == |buf|
    ensures |r| == FILENAMESIZE
  {
    name + [0] + buf[|name| + 1..]
  }

  lemma {:induction false} ReadStoredName(text: seq<Byte>, i: nat, name: seq<Byte>, k: nat, buf: seq<Byte>)
    requires 1 <= k <= |name| && |buf| == FILENAMESIZE && NEWLINE !in name
    requires At(text, i, name[k..] + [NEWLINE]) && k <= FILENAMESIZE && buf[..k - 1] == name[..k - 1]
    ensures var r := ReadName(text, i, name[k - 1], k - 1, buf);
            if |name| < FILENAMESIZE then r == (Stored(name, buf), i + |name| - k + 1, true) else !r.2
    decreases |name| - k
  {
    hide Stored, At;
    var stored := buf[k - 1 := name[k - 1]];
    NextNameByte(text, i, name, k);
    if k < FILENAMESIZE {
      StoreNext(name, buf, k);
      if k < |name| {
        assert stored[..k] == name[..k];
        ReadStoredName(text, i + 1, name, k + 1, stored);
      }
    }
  }

  lemma NextNameByte(text: seq<Byte>, i: nat, name: seq<Byte>, k: nat)
    requires k <= |name| && NEWLINE !in name && At(text, i, name[k..] + [NEWLINE])
    ensures i < |text| && text[i] == if k < |name| then name[k] else NEWLINE
    ensures k < |name| ==> text[i] != NEWLINE && At(text, i + 1, name[k + 1..] + [NEWLINE])
  {
    var rest := name[k..] + [NEWLINE];
    assert text[i] == text[i..i + |rest|][0];
    if k < |name| {
      assert name[k] in name;
      assert text[i + 1..i + |rest|] == text[i..i + |rest|][1..] == name[k + 1..] + [NEWLINE];
    }
  }

  lemma StoreNext(name: seq<Byte>, buf: seq<Byte>, k: nat)
    requires 1 <= k <= |name| && k < FILENAMESIZE == |buf| && buf[..k - 1] == name[..k - 1]
    ensures k == |name| ==> buf[k - 1 := name[k - 1]][k := 0] == Stored(name, buf)
    ensures |name| < FILENAMESIZE ==> Stored(name, buf[k - 1 := name[k - 1]]) == Stored(name, buf)
  {
  }

  lemma {:induction false} CStringOfStored(name: seq<Byte>, rest: seq<Byte>)
    requires 0 !in name
    ensures CString(name + [0] + rest) == name
  {
    if name != [] {
      assert name[0] in name;
      assert (name + [0] + rest)[1..] == name[1..] + [0] + rest;
      CStringOfStored(name[1..], rest);
    }
  }

  /** The blanks before a name, wherever the inode number's own separator left the parser. */
  lemma SkipToName(text: seq<Byte>, i: nat, spaces: nat, n: Number, c: Byte)
    requires At(text, i, Blanks(spaces) + [c]) && c != SPACE
    requires n.stop == CharAt(text, i) && n.next == After(text, i)
    ensures if n.stop == SPACE then spaces > 0 && SkipSpaces(text, n.next) == i + spaces else spaces == 0
    ensures CharAt(text, i + spaces) == c && After(text, i + spaces) == i + spaces + 1
  {
    AtSplit(text, i, Blanks(spaces), [c]);
    assert text[i + spaces] == text[i + spaces..i + spaces + 1][0];
    if spaces > 0 {
      assert text[i] == text[i..i + spaces][0] == SPACE;
      assert text[i + 1..i + spaces] == text[i..i + spaces][1..] == Blanks(spaces - 1);
      SkipBlanks(text, i + 1, spaces - 1);
    }
  }

  /** A name as it stands once the blanks before it are skipped: the kernel pads with blanks too. */
  predicate Trimmed(name: seq<Byte>) {
    name == [] || name[0] != SPACE
  }

  /** The rest of a line after the inode number's digits: a name that is not accepted is a bad line. */
  lemma ParsePrintedName(text: seq<Byte>, l: MapsLine, i: nat, n: Number, a: Area)
    requires Printable(l) && Trimmed(l.name)
    requires At(text, i, Blanks(l.spaces) + (l.name + [NEWLINE]))
    requires n.stop == CharAt(text, i) && n.next == After(text, i)
    ensures ParseName(text, n, a) == NameOutcome(l, a, i + l.spaces + |l.name| + 1)
  {
    hide *;
    var m := i + l.spaces;
    NameStart(text, l, i, n);
    NameInText(text, l, i);
    PrintableName(l);
    var c := if l.name == [] then NEWLINE else l.name[0];
    ParseNameIs(text, n, a, m, c);
    NameOutcomeIs(l, a, m + |l.name| + 1);
    if l.name != [] && IsNameStart(c) {
      ReadStoredName(text, m + 1, l.name, 1, a.name[0 := 0]);
    }
  }

  function NameOutcome(l: MapsLine, a: Area, next: nat): Parse {
    if NameAccepted(l.name) then Line(a.(name := Stored(l.name, a.name)), next) else Bad
  }

  lemma NameOutcomeIs(l: MapsLine, a: Area, next: nat)
    requires Printable(l)
    ensures |a.name| == FILENAMESIZE == 1024
    ensures l.name == [] ==> NameOutcome(l, a, next) == Line(a.(name := a.name[0 := 0]), next)
    ensures l.name != [] && !IsNameStart(l.name[0]) ==> NameOutcome(l, a, next) == Bad && l.name[0] != NEWLINE
    ensures l.name != [] && IsNameStart(l.name[0]) ==>
              && |a.name[0 := 0]| == FILENAMESIZE && a.name[0 := 0][..0] == l.name[..0]
              && NameOutcome(l, a, next) ==
                 if |l.name| < FILENAMESIZE then Line(a.(name := Stored(l.name, a.name[0 := 0])), next) else Bad
  {
    if NameAccepted(l.name) {
      StoredOverCleared(l.name, a.name);
    }
    assert l.name != [] ==> l.name[0] in l.name;
    hide Stored;
  }

  lemma NameInText(text: seq<Byte>, l: MapsLine, i: nat)
    requires At(text, i, Blanks(l.spaces) + (l.name + [NEWLINE]))
    ensures i + l.spaces < |text| && After(text, i) <= |text|
  {
  }

  lemma PrintableName(l: MapsLine)
    requires Printable(l)
    ensures NEWLINE !in l.name
  {
  }

  predicate IsNameStart(c: Byte) {
    c == SLASH || c == BRACKET
  }

  /** ParseName once the blanks are known to end at position m with character c. */
  lemma ParseNameIs(text: seq<Byte>, n: Number, a: Area, m: nat, c: Byte)
    requires n.next <= |text| && m <= |text| && CharAt(text, m) == c && After(text, m) == m + 1
    requires if n.stop == SPACE then SkipSpaces(text, n.next) == m else n.stop == c && n.next == m + 1
    ensures c == NEWLINE ==> ParseName(text, n, a) == Line(a.(name := a.name[0 := 0]), m + 1)
    ensures IsNameStart(c) ==>
              var r := ReadName(text, m + 1, c, 0, a.name[0 := 0]);
              ParseName(text, n, a) == if r.2 then Line(a.(name := r.0), r.1) else Bad
    ensures c != NEWLINE && !IsNameStart(c) ==> ParseName(text, n, a) == Bad
  {
    hide ReadName, SkipSpaces, CharAt, After;
  }

  /** Clearing the first character beforehand makes no difference to the stored name. */
  lemma StoredOverCleared(name: seq<Byte>, buf: seq<Byte>)
    requires |name| < FILENAMESIZE == |buf|
    ensures Stored(name, buf[0 := 0]) == Stored(name, buf)
    ensures buf[0 := 0] == Stored([], buf)
    ensures name != [] ==> buf[0 := 0][..0] == name[..0]
  {
  }

  /** The blanks are skipped up to the first character of the name, or the newline of a nameless line. */
  lemma NameStart(text: seq<Byte>, l: MapsLine, i: nat, n: Number)
    requires Printable(l) && Trimmed(l.name)
    requires At(text, i, Blanks(l.spaces) + (l.name + [NEWLINE]))
    requires n.stop == CharAt(text, i) && n.next == After(text, i)
    ensures var m := i + l.spaces;
            && (if n.stop == SPACE then l.spaces > 0 && SkipSpaces(text, n.next) == m else l.spaces == 0)
            && CharAt(text, m) == (if l.name == [] then NEWLINE else l.name[0]) && After(text, m) == m + 1
            && (l.name != [] ==> At(text, m + 1, l.name[1..] + [NEWLINE]))
  {
    var tail := l.name + [NEWLINE];
    var rest := tail[1..];
    assert tail == [tail[0]] + rest;
    assert Blanks(l.spaces) + tail == Blanks(l.spaces) + [tail[0]] + rest;
    AtSplit(text, i, Blanks(l.spaces) + [tail[0]], rest);
    assert l.name != [] ==> l.name[0] in l.name && rest == l.name[1..] + [NEWLINE];
    hide At, SkipSpaces, Blanks, Printable;
    SkipToName(text, i, l.spaces, n, tail[0]);
  }

  /** The record that results from parsing line l over the contents of `prior`. */
  function AreaOf(l: MapsLine, prior: Area): Area
    requires Printable(l) && NameAccepted(l.name)
  {
    Filled(prior.(name := Stored(l.name, prior.name)), l.addr, l.endAddr, ProtBits(l.r, l.w, l.x), l.shared,
           l.offset, l.devmajor, l.devminor, l.inodenum)
  }

  lemma AreaOfDescribes(l: MapsLine, prior: Area)
    requires Printable(l) && NameAccepted(l.name)
    ensures Describes(AreaOf(l, prior), l)
  {
    BitsDetermine(ProtBits(l.r, l.w, l.x), l.r, l.w, l.x);
    BitsDetermine(0, l.shared, l.name == [], false);
    CStringOfStored(l.name, prior.name[|l.name| + 1..]);
    assert CString(Stored(l.name, prior.name)) == l.name;
    assert l.name != [] ==> l.name[0] in l.name;
  }

  /** The offset and the device numbers of a printed line. */
  lemma SeparatorsEndNumbers()
    ensures DigitValue(SPACE, 16) < 0 && DigitValue(COLON, 16) < 0
  {
  }

  lemma ParsePrintedNumbers(text: seq<Byte>, l: MapsLine, i: nat)
    requires At(text, i, PrintNumbers(l))
    ensures var offset := ReadNumber(text, i, 16, 0);
            var major := ReadNumber(text, offset.next, 16, 0);
            var minor := ReadNumber(text, major.next, 16, 0);
            && offset.value == l.offset && offset.stop == SPACE
            && major.value == l.devmajor && major.stop == COLON
            && minor == Number(l.devminor, SPACE, i + |PrintNumbers(l)|)
  {
    hide ReadNumber, PrintNumber, At;
    SeparatorsEndNumbers();
    var a := PrintNumber(l.offset, 16, 8) + [SPACE];
    var b := PrintNumber(l.devmajor, 16, 2) + [COLON];
    var c := PrintNumber(l.devminor, 16, 2) + [SPACE];
    AtSplit(text, i, a + b, c);
    AtSplit(text, i, a, b);
    ReadPrinted(text, i, l.offset, 16, 8, SPACE);
    var j := i + |a|;
    assert ReadNumber(text, i, 16, 0) == Number(l.offset, SPACE, j);
    ReadPrinted(text, j, l.devmajor, 16, 2, COLON);
    var k := j + |b|;
    assert ReadNumber(text, j, 16, 0) == Number(l.devmajor, COLON, k);
    ReadPrinted(text, k, l.devminor, 16, 2, SPACE);
    assert k + |c| == i + |PrintNumbers(l)|;
  }

  lemma Regroup(a: seq<Byte>, b: seq<Byte>, c: seq<Byte>, d: seq<Byte>)
    ensures a + b + c + d == a + (b + (c + d))
  {
  }

  lemma ParsePrintedTail(text: seq<Byte>, l: MapsLine, i: nat, a: Area)
    requires Printable(l) && Trimmed(l.name) && At(text, i, PrintTail(l))
    ensures var inode := ReadNumber(text, i, 10, 0);
            && inode.value == l.inodenum
            && ParseName(text, inode, a) == NameOutcome(l, a, i + |PrintTail(l)|)
  {
    var digits := PrintNumber(l.inodenum, 10, 1);
    var rest := Blanks(l.spaces) + (l.name + [NEWLINE]);
    Regroup(digits, Blanks(l.spaces), l.name, [NEWLINE]);
    AtSplit(text, i, digits, rest);
    var j := i + |digits|;
    assert text[j] == text[j..j + |rest|][0] == (if l.spaces > 0 then SPACE else NEWLINE);
    AccumulatePrinted(l.inodenum, 10, 1);
    ReadDigits(text, i, digits, 10, 0);
    ParsePrintedName(text, l, j, ReadNumber(text, i, 10, 0), a);
  }

  lemma ParsePrintedPerms(text: seq<Byte>, l: MapsLine, i: nat)
    requires At(text, i, PrintPerms(l))
    ensures PermsOk(text, i) && i + 5 <= |text|
    ensures l.r == (text[i] == 114) && l.w == (text[i + 1] == 119) && l.x == (text[i + 2] == 120)
    ensures l.shared == (text[i + 3] == 115)
  {
    var perms := text[i..i + 5];
    assert text[i] == perms[0] && text[i + 1] == perms[1] && text[i + 2] == perms[2];
    assert text[i + 3] == perms[3] && text[i + 4] == perms[4];
  }

  /** The permission field: r, w and x or dashes, s or p, and a blank. */
  predicate PermCharacters(text: seq<Byte>, i: nat) {
    && i + 5 <= |text|
    && (text[i] == 'r' as int || text[i] == '-' as int) && (text[i + 1] == 'w' as int || text[i + 1] == '-' as int)
    && (text[i + 2] == 'x' as int || text[i + 2] == '-' as int)
    && (text[i + 3] == 's' as int || text[i + 3] == 'p' as int) && text[i + 4] == ' ' as int
  }

  /** On every text: a line that is parsed has such a field behind its two addresses, the second not below the first. */
  lemma ParsedLineForm(text: seq<Byte>, i: nat, prior: Area)
    requires i <= |text|
    ensures ParseLine(text, i, prior).Line? ==>
              var start := ReadNumber(text, i, 16, 0);
              var end := ReadNumber(text, start.next, 16, 0);
              && start.stop == '-' as int && end.stop == ' ' as int && start.value <= end.value
              && PermCharacters(text, end.next)
  {
    hide ReadNumber, ParseNumbers;
  }

  lemma ParsePrintedHead(text: seq<Byte>, l: MapsLine, i: nat)
    requires At(text, i, PrintHead(l))
    ensures var start := ReadNumber(text, i, 16, 0);
            && start.value == l.addr && start.stop == DASH
            && ReadNumber(text, start.next, 16, 0) == Number(l.endAddr, SPACE, i + |PrintHead(l)|)
  {
    var first, second := PrintNumber(l.addr, 16, 8) + [DASH], PrintNumber(l.endAddr, 16, 8) + [SPACE];
    AtSplit(text, i, first, second);
    ReadPrinted(text, i, l.addr, 16, 8, DASH);
    var j := i + |first|;
    assert ReadNumber(text, i, 16, 0) == Number(l.addr, DASH, j);
    ReadPrinted(text, j, l.endAddr, 16, 8, SPACE);
  }

  /** What a printed line is read as. */
  function LineOutcome(l: MapsLine, prior: Area, next: nat): Parse
    requires Printable(l)
  {
    if NameAccepted(l.name) then Line(AreaOf(l, prior), next) else Bad
  }

  lemma ParsePrintedRest(text: seq<Byte>, l: MapsLine, i: nat, prior: Area)
    requires Printable(l) && Trimmed(l.name) && At(text, i, PrintNumbers(l) + PrintTail(l))
    ensures ParseNumbers(text, i, l.addr, l.endAddr, ProtBits(l.r, l.w, l.x), l.shared, prior) ==
            LineOutcome(l, prior, i + |PrintNumbers(l)| + |PrintTail(l)|)
  {
    var m := i + |PrintNumbers(l)|;
    AtSplit(text, i, PrintNumbers(l), PrintTail(l));
    ParsePrintedNumbers(text, l, i);
    var offset := ReadNumber(text, i, 16, 0);
    var major := ReadNumber(text, offset.next, 16, 0);
    assert ReadNumber(text, major.next, 16, 0) == Number(l.devminor, SPACE, m);
    ParsePrintedTail(text, l, m, prior);
    hide PrintNumbers, PrintTail, At, ReadNumber, Stored, Printable, ProtBits, NameAccepted, Filled;
    if NameAccepted(l.name) {
      var inode := ReadNumber(text, m, 10, 0);
      var named := prior.(name := Stored(l.name, prior.name));
      assert ParseName(text, inode, prior) == Line(named, m + |PrintTail(l)|);
      assert AreaOf(l, prior) == Filled(named, l.addr, l.endAddr, ProtBits(l.r, l.w, l.x), l.shared,
                                        offset.value, major.value, l.devminor, inode.value);
    }
  }

  lemma ParsePrintedFields(text: seq<Byte>, l: MapsLine, i: nat, prior: Area)
    requires Printable(l) && Trimmed(l.name) && At(text, i, PrintPerms(l) + (PrintNumbers(l) + PrintTail(l)))
    ensures ParseFields(text, i, l.addr, l.endAddr, prior) ==
            LineOutcome(l, prior, i + 5 + |PrintNumbers(l)| + |PrintTail(l)|)
  {
    hide LineOutcome, ParseNumbers, PrintNumbers, PrintTail, PrintPerms, ProtBits, At, PermsOk;
    var rest := PrintNumbers(l) + PrintTail(l);
    PermsLength(l);
    AtSplit(text, i, PrintPerms(l), rest);
    ParsePrintedPerms(text, l, i);
    ParsePrintedRest(text, l, i + 5, prior);
    assert ParseFields(text, i, l.addr, l.endAddr, prior) ==
           ParseNumbers(text, i + 5, l.addr, l.endAddr, ProtBits(l.r, l.w, l.x), l.shared, prior);
  }

  /** A printed line whose name does not begin with a blank, whatever the record held before. */
  lemma ParseTrimmed(text: seq<Byte>, l: MapsLine, i: nat, prior: Area)
    requires Printable(l) && Trimmed(l.name) && At(text, i, PrintLine(l))
    ensures ParseLine(text, i, prior) == LineOutcome(l, prior, i + |PrintLine(l)|)
  {
    hide ReadNumber, ParseFields, PrintHead, PrintPerms, PrintNumbers, PrintTail, LineOutcome;
    var rest := PrintPerms(l) + (PrintNumbers(l) + PrintTail(l));
    assert PrintLine(l) == PrintHead(l) + rest;
    AtSplit(text, i, PrintHead(l), rest);
    ParsePrintedHead(text, l, i);
    var k := i + |PrintHead(l)|;
    PermsLength(l);
    ParsePrintedFields(text, l, k, prior);
    assert ParseLine(text, i, prior) == ParseFields(text, k, l.addr, l.endAddr, prior);
  }

  lemma PermsLength(l: MapsLine)
    ensures |PrintPerms(l)| == 5
  {
  }

  /** The parser inverts the printer, whatever the record held before and whatever follows the line. */
  lemma ParsePrinted(text: seq<Byte>, l: MapsLine, i: nat, prior: Area)
    requires Printable(l) && NameAccepted(l.name) && At(text, i, PrintLine(l))
    ensures var p := ParseLine(text, i, prior);
            p.Line? && p.next == i + |PrintLine(l)| && Describes(p.area, l)
  {
    hide PrintLine, AreaOf, Describes, ParseLine, At;
    ParseTrimmed(text, l, i, prior);
    AreaOfDescribes(l, prior);
  }

  /** A name without the blanks in front. */
  function Trim(name: seq<Byte>): (t: seq<Byte>)
    ensures Trimmed(t) && |t| <= |name|
  {
    if name != [] && name[0] == SPACE then Trim(name[1..]) else name
  }

  /** The same line with the name's own blanks counted as padding. */
  function TrimLine(l: MapsLine): MapsLine {
    l.(name := Trim(l.name), spaces := l.spaces + |l.name| - |Trim(l.name)|)
  }

  lemma {:induction false} TrimIsSuffix(name: seq<Byte>)
    ensures name == Blanks(|name| - |Trim(name)|) + Trim(name)
    ensures forall c :: c in Trim(name) ==> c in name
  {
    if name != [] && name[0] == SPACE {
      TrimIsSuffix(name[1..]);
      var t, k := Trim(name), |name| - |Trim(name)|;
      BlanksTogether(1, k - 1);
      OneBlank();
      assert name == [SPACE] + name[1..];
      hide Blanks, Trim;
      assert name == Blanks(1) + Blanks(k - 1) + t;
    }
  }

  lemma OneBlank()
    ensures Blanks(1) == [SPACE] && Blanks(0) == []
  {
  }

  lemma TrimmedLinePrintsAlike(l: MapsLine)
    requires Printable(l)
    ensures Printable(TrimLine(l)) && PrintLine(TrimLine(l)) == PrintLine(l)
  {
    TrimIsSuffix(l.name);
    TrimmedTail(l);
    hide PrintTail, Blanks, Trim;
  }

  lemma TrimmedTail(l: MapsLine)
    ensures PrintTail(TrimLine(l)) == PrintTail(l)
  {
    TrimIsSuffix(l.name);
    var t, k := Trim(l.name), |l.name| - |Trim(l.name)|;
    BlanksTogether(l.spaces, k);
    hide Trim, Blanks, PrintNumber;
    assert Blanks(l.spaces) + l.name == Blanks(l.spaces + k) + t;
    var digits := PrintNumber(l.inodenum, 10, 1);
    assert digits + Blanks(l.spaces) + l.name == digits + (Blanks(l.spaces) + l.name);
    assert digits + Blanks(l.spaces + k) + t == digits + (Blanks(l.spaces + k) + t);
  }

  lemma BlanksTogether(n: nat, k: nat)
    ensures Blanks(n + k) == Blanks(n) + Blanks(k)
  {
  }

  /**
   readMapsLine aborts on a printed line if and only if, after its leading blanks, the name is neither empty
   nor one of at most 1023 characters that starts with '/' or '['; any other line is read, with
   the name that is left.
   */
  lemma AbortsIffNameRefused(text: seq<Byte>, l: MapsLine, i: nat, prior: Area)
    requires Printable(l) && At(text, i, PrintLine(l))
    ensures var p := ParseLine(text, i, prior);
            && (p == Bad <==> !NameAccepted(Trim(l.name)))
            && (p != Bad ==> p.Line? && p.next == i + |PrintLine(l)| && Describes(p.area, TrimLine(l)))
  {
    TrimmedLinePrintsAlike(l);
    hide PrintLine, AreaOf, Describes, ParseLine, At, Trim, Printable;
    ParseTrimmed(text, TrimLine(l), i, prior);
    if NameAccepted(Trim(l.name)) {
      AreaOfDescribes(TrimLine(l), prior);
    }
  }

  lemma {:induction false} CStringStopsAt(buf: seq<Byte>, j: nat)
    requires j < |buf| && buf[j] == 0
    ensures |CString(buf)| <= j
  {
    if buf[0] != 0 {
      CStringStopsAt(buf[1..], j - 1);
    }
  }

  /** A completed name buffer keeps its first characters and holds a NUL. */
  lemma {:induction false} ReadNameResult(text: seq<Byte>, i: nat, c: Byte, k: nat, name: seq<Byte>)
    requires i <= |text| && k < FILENAMESIZE == |name|
    ensures var r := ReadName(text, i, c, k, name);
            r.2 ==> r.0[..k + 1] == name[..k] + [c] && exists j :: k < j < FILENAMESIZE && r.0[j] == 0
    decreases FILENAMESIZE - k
  {
    var stored := name[k := c];
    if k + 1 < FILENAMESIZE {
      var d := CharAt(text, i);
      if d == NEWLINE {
        assert stored[k + 1 := 0][k + 1] == 0;
      } else {
        ReadNameResult(text, After(text, i), d, k + 1, stored);
        var r := ReadName(text, After(text, i), d, k + 1, stored);
        if r.2 {
          assert r.0[..k + 1] == r.0[..k + 2][..k + 1];
        }
      }
    }
  }

  /** Whatever the text, a line that is parsed has an empty name or one that starts with '/' or '['. */
  lemma ParsedNamesAccepted(text: seq<Byte>, i: nat, prior: Area)
    requires i <= |text|
    ensures var p := ParseLine(text, i, prior);
            p.Line? ==> NameAccepted(CString(p.area.name))
  {
    forall n: Number | n.next <= |text|
      ensures ParseName(text, n, prior).Line? ==> NameAccepted(CString(ParseName(text, n, prior).area.name))
    {
      hide *;
      ParsedNameAccepted(text, n, prior);
    }
    hide ParseName, NameAccepted, CString, ReadNumber;
  }

  lemma ParsedNameAccepted(text: seq<Byte>, n: Number, prior: Area)
    requires n.next <= |text|
    ensures ParseName(text, n, prior).Line? ==> NameAccepted(CString(ParseName(text, n, prior).area.name))
  {
    hide ReadName;
    var at := if n.stop == SPACE then SkipSpaces(text, n.next) else n.next;
    var c := if n.stop == SPACE then CharAt(text, at) else n.stop;
    var j := if n.stop == SPACE then After(text, at) else at;
    if c == SLASH || c == BRACKET {
      ReadNameResult(text, j, c, 0, prior.name[0 := 0]);
      var r := ReadName(text, j, c, 0, prior.name[0 := 0]);
      if r.2 {
        assert r.0[0] == r.0[..1][0] == c;
        var z :| 0 < z < FILENAMESIZE && r.0[z] == 0;
        CStringStopsAt(r.0, z);
      }
    }
  }

  /**
   Exactly the lines with an empty name, or a name of at most 1023 characters that starts with '/' or
   '[', are read back; readMapsLine aborts on, or misreads, every other name the kernel can print.
   */
  lemma ReadBackIffNameAccepted(text: seq<Byte>, l: MapsLine, i: nat, prior: Area)
    requires Printable(l) && At(text, i, PrintLine(l))
    ensures var p := ParseLine(text, i, prior);
            (p.Line? && Describes(p.area, l)) <==> NameAccepted(l.name)
  {
    if NameAccepted(l.name) {
      ParsePrinted(text, l, i, prior);
    }
    ParsedNamesAccepted(text, i, prior);
  }

  /** Repeated readMapsLine calls from position i, until one does not return 1. */
  function ParseAll(text: seq<Byte>, i: nat, prior: Area): (r: (seq<Area>, Parse))
    requires i <= |text|
    decreases |text| - i
  {
    var p := ParseLine(text, i, prior);
    if p.Line? && p.next > i then
      var (areas, last) := ParseAll(text, p.next, p.area);
      ([p.area] + areas, last)
    else ([], p)
  }

  /** The whole file: every printed line comes back in order, then 0. */
  lemma {:induction false} MapsTextRoundTrip(text: seq<Byte>, ls: seq<MapsLine>, i: nat, prior: Area)
    requires forall l :: l in ls ==> Printable(l) && NameAccepted(l.name)
    requires i <= |text| && text[i..] == PrintLines(ls)
    ensures ParseAll(text, i, prior).1 == End(|text|) && EachDescribes(ParseAll(text, i, prior).0, ls)
    decreases |ls|
  {
    if ls == [] {
      assert ReadNumber(text, i, 16, 0) == Number(0, 0, i);
    } else {
      hide *;
      PrintedLinesSplit(ls);
      FirstLineAt(text, i, PrintLine(ls[0]), PrintLines(ls[1..]));
      assert ls[0] in ls;
      ParsePrinted(text, ls[0], i, prior);
      var p := ParseLine(text, i, prior);
      MapsTextRoundTrip(text, ls[1..], p.next, p.area);
      ParseAllTurn(text, i, prior);
      DescribeOneMore(p.area, ParseAll(text, p.next, p.area).0, ls);
    }
  }

  /** Record by record, in order. */
  ghost predicate EachDescribes(areas: seq<Area>, ls: seq<MapsLine>) {
    |areas| == |ls| && forall k :: 0 <= k < |ls| ==> Describes(areas[k], ls[k])
  }

  lemma DescribeOneMore(a: Area, rest: seq<Area>, ls: seq<MapsLine>)
    requires ls != [] && Describes(a, ls[0]) && EachDescribes(rest, ls[1..])
    ensures EachDescribes([a] + rest, ls)
  {
    hide Describes;
  }

  lemma PrintedLinesSplit(ls: seq<MapsLine>)
    requires ls != []
    ensures PrintLines(ls) == PrintLine(ls[0]) + PrintLines(ls[1..]) && |PrintLine(ls[0])| > 0
  {
  }

  lemma ParseAllTurn(text: seq<Byte>, i: nat, prior: Area)
    requires i <= |text|
    ensures var p := ParseLine(text, i, prior);
            p.Line? && p.next > i ==>
              var rest := ParseAll(text, p.next, p.area);
              ParseAll(text, i, prior) == ([p.area] + rest.0, rest.1)
  {
    hide ParseLine;
  }

  lemma FirstLineAt(text: seq<Byte>, i: nat, a: seq<Byte>, b: seq<Byte>)
    requires i <= |text| && text[i..] == a + b
    ensures At(text, i, a) && text[i + |a|..] == b
  {
    assert text[i..i + |a|] == text[i..][..|a|];
    assert text[i + |a|..] == text[i..][|a|..];
  }

  // ---------------------------------------------------------------- the parser as a program

  /**
   The characters that readChar will deliver: an interrupted read is tried again, any other read that brings
   nothing, failed or empty, is delivered as a NUL.
   */
  function Incoming(rest: seq<Byte>, schedule: seq<Event>): (text: seq<Byte>)
    decreases |schedule|
  {
    if rest == [] then []
    else if schedule == [] then rest
    else
      match schedule[0]
      case Interrupted => Incoming(rest, schedule[1..])
      case Partial(n) => if n == 0 then [0] + Incoming(rest, schedule[1..])
          else [rest[0]] + Incoming(rest[1..], schedule[1..])
      case _ => [0] + Incoming(rest, schedule[1..])
  }

  /** The one failure readChar retries, and nothing else. */
  predicate OnlyInterrupts(schedule: seq<Event>) {
    forall e :: e in schedule ==> e == Interrupted || (e.Partial? && e.n > 0)
  }

  lemma {:induction false} InterruptsDeliverAll(rest: seq<Byte>, schedule: seq<Event>)
    requires OnlyInterrupts(schedule)
    ensures Incoming(rest, schedule) == rest
    decreases |schedule|
  {
    if schedule != [] && rest != [] {
      assert schedule[0] in schedule && forall e :: e in schedule[1..] ==> e in schedule;
      InterruptsDeliverAll(rest, schedule[1..]);
      InterruptsDeliverAll(rest[1..], schedule[1..]);
    }
  }

  /** The file will deliver text from position i on. */
  ghost predicate Delivers(f: File, text: seq<Byte>, i: nat)
    reads f
  {
    f.Valid() && i <= |text| && Incoming(f.contents[f.pos..], f.schedule) == text[i..]
  }

  /** With interruptions only, what is delivered is what the file holds. */
  lemma DeliversContents(f: File)
    requires f.Valid() && OnlyInterrupts(f.schedule)
    ensures Delivers(f, f.contents, f.pos)
    ensures forall i: nat :: Delivers(f, f.contents, i) ==> i == f.pos
  {
    InterruptsDeliverAll(f.contents[f.pos..], f.schedule);
    forall i: nat | Delivers(f, f.contents, i) ensures i == f.pos {
      assert |f.contents[f.pos..]| == |f.contents[i..]|;
    }
  }

  method ReadChar(f: File, ghost text: seq<Byte>, ghost i: nat) returns (c: Byte)
    requires Delivers(f, text, i)
    modifies f`pos, f`schedule
    ensures c == CharAt(text, i) && Delivers(f, text, After(text, i))
    ensures OnlyInterrupts(old(f.schedule)) ==> OnlyInterrupts(f.schedule)
  {
    while true
      invariant Delivers(f, text, i)
      invariant OnlyInterrupts(old(f.schedule)) ==> OnlyInterrupts(f.schedule)
      decreases |f.schedule|
    {
      ReadTurn(f.contents, f.pos, f.schedule, text, i);
      var rc, errno, data := f.Read(1);
      if rc == -1 && errno == EINTR {
        continue;
      }
      return if rc <= 0 then 0 else data[0];
    }
  }

  /** What one read of one byte does to what is still to be delivered. */
  lemma ReadTurn(contents: seq<Byte>, pos: nat, schedule: seq<Event>, text: seq<Byte>, i: nat)
    requires pos <= |contents| && i <= |text| && Incoming(contents[pos..], schedule) == text[i..]
    ensures OnlyInterrupts(schedule) ==> OnlyInterrupts(Tail(schedule))
    ensures var k, rest := ReadNow(schedule, 1, |contents| - pos), Tail(schedule);
            && (schedule != [] && schedule[0] == Interrupted ==> Incoming(contents[pos..], rest) == text[i..])
            && (schedule == [] || schedule[0] != Interrupted ==>
                  && Incoming(contents[pos + k..], rest) == text[After(text, i)..]
                  && CharAt(text, i) == if k == 0 then 0 else contents[pos])
  {
    var left, k := contents[pos..], ReadNow(schedule, 1, |contents| - pos);
    assert contents[pos + k..] == left[k..];
    NextIncoming(left, schedule);
    TextFrom(text, i);
    hide Incoming, ReadNow, CharAt, After;
  }

  lemma NextIncoming(left: seq<Byte>, schedule: seq<Event>)
    ensures OnlyInterrupts(schedule) ==> OnlyInterrupts(Tail(schedule))
    ensures var k, all, rest := ReadNow(schedule, 1, |left|), Incoming(left, schedule), Tail(schedule);
            if schedule != [] && schedule[0] == Interrupted then Incoming(left, rest) == all
            else if all == [] then k == 0 && Incoming(left[k..], rest) == []
            else all[0] == (if k == 0 then 0 else left[0]) && Incoming(left[k..], rest) == all[1..]
  {
    assert schedule != [] ==> forall e :: e in schedule[1..] ==> e in schedule;
    assert left[0..] == left;
  }

  lemma TextFrom(text: seq<Byte>, i: nat)
    requires i <= |text|
    ensures CharAt(text, i) == if text[i..] == [] then 0 else text[i..][0]
    ensures text[After(text, i)..] == if text[i..] == [] then [] else text[i..][1..]
  {
  }

  /** readHex and readDec. */
  method ReadDigitsOf(f: File, base: nat, ghost text: seq<Byte>, ghost i: nat) returns (v: Word, stop: Byte)
    requires (base == 10 || base == 16) && Delivers(f, text, i)
    modifies f`pos, f`schedule
    ensures var n := ReadNumber(text, i, base, 0); v == n.value && stop == n.stop && Delivers(f, text, n.next)
    ensures OnlyInterrupts(old(f.schedule)) ==> OnlyInterrupts(f.schedule)
  {
    hide Delivers, OnlyInterrupts;
    v := 0;
    ghost var j: nat := i;
    DeliversInText(f, text, j);
    while true
      invariant Delivers(f, text, j) && j <= |text|
      invariant OnlyInterrupts(old(f.schedule)) ==> OnlyInterrupts(f.schedule)
      invariant ReadNumber(text, j, base, v) == ReadNumber(text, i, base, 0)
      decreases |text| - j
    {
      stop := ReadChar(f, text, j);
      var d := DigitValue(stop, base);
      if d < 0 {
        return;
      }
      v := Shift(v, base, d);
      j := j + 1;
    }
  }

  lemma DeliversInText(f: File, text: seq<Byte>, i: nat)
    requires Delivers(f, text, i)
    ensures i <= |text|
  {
  }

  /** The name loop of readMapsLine, storing into the record's buffer. */
  method ReadNameInto(f: File, first: Byte, buf: seq<Byte>, ghost text: seq<Byte>, ghost i: nat)
      returns (name: seq<Byte>, ok: bool)
    requires Delivers(f, text, i) && |buf| == FILENAMESIZE
    modifies f`pos, f`schedule
    ensures i <= |text| && (name, ok) == (ReadName(text, i, first, 0, buf).0, ReadName(text, i, first, 0, buf).2)
    ensures Delivers(f, text, ReadName(text, i, first, 0, buf).1)
    ensures OnlyInterrupts(old(f.schedule)) ==> OnlyInterrupts(f.schedule)
  {
    hide Delivers, OnlyInterrupts;
    DeliversInText(f, text, i);
    var k, c := 0, first;
    name, ok := buf, false;
    ghost var j: nat := i;
    while true
      invariant |name| == FILENAMESIZE && k < FILENAMESIZE && j <= |text| && Delivers(f, text, j)
      invariant OnlyInterrupts(old(f.schedule)) ==> OnlyInterrupts(f.schedule)
      invariant ReadName(text, j, c, k, name) == ReadName(text, i, first, 0, buf)
      decreases FILENAMESIZE - k
    {
      name := name[k := c];
      k := k + 1;
      if k == FILENAMESIZE {
        return name, false;
      }
      c := ReadChar(f, text, j);
      j := After(text, j);
      if c == NEWLINE {
        break;
      }
    }
    name := name[k := 0];
    ok := true;
  }

  method ReadNameField(f: File, stop: Byte, a: Area, ghost text: seq<Byte>, ghost n: Number)
      returns (area: Area, ok: bool)
    requires Delivers(f, text, n.next) && stop == n.stop
    modifies f`pos, f`schedule
    ensures n.next <= |text|
    ensures var p := ParseName(text, n, a); (ok <==> p.Line?) && (ok ==> area == p.area && Delivers(f, text, p.next))
    ensures OnlyInterrupts(old(f.schedule)) ==> OnlyInterrupts(f.schedule)
  {
    hide Delivers, OnlyInterrupts, ReadName;
    DeliversInText(f, text, n.next);
    var c := stop;
    ghost var j: nat := n.next;
    while c == SPACE
      invariant j <= |text| && Delivers(f, text, j)
      invariant OnlyInterrupts(old(f.schedule)) ==> OnlyInterrupts(f.schedule)
      invariant stop != SPACE ==> c == stop && j == n.next
      invariant stop == SPACE && c == SPACE ==> SkipSpaces(text, j) == SkipSpaces(text, n.next)
      invariant stop == SPACE && c != SPACE ==>
                  var at := SkipSpaces(text, n.next);
                  c == CharAt(text, at) && j == After(text, at)
      decreases |text| - j, if c == SPACE then 1 else 0
    {
      c := ReadChar(f, text, j);
      j := After(text, j);
    }
    var name := a.name[0 := 0];
    ok := true;
    if c == SLASH || c == BRACKET {
      name, ok := ReadNameInto(f, c, name, text, j);
    } else if c != NEWLINE {
      ok := false;
    }
    area := if ok then a.(name := name) else a;
  }

  /** readMapsLine: the four permission characters are checked as they are read. */
  method ReadPerms(f: File, ghost text: seq<Byte>, ghost i: nat) returns (r: Byte, w: Byte, x: Byte, s: Byte, ok: bool)
    requires Delivers(f, text, i)
    modifies f`pos, f`schedule
    ensures ok == PermsOk(text, i)
    ensures ok ==> i + 5 <= |text| && (r, w, x, s) == (text[i], text[i + 1], text[i + 2], text[i + 3])
    ensures ok ==> Delivers(f, text, i + 5)
    ensures OnlyInterrupts(old(f.schedule)) ==> OnlyInterrupts(f.schedule)
  {
    hide Delivers, OnlyInterrupts;
    w, x, s, ok := 0, 0, 0, false;
    r := ReadChar(f, text, i);
    if !Flag(r, 114) { return; }
    w := ReadChar(f, text, i + 1);
    if !Flag(w, 119) { return; }
    x := ReadChar(f, text, i + 2);
    if !Flag(x, 120) { return; }
    s := ReadChar(f, text, i + 3);
    if s != 115 && s != 112 { return; }
    var c := ReadChar(f, text, i + 4);
    ok := c == SPACE;
  }

  /** Fills in the record from the permissions on. */
  method ReadFields(f: File, start: Word, end: Word, prior: Area, ghost text: seq<Byte>, ghost i: nat)
      returns (area: Area, ok: bool)
    requires Delivers(f, text, i) && start <= end
    modifies f`pos, f`schedule
    ensures i <= |text|
    ensures var p := ParseFields(text, i, start, end, prior);
            (ok <==> p.Line?) && (ok ==> area == p.area && Delivers(f, text, p.next))
    ensures OnlyInterrupts(old(f.schedule)) ==> OnlyInterrupts(f.schedule)
  {
    hide Delivers, OnlyInterrupts, ReadNumber, ParseName, PermsOk;
    DeliversInText(f, text, i);
    var r, w, x, s;
    r, w, x, s, ok := ReadPerms(f, text, i);
    if !ok { return prior, false; }
    var offset, major, minor, inode, c;
    ghost var n := ReadNumber(text, i + 5, 16, 0);
    offset, c := ReadDigitsOf(f, 16, text, i + 5);
    if c != SPACE { return prior, false; }
    major, c := ReadDigitsOf(f, 16, text, n.next);
    n := ReadNumber(text, n.next, 16, 0);
    if c != COLON { return prior, false; }
    minor, c := ReadDigitsOf(f, 16, text, n.next);
    n := ReadNumber(text, n.next, 16, 0);
    if c != SPACE { return prior, false; }
    inode, c := ReadDigitsOf(f, 10, text, n.next);
    n := ReadNumber(text, n.next, 10, 0);
    area, ok := ReadNameField(f, c, prior, text, n);
    if ok {
      area := Filled(area, start, end, ProtBits(r == 114, w == 119, x == 120), s == 115, offset, major, minor, inode);
    }
  }

  /** A read fails, would block or brings nothing, before any character but zeros has been read; others are retried. */
  predicate FailsEarly(rest: seq<Byte>, schedule: seq<Event>)
    decreases |schedule|
  {
    && rest != [] && schedule != []
    && match schedule[0]
       case Interrupted => FailsEarly(rest, schedule[1..])
       case Partial(n) => n == 0 || (rest[0] == ZERO && FailsEarly(rest[1..], schedule[1..]))
       case _ => true
  }

  predicate NothingButZeros(text: seq<Byte>) {
    text != [] && (text[0] == 0 || (text[0] == ZERO && NothingButZeros(text[1..])))
  }

  lemma {:induction false} EarlyFailureEndsNumber(rest: seq<Byte>, schedule: seq<Event>)
    requires FailsEarly(rest, schedule)
    ensures NothingButZeros(Incoming(rest, schedule))
    decreases |schedule|
  {
    match schedule[0]
    case Interrupted => EarlyFailureEndsNumber(rest, schedule[1..]);
    case Partial(n) =>
      if n > 0 {
        EarlyFailureEndsNumber(rest[1..], schedule[1..]);
        assert Incoming(rest, schedule)[1..] == Incoming(rest[1..], schedule[1..]);
      }
    case _ =>
  }

  lemma {:induction false} ZerosReadAsZero(text: seq<Byte>, i: nat)
    requires i <= |text| && NothingButZeros(text[i..])
    ensures ReadNumber(text, i, 16, 0).value == 0 && ReadNumber(text, i, 16, 0).stop == 0
    decreases |text| - i
  {
    if text[i] == ZERO {
      assert text[i..][1..] == text[i + 1..];
      ZerosReadAsZero(text, i + 1);
    }
  }

  /**
   A read that fails at the start of a line, or after the leading zeros of its address, looks like the end of the
   file, whatever is left of it and whatever the reads after it would do.
   */
  lemma FailedReadLooksLikeTheEnd(rest: seq<Byte>, schedule: seq<Event>, prior: Area)
    requires FailsEarly(rest, schedule)
    ensures ParseLine(Incoming(rest, schedule), 0, prior).End?
  {
    var text := Incoming(rest, schedule);
    EarlyFailureEndsNumber(rest, schedule);
    assert text[0..] == text;
    ZerosReadAsZero(text, 0);
  }

  /** What readMapsLine comes to: 1 with the record filled, 0, or an abort. */
  datatype LineRead = Got(area: Area) | Ended | BadLine

  /**
   One line of the file into the record, however its reads go: what the parser makes of the characters that
   readChar delivers, and then the file delivers what follows the line.
   */
  method ReadMapsLine(f: File, prior: Area, ghost text: seq<Byte>, ghost i: nat) returns (r: LineRead)
    requires Delivers(f, text, i)
    modifies f`pos, f`schedule
    ensures i <= |text|
    ensures var p := ParseLine(text, i, prior);
            && (r.Got? <==> p.Line?) && (r.Ended? <==> p.End?)
            && (r.Got? ==> r.area == p.area && Delivers(f, text, p.next))
            && (r.Ended? ==> Delivers(f, text, p.next))
    ensures OnlyInterrupts(old(f.schedule)) ==> OnlyInterrupts(f.schedule)
  {
    hide Delivers, OnlyInterrupts, ReadNumber, ParseFields;
    DeliversInText(f, text, i);
    ghost var n := ReadNumber(text, i, 16, 0);
    var start, c := ReadDigitsOf(f, 16, text, i);
    if c != DASH {
      return if c == 0 && start == 0 then Ended else BadLine;
    }
    var end;
    end, c := ReadDigitsOf(f, 16, text, n.next);
    n := ReadNumber(text, n.next, 16, 0);
    if c != SPACE || end < start {
      return BadLine;
    }
    var area, ok := ReadFields(f, start, end, prior, text, n.next);
    r := if ok then Got(area) else BadLine;
  }
}
