/** The memory-area record of procmapsarea.h, its byte layout, and the interval tests of ckpt-restart.h. */
module Areas {
  import opened Bytes
  import opened Pages

  const AREA_SIZE: nat := 4096
  const FILENAMESIZE: nat := 1024
  const HEADER_WORDS: nat := 10
  const PAD_SIZE: nat := AREA_SIZE - 8 * HEADER_WORDS - FILENAMESIZE

  /**
   The 4096-byte union: ten 64-bit slots, the name buffer and the padding. `prot` and `flags` are ints
   in the low halves of their slots; the high halves, the name buffer past its NUL and the padding hold
   whatever was there before.
   */
  datatype AreaRecord = AreaRecord(addr: Word, endAddr: Word, size: Word, offset: Word,
                                   protSlot: Word, flagsSlot: Word, devmajor: Word, devminor: Word,
                                   inodenum: Word, properties: Word, name: seq<Byte>, pad: seq<Byte>)
  {
    function Prot(): nat {
      protSlot % 0x1_0000_0000
    }

    function Flags(): nat {
      flagsSlot % 0x1_0000_0000
    }
  }

  type Area = a: AreaRecord | |a.name| == FILENAMESIZE && |a.pad| == PAD_SIZE
    witness AreaRecord(0, 0, 0, 0, 0, 0, 0, 0, 0, 0, Zeros(FILENAMESIZE), Zeros(PAD_SIZE))

  /** Overwrites the int in the low half of a slot. */
  function SetInt(slot: Word, v: nat): (w: Word)
    requires v < 0x1_0000_0000
    ensures w % 0x1_0000_0000 == v
  {
    slot - slot % 0x1_0000_0000 + v
  }

  function HeaderWords(a: Area): (ws: seq<Word>)
    ensures |ws| == HEADER_WORDS
  {
    [a.addr, a.endAddr, a.size, a.offset, a.protSlot, a.flagsSlot, a.devmajor, a.devminor, a.inodenum, a.properties]
  }

  function EncodeWords(ws: seq<Word>): (b: seq<Byte>)
    ensures |b| == 8 * |ws|
  {
    if ws == [] then [] else LeBytes(ws[0], 8) + EncodeWords(ws[1..])
  }

  function DecodeWords(b: seq<Byte>, n: nat): (ws: seq<Word>)
    requires |b| == 8 * n
    ensures |ws| == n
  {
    if n == 0 then []
    else
      WordIsEightBytes();
      [LeValue(b[..8])] + DecodeWords(b[8..], n - 1)
  }

  /** The bytes of the struct in memory, as write(fd, area, sizeof *area) sees them. */
  function Encode(a: Area): (b: seq<Byte>)
    ensures |b| == AREA_SIZE
  {
    EncodeWords(HeaderWords(a)) + a.name + a.pad
  }

  function Decode(b: seq<Byte>): Area
    requires |b| == AREA_SIZE
  {
    var ws := DecodeWords(b[..8 * HEADER_WORDS], HEADER_WORDS);
    AreaRecord(ws[0], ws[1], ws[2], ws[3], ws[4], ws[5], ws[6], ws[7], ws[8], ws[9],
               b[8 * HEADER_WORDS..8 * HEADER_WORDS + FILENAMESIZE], b[8 * HEADER_WORDS + FILENAMESIZE..])
  }

  lemma {:induction false} DecodeEncodedWords(ws: seq<Word>)
    ensures DecodeWords(EncodeWords(ws), |ws|) == ws
  {
    if ws != [] {
      var b := EncodeWords(ws);
      assert b[..8] == LeBytes(ws[0], 8) && b[8..] == EncodeWords(ws[1..]);
      WordIsEightBytes();
      LeValueOfLeBytes(ws[0], 8);
      DecodeEncodedWords(ws[1..]);
    }
  }

  lemma {:induction false} EncodeDecodedWords(b: seq<Byte>, n: nat)
    requires |b| == 8 * n
    ensures EncodeWords(DecodeWords(b, n)) == b
  {
    if n > 0 {
      LeBytesOfLeValue(b[..8]);
      EncodeDecodedWords(b[8..], n - 1);
      assert DecodeWords(b, n)[1..] == DecodeWords(b[8..], n - 1);
      assert b == b[..8] + b[8..];
    }
  }

  /** Where the fields of the struct lie in its 4096 bytes. */
  lemma EncodeLayout(a: Area)
    ensures var b := Encode(a);
            && |b| == 4096 && b[0..8] == LeBytes(a.addr, 8) && b[8..16] == LeBytes(a.endAddr, 8)
            && b[16..24] == LeBytes(a.size, 8) && b[24..32] == LeBytes(a.offset, 8)
            && b[32..40] == LeBytes(a.protSlot, 8) && b[40..48] == LeBytes(a.flagsSlot, 8)
            && b[48..56] == LeBytes(a.devmajor, 8) && b[56..64] == LeBytes(a.devminor, 8)
            && b[64..72] == LeBytes(a.inodenum, 8) && b[72..80] == LeBytes(a.properties, 8) && b[80..1104] == a.name
  {
    hide LeBytes, EncodeWords;
    SlotAt(a, 0);
    SlotAt(a, 1);
    SlotAt(a, 2);
    SlotAt(a, 3);
    SlotAt(a, 4);
    SlotAt(a, 5);
    SlotAt(a, 6);
    SlotAt(a, 7);
    SlotAt(a, 8);
    SlotAt(a, 9);
    assert Encode(a)[80..1104] == a.name;
    hide Encode;
    HeaderOrder(a);
  }

  lemma SlotAt(a: Area, k: nat)
    requires k < HEADER_WORDS
    ensures Encode(a)[8 * k..8 * k + 8] == LeBytes(HeaderWords(a)[k], 8)
  {
    hide LeBytes, HeaderWords, EncodeWords;
    WordAt(HeaderWords(a), k);
    assert Encode(a)[8 * k..8 * k + 8] == EncodeWords(HeaderWords(a))[8 * k..8 * k + 8];
  }

  lemma HeaderOrder(a: Area)
    ensures HeaderWords(a) == [a.addr, a.endAddr, a.size, a.offset, a.protSlot, a.flagsSlot, a.devmajor, a.devminor,
                               a.inodenum, a.properties]
  {
  }

  lemma {:induction false} WordAt(ws: seq<Word>, k: nat)
    requires k < |ws|
    ensures EncodeWords(ws)[8 * k..8 * k + 8] == LeBytes(ws[k], 8)
  {
    if k > 0 {
      WordAt(ws[1..], k - 1);
      assert EncodeWords(ws)[8 * k..8 * k + 8] == EncodeWords(ws[1..])[8 * (k - 1)..8 * (k - 1) + 8];
    }
  }

  /** An area survives being written to the image and read back, all fields included. */
  lemma DecodeEncode(a: Area)
    ensures Decode(Encode(a)) == a
  {
    var b := Encode(a);
    assert b[..8 * HEADER_WORDS] == EncodeWords(HeaderWords(a));
    assert b[8 * HEADER_WORDS..8 * HEADER_WORDS + FILENAMESIZE] == a.name;
    assert b[8 * HEADER_WORDS + FILENAMESIZE..] == a.pad;
    DecodeEncodedWords(HeaderWords(a));
  }

  /** Every 4096 bytes are the image of exactly one record. */
  lemma EncodeDecode(b: seq<Byte>)
    requires |b| == AREA_SIZE
    ensures Encode(Decode(b)) == b
  {
    var head := b[..8 * HEADER_WORDS];
    EncodeDecodedWords(head, HEADER_WORDS);
    assert HeaderWords(Decode(b)) == DecodeWords(head, HEADER_WORDS);
    assert b == head + b[8 * HEADER_WORDS..8 * HEADER_WORDS + FILENAMESIZE] + b[8 * HEADER_WORDS + FILENAMESIZE..];
  }

  /** True if the needle is in the haystack. */
  predicate RegionContains(haystackStart: nat, haystackEnd: nat, needleStart: nat, needleEnd: nat) {
    needleStart >= haystackStart && needleEnd <= haystackEnd
  }

  /** Pointer arithmetic wraps at 2^64. */
  predicate DoAreasOverlap(addr1: Word, size1: Word, addr2: Word, size2: Word) {
    var end1 := (addr1 + size1) % WORD;
    var end2 := (addr2 + size2) % WORD;
    || (addr1 >= addr2 && addr1 < end2)
    || (addr2 >= addr1 && addr2 < end1)
  }

  /** x is in a range that does not reach past the last address; one that does spans nothing. */
  predicate Spans(addr: Word, size: Word, x: nat) {
    addr + size < WORD && Covers(addr, size, x)
  }

  /**
   The overlap test for any two ranges: they share an address, where a range that is empty or wraps around
   counts as its start address alone, and two such ranges never overlap.
   */
  lemma OverlapMeansCommonAddress(addr1: Word, size1: Word, addr2: Word, size2: Word)
    ensures DoAreasOverlap(addr1, size1, addr2, size2) <==>
            exists x: nat :: (Spans(addr1, size1, x) && (x == addr2 || Spans(addr2, size2, x)))
                             || (Spans(addr2, size2, x) && (x == addr1 || Spans(addr1, size1, x)))
  {
    if DoAreasOverlap(addr1, size1, addr2, size2) {
      if addr1 >= addr2 && addr1 < (addr2 + size2) % WORD {
        assert Spans(addr2, size2, addr1);
      } else {
        assert Spans(addr1, size1, addr2);
      }
    }
  }
}
