/** Streams that any decoder of the format knows, byte by byte. */
module KnownStreams {
  import opened Values
  import opened Kraft
  import opened Bits
  import opened Canonical
  import opened LzCodes
  import opened BitStream
  import opened Deflate
  import opened InflateSpec
  import opened InflateBack
  import opened DeflateFormat

  /** One block of the stream `bits`, and the last one. */
  lemma OnlyBlock(bits: seq<bool>, b: Block)
    requires |bits| >= 1 && bits[0] && BlockBits(1, bits[1..], b) && Reached([], b)
    ensures BlocksBits(0, bits, [b], true) && AllReached([], [b]) && AfterAll([], [b]) == After([], b)
  {
    hide BlockBits, Reached, After;
    assert bits[1..|bits|] == bits[1..];
    assert Chops(0, bits, |bits|, b, true);
    assert bits[|bits|..] == [] && [b][1..] == [];
  }

  // ---- The letter "a" with the fixed codes.

  lemma LetterWords()
    ensures |FIXED_LIT| == 288 && Word(FIXED_LIT, 97) == [true, false, false, true, false, false, false, true]
    ensures Word(FIXED_LIT, 256) == [false, false, false, false, false, false, false]
  {
    hide Word;
    FixedWords(97);
    FixedWords(256);
    assert MsbBits(0x91, 8) == [true, false, false, true, false, false, false, true];
    assert MsbBits(0, 7) == [false, false, false, false, false, false, false];
  }

  ghost function LetterBits(): seq<bool> {
    [true] + ([true, false] + ([true, false, false, true, false, false, false, true]
      + [false, false, false, false, false, false, false]))
  }

  lemma LetterBody()
    ensures |FIXED_LIT| > 256 && AllCoded(FIXED_LIT, FIXED_DIST, [Lit(97)])
    ensures Body(FIXED_LIT, FIXED_DIST, [Lit(97)]) == Word(FIXED_LIT, 97) + Word(FIXED_LIT, 256)
  {
    hide Word;
    FixedAccepted();
    FixedCodes([Lit(97)]);
    assert [Lit(97)][1..] == [];
    assert CodesBits(FIXED_LIT, FIXED_DIST, [Lit(97)]) == Word(FIXED_LIT, 97) + [];
  }

  lemma LetterBlock()
    ensures BlockBits(1, LetterBits()[1..], Compressed([Lit(97)]))
  {
    hide Word, Body, LsbBits, DynamicBits;
    LetterWords();
    LetterBody();
    TypeOne();
    assert LetterBits()[1..] == LsbBits(1, 2) + Body(FIXED_LIT, FIXED_DIST, [Lit(97)]);
  }

  lemma TypeOne()
    ensures LsbBits(1, 2) == [true, false]
  {
  }

  lemma Four(a: bool, b: bool, c: bool, d: bool, y: nat, n: nat)
    ensures LsbBits(Bit(a) + 2 * Bit(b) + 4 * Bit(c) + 8 * Bit(d) + 16 * y, n + 4) == [a, b, c, d] + LsbBits(y, n)
  {
    hide LsbBits;
    OneBit(d, y, n);
    OneBit(c, Bit(d) + 2 * y, n + 1);
    OneBit(b, Bit(c) + 2 * (Bit(d) + 2 * y), n + 2);
    OneBit(a, Bit(b) + 2 * (Bit(c) + 2 * (Bit(d) + 2 * y)), n + 3);
  }

  lemma OneBit(a: bool, y: nat, n: nat)
    ensures LsbBits(Bit(a) + 2 * y, n + 1) == [a] + LsbBits(y, n)
  {
    assert (Bit(a) + 2 * y) % 2 == Bit(a) && (Bit(a) + 2 * y) / 2 == y;
  }

  lemma NextBit(x: nat, n: nat)
    requires n >= 1
    ensures LsbBits(x, n) == [x % 2 == 1] + LsbBits(x / 2, n - 1)
  {
  }

  lemma LetterOctets()
    ensures LsbBits(0x4B, 8) == [true, true, false, true, false, false, true, false]
    ensures LsbBits(0x04, 8) == [false, false, true, false, false, false, false, false]
    ensures LsbBits(0x00, 8) == [false, false, false, false, false, false, false, false]
  {
    hide LsbBits;
    NoBits(0);
    Four(true, true, false, true, 4, 4);
    Four(false, false, true, false, 0, 0);
    Four(false, false, true, false, 0, 4);
    Four(false, false, false, false, 0, 4);
    Four(false, false, false, false, 0, 0);
  }

  lemma LetterBytes()
    ensures LetterBits() <= BitsOf([0x4B, 0x04, 0x00])
  {
    hide BitsOf, LsbBits;
    LetterOctets();
    var all: seq<Byte> := [0x4B, 0x04, 0x00];
    assert all == [0x4B] + [0x04] + [0x00];
    BitsOfConcat([0x4B] + [0x04], [0x00]);
    BitsOfConcat([0x4B], [0x04]);
    BitsOfOne(0x4B);
    BitsOfOne(0x04);
    BitsOfOne(0x00);
  }

  /** The bytes 4b 04 00 are the letter "a" with the fixed codes. */
  lemma FixedLetter(mem: seq<Byte>, end: nat)
    requires end >= 1
    ensures var o := StreamRun(mem, end, BitsOf([0x4B, 0x04, 0x00]), []); o.status == Done && o.out == [97]
  {
    hide StreamRun, BlocksBits, BlockBits, BitsOf, LetterBits;
    var b := Compressed([Lit(97)]);
    LetterBlock();
    LetterBytes();
    LetterStart();
    assert After([], b) == [97] && Reached([], b) by { LetterMeans(); }
    OnlyBlock(LetterBits(), b);
    GivesBack([0x4B, 0x04, 0x00], LetterBits(), [b], mem, end);
  }

  lemma LetterStart()
    ensures |LetterBits()| >= 1 && LetterBits()[0]
  {
  }

  lemma LetterMeans()
    ensures After([], Compressed([Lit(97)])) == [97] && Reached([], Compressed([Lit(97)]))
  {
    assert [Lit(97)][1..] == [];
  }

  // ---- The letter "a" as it is.

  /** The bytes 01 01 00 fe ff 61 are the letter "a" in a stored block. */
  lemma StoredLetter(mem: seq<Byte>, end: nat)
    requires end >= 1
    ensures var o := StreamRun(mem, end, BitsOf([0x01, 0x01, 0x00, 0xFE, 0xFF, 0x61]), []);
      o.status == Done && o.out == [97]
  {
    hide StreamRun, BlocksBits, BlockBits, BitsOf, StoredBits;
    var b := Stored([97]);
    StoredBytes();
    var bits := BitsOf([0x01, 0x01, 0x00, 0xFE, 0xFF, 0x61]);
    OnlyBlock(bits, b);
    GivesBack([0x01, 0x01, 0x00, 0xFE, 0xFF, 0x61], bits, [b], mem, end);
  }

  /** Sixteen bits are two bytes, the low one first. */
  lemma Sixteen(lo: Byte, hi: Byte)
    requires Shift(lo as nat + 256 * hi as nat, 8) == hi as nat
    ensures LsbBits(lo as nat + 256 * hi as nat, 16) == LsbBits(lo, 8) + LsbBits(hi, 8)
  {
    hide LsbBits;
    assert Pow2(8) == 256 by { SmallPowers(); }
    var x := lo as nat + 256 * hi as nat;
    LsbPrefix(x, 16, 8);
    LsbSuffix(x, 16, 8);
    LsbAddHigh(lo, 8, hi);
  }

  lemma StoredOctets()
    ensures LsbBits(0x01, 8) == [true] + (LsbBits(0, 2) + LsbBits(0, 5)) && Pad(3) == 5
    ensures LsbBits(0x0001, 16) == LsbBits(0x01, 8) + LsbBits(0x00, 8)
    ensures LsbBits(0xFFFE, 16) == LsbBits(0xFE, 8) + LsbBits(0xFF, 8)
  {
    hide LsbBits;
    NextBit(1, 8);
    LsbPrefix(0, 7, 2);
    LsbSuffix(0, 7, 2);
    assert Shift(0, 2) == 0 && Shift(1, 8) == 0 && Shift(0xFFFE, 8) == 0xFF;
    Sixteen(0x01, 0x00);
    Sixteen(0xFE, 0xFF);
  }

  lemma TwoBytes(lo: Byte, hi: Byte)
    ensures BitsOf([lo, hi]) == LsbBits(lo, 8) + LsbBits(hi, 8)
  {
    hide LsbBits, BitsOf;
    assert [lo, hi] == [lo] + [hi];
    BitsOfConcat([lo], [hi]);
    BitsOfOne(lo);
    BitsOfOne(hi);
  }

  lemma StoredBytes()
    ensures var bits := BitsOf([0x01, 0x01, 0x00, 0xFE, 0xFF, 0x61]);
      |bits| == 48 && bits[0] && BlockBits(1, bits[1..], Stored([97]))
  {
    hide BitsOf, LsbBits, Pad;
    StoredOctets();
    var all: seq<Byte> := [0x01, 0x01, 0x00, 0xFE, 0xFF, 0x61];
    assert all == [0x01] + ([0x01, 0x00] + ([0xFE, 0xFF] + [0x61]));
    BitsOfConcat([0x01], [0x01, 0x00] + ([0xFE, 0xFF] + [0x61]));
    BitsOfConcat([0x01, 0x00], [0xFE, 0xFF] + [0x61]);
    BitsOfConcat([0xFE, 0xFF], [0x61]);
    BitsOfOne(0x01);
    TwoBytes(0x01, 0x00);
    TwoBytes(0xFE, 0xFF);
    Behind(LsbBits(0, 2) + LsbBits(0, 5), LsbBits(0x0001, 16) + (LsbBits(0xFFFE, 16) + BitsOf([0x61])));
  }

  lemma Behind(a: seq<bool>, b: seq<bool>)
    ensures (([true] + a) + b)[0] && (([true] + a) + b)[1..] == a + b
  {
  }
}
