/** Three spare bytes behind the output are needed: for every size of the output there is an input
    that makes the decoder write three bytes past its end. */
module InflateSpare {
  import opened Values
  import opened Bits
  import opened Canonical
  import opened BitStream
  import opened HuffmanReader
  import opened Deflate
  import opened InflateSpec
  import opened InflateBounds
  import opened InflateBack

  /** Bits that fill whole bytes come from bytes. */
  lemma {:induction false} Packed(bits: seq<bool>) returns (bytes: seq<Byte>)
    requires |bits| % 8 == 0
    ensures BitsOf(bytes) == bits
    decreases |bits|
  {
    hide LsbBits, LsbValue, BitsOf;
    if bits == [] {
      bytes := [];
      BitsOfNone();
    } else {
      var n := |bits| - 8;
      var first := Packed(bits[..n]);
      var last := bits[n..];
      LsbRoundTrip(last);
      assert last[..8] == last;
      bytes := first + [ByteOf(last)];
      BitsOfLast(bytes);
      assert bytes[..|bytes| - 1] == first;
    }
  }

  /** `n` zero bytes, length symbol 286 and distance symbol 30, which stands for distance 0. */
  ghost function SpillBits(n: nat): seq<bool>
    requires |FIXED_LIT| == 288 && |FIXED_DIST| == 32
  {
    if n == 0 then Word(FIXED_LIT, 286) + (Word(FIXED_DIST, 30) + []) else Word(FIXED_LIT, 0) + SpillBits(n - 1)
  }

  lemma FixedLengths()
    ensures |FIXED_LIT| == 288 && |FIXED_DIST| == 32
    ensures FIXED_LIT[0] == 8 && FIXED_LIT[286] == 8 && FIXED_DIST[30] == 5
  {
  }

  lemma {:induction false} SpillLength(n: nat)
    ensures |FIXED_LIT| == 288 && |FIXED_DIST| == 32 && |SpillBits(n)| == 8 * n + 13
  {
    hide Word;
    FixedLengths();
    if n > 0 { SpillLength(n - 1); }
  }

  lemma SpillTurn(n: nat)
    requires |FIXED_LIT| == 288 && |FIXED_DIST| == 32
    ensures TurnOf(FIXED_LIT, FIXED_DIST, SpillBits(n))
         == if n > 0 then Literal(0, SpillBits(n - 1)) else Copying(286, 0, 0, [])
  {
    hide Word, NextOf, Accepted, MatchOf;
    FixedAccepted();
    if n > 0 {
      WordNext(FIXED_LIT, 0, SpillBits(n - 1));
    } else {
      var far := Word(FIXED_DIST, 30) + [];
      WordNext(FIXED_LIT, 286, far);
      FarZero(far);
    }
  }

  lemma FarZero(far: seq<bool>)
    requires |FIXED_DIST| == 32 && far == Word(FIXED_DIST, 30) + []
    ensures MatchOf(FIXED_DIST, 286, far) == Copying(286, 0, 0, [])
  {
    hide Word, NextOf, Accepted, LsbValue;
    FixedAccepted();
    WordNext(FIXED_DIST, 30, []);
    assert far[0..] == far;
    FieldBack(0, 0, far);
    FieldBack(0, 0, []);
    assert LsbBits(0, 0) + far == far && LsbBits(0, 0) + [] == [];
  }

  lemma {:induction false} SpillBody(mem: seq<Byte>, end: nat, out: seq<Byte>)
    requires |out| <= end && |FIXED_LIT| == 288 && |FIXED_DIST| == 32
    ensures |BodyRun(FIXED_LIT, FIXED_DIST, mem, end, SpillBits(end - |out|), out).out| == end + 3
    decreases end - |out|
  {
    hide Word, TurnOf, BodyRun, SpillBits;
    var n := end - |out|;
    SpillTurn(n);
    BodyTurn(FIXED_LIT, FIXED_DIST, mem, end, SpillBits(n), out);
    if n > 0 {
      SpillBody(mem, end, out + [0]);
    } else {
      BodyFrozen(FIXED_LIT, FIXED_DIST, mem, end, [], CopyFrom(out, mem, 0, 3));
    }
  }

  lemma SpillStream(mem: seq<Byte>, end: nat, bits: seq<bool>)
    requires |FIXED_LIT| == 288 && |FIXED_DIST| == 32 && bits == [true] + LsbBits(1, 2) + SpillBits(end)
    ensures |StreamRun(mem, end, bits, []).out| == end + 3
  {
    hide BodyRun, SpillBits, Field, LsbBits;
    TypeBack(true, 1, SpillBits(end));
    SpillBody(mem, end, []);
  }

  /** For every `end` there is an input that makes the decoder write up to `end + 3`, whatever memory
      held before. */
  lemma SpareNeeded(end: nat) returns (input: seq<Byte>)
    ensures forall mem: seq<Byte> :: |StreamRun(mem, end, BitsOf(input), []).out| == end + 3
  {
    hide LsbBits, BitsOf, SpillBits, StreamRun;
    SpillLength(end);
    var bits := [true] + LsbBits(1, 2) + SpillBits(end);
    input := Packed(bits);
    forall mem: seq<Byte> ensures |StreamRun(mem, end, BitsOf(input), []).out| == end + 3 {
      SpillStream(mem, end, bits);
    }
  }
}
