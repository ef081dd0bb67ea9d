/** Streams of bits packed into bytes, lowest bit first. */
module BitStream {
  import opened Values
  import opened Kraft
  import opened Bits

  function BitsOf(bytes: seq<Byte>): (s: seq<bool>)
    ensures |s| == 8 * |bytes|
  {
    if bytes == [] then [] else BitsOf(bytes[..|bytes| - 1]) + LsbBits(bytes[|bytes| - 1], 8)
  }

  lemma {:induction false} BitsOfConcat(a: seq<Byte>, b: seq<Byte>)
    ensures BitsOf(a + b) == BitsOf(a) + BitsOf(b)
    decreases |b|
  {
    hide LsbBits, BitsOf;
    if b == [] {
      BitsOfNone();
      assert a + b == a;
    } else {
      var n := |b| - 1;
      BitsOfConcat(a, b[..n]);
      assert (a + b)[..|a| + n] == a + b[..n];
      BitsOfLast(a + b);
      BitsOfLast(b);
    }
  }

  lemma BitsOfNone()
    ensures BitsOf([]) == []
  {
  }

  lemma BitsOfLast(bytes: seq<Byte>)
    requires bytes != []
    ensures BitsOf(bytes) == BitsOf(bytes[..|bytes| - 1]) + LsbBits(bytes[|bytes| - 1], 8)
  {
    hide LsbBits;
  }

  lemma BitsOfOne(b: Byte)
    ensures BitsOf([b]) == LsbBits(b, 8)
  {
    assert [b][..0] == [];
    assert BitsOf([]) == [];
  }

  /** The unread bytes start with the byte at `i`. */
  lemma BitsOfNext(bytes: seq<Byte>, i: nat)
    requires i < |bytes|
    ensures BitsOf(bytes[i..]) == LsbBits(bytes[i], 8) + BitsOf(bytes[i + 1..])
  {
    hide LsbBits;
    assert bytes[i..] == [bytes[i]] + bytes[i + 1..];
    BitsOfConcat([bytes[i]], bytes[i + 1..]);
    BitsOfOne(bytes[i]);
  }

  function Low(x: nat, n: nat): nat {
    x % Pow2(n)
  }

  /** Joining two bit fields in a register. */
  lemma {:induction false} LsbJoin(x: nat, n: nat, y: nat, m: nat)
    requires x < Pow2(n)
    ensures LsbBits(x + y * Pow2(n), n + m) == LsbBits(x, n) + LsbBits(y, m)
    decreases n
  {
    if n == 0 {
      assert LsbBits(x, n) + LsbBits(y, m) == LsbBits(y, m);
    } else {
      AddHigh(x, y, Pow2(n - 1));
      LsbJoin(x / 2, n - 1, y, m);
      assert LsbBits(x, n) + LsbBits(y, m) == [x % 2 == 1] + (LsbBits(x / 2, n - 1) + LsbBits(y, m));
    }
  }

  /** The sum still fits. */
  lemma JoinFits(x: nat, n: nat, y: nat, m: nat)
    requires x < Pow2(n) && y < Pow2(m)
    ensures x + y * Pow2(n) < Pow2(n + m)
  {
    hide Pow2;
    Pow2Add(n, m);
    MulOrder(Pow2(n), y + 1, Pow2(m));
    assert (y + 1) * Pow2(n) == y * Pow2(n) + Pow2(n);
  }

  /** Taking `n` bits off the bottom of a register of `m`. */
  lemma LsbSplit(x: nat, m: nat, n: nat)
    requires n <= m && x < Pow2(m)
    ensures LsbBits(x, m)[n..] == LsbBits(Shift(x, n), m - n) && Shift(x, n) < Pow2(m - n)
    ensures Low(x, n) == LsbValue(LsbBits(x, m)[..n])
  {
    hide Pow2, LsbBits, LsbValue, Shift;
    LsbSuffix(x, m, n);
    ShiftFits(x, m, n);
    LsbPrefix(x, m, n);
    LowBits(x, n);
  }

  lemma LowBits(x: nat, n: nat)
    ensures LsbValue(LsbBits(x, n)) == x % Pow2(n)
  {
    hide Pow2, LsbBits, LsbValue;
    var q, r := x / Pow2(n), x % Pow2(n);
    assert x == r + q * Pow2(n);
    LsbAddHigh(r, n, q);
    LsbBitsValue(r, n);
  }

  /** Writes bit fields into bytes. Fewer than eight bits wait in the register. Bytes past the
      end of the buffer are dropped. */
  class BitWriter {
    var out: seq<Byte>
    var end: nat
    var bitBuffer: nat
    var bitsIn: nat
    /** All bytes, with those that were dropped. */
    ghost var all: seq<Byte>

    ghost predicate Valid()
      reads this
    {
      bitsIn < 8 && bitBuffer < Pow2(bitsIn) && Clipped()
    }

    /** What is kept are the bytes before the end. */
    ghost predicate Clipped()
      reads this
    {
      out == if |all| <= end then all else all[..end]
    }

    /** No byte was dropped. */
    ghost predicate Complete()
      reads this
    {
      |all| <= end
    }

    /** All bits sent so far, whether or not they are kept. */
    ghost function Stream(): (s: seq<bool>)
      reads this
      ensures |s| == 8 * |all| + bitsIn
    {
      BitsOf(all) + LsbBits(bitBuffer, bitsIn)
    }

    constructor ()
      ensures Valid() && Complete() && Stream() == []
    {
      out, end, bitBuffer, bitsIn := [], 0, 0, 0;
      all := [];
    }

    /** Makes room for `size` bytes behind what is there. */
    method Open(size: nat)
      requires Valid() && Complete()
      modifies `end
      ensures Valid() && Complete() && end == |all| + size
    {
      end := |out| + size;
    }

    /** Moves one byte from the register to the buffer, if there is room. */
    method SpillByte()
      requires bitsIn >= 8 && bitBuffer < Pow2(bitsIn) && Clipped()
      modifies `out, `all, `bitBuffer, `bitsIn
      ensures bitBuffer < Pow2(bitsIn) && Clipped() && Stream() == old(Stream())
      ensures bitsIn == old(bitsIn) - 8 && |all| == |old(all)| + 1 && old(all) <= all
    {
      hide Pow2, LsbBits, BitsOf;
      TakeByte(bitBuffer, bitsIn);
      BitsOfConcat(all, [bitBuffer % 256]);
      BitsOfOne(bitBuffer % 256);
      if |out| < end { out := out + [bitBuffer % 256]; }
      all := all + [bitBuffer % 256];
      bitBuffer := bitBuffer / 256;
      bitsIn := bitsIn - 8;
    }

    /** Appends the low `len` bits of `bits`. */
    method PutBits(bits: nat, len: nat)
      requires Valid() && bits < Pow2(len)
      modifies `out, `all, `bitBuffer, `bitsIn
      ensures Valid() && Stream() == old(Stream()) + LsbBits(bits, len)
      ensures bitsIn == (old(bitsIn) + len) % 8
      ensures |all| == |old(all)| + (old(bitsIn) + len) / 8 && old(all) <= all
    {
      hide Pow2, LsbBits, BitsOf;
      ghost var n := bitsIn;
      LsbJoin(bitBuffer, bitsIn, bits, len);
      JoinFits(bitBuffer, bitsIn, bits, len);
      bitBuffer := bitBuffer + bits * Pow2(bitsIn);
      bitsIn := bitsIn + len;
      ghost var sent := Stream();
      assert sent == old(Stream()) + LsbBits(bits, len);
      while bitsIn >= 8
        invariant bitBuffer < Pow2(bitsIn) && Stream() == sent
        invariant |all| * 8 + bitsIn == |old(all)| * 8 + n + len && old(all) <= all
        invariant Clipped()
      {
        SpillByte();
      }
    }
  }

  lemma TakeByte(x: nat, n: nat)
    requires 8 <= n && x < Pow2(n)
    ensures LsbBits(x, n) == LsbBits(x % 256, 8) + LsbBits(x / 256, n - 8) && x / 256 < Pow2(n - 8)
  {
    hide LsbBits, Pow2;
    EightBits();
    LsbSplit(x, n, 8);
    ShiftByte(x);
    LsbPrefix(x, n, 8);
    LsbAddHigh(x % 256, 8, x / 256);
    assert x == x % 256 + x / 256 * Pow2(8);
  }

  lemma ShiftByte(x: nat)
    ensures Shift(x, 8) == x / 256
  {
    assert Shift(x, 4) == x / 16;
    assert Shift(x, 8) == Shift(x / 16, 4);
  }

  lemma EightBits()
    ensures Pow2(8) == 256
  {
    assert Pow2(4) == 16;
  }

  lemma NoBits(x: nat)
    ensures LsbBits(x, 0) == []
  {
  }

  /** Reads bit fields from bytes; the next bits wait in a register. */
  class BitReader {
    const input: seq<Byte>
    var pos: nat
    var bitBuf: nat
    var numBits: nat

    /** The register holds at most 30 bits. */
    ghost predicate Valid()
      reads this
    {
      pos <= |input| && bitBuf < Pow2(numBits) && numBits <= 30
    }

    /** The bits in the register. */
    ghost function Held(): (s: seq<bool>)
      reads this
      ensures |s| == numBits
    {
      LsbBits(bitBuf, numBits)
    }

    /** The bits not yet taken. */
    ghost function Rest(): seq<bool>
      requires pos <= |input|
      reads this
    {
      Held() + BitsOf(input[pos..])
    }

    constructor (input: seq<Byte>)
      ensures Valid() && this.input == input && Rest() == BitsOf(input)
    {
      this.input := input;
      pos, bitBuf, numBits := 0, 0, 0;
    }

    /** Moves one byte into the register, if there is one. */
    method NeedByte() returns (ok: bool)
      requires Valid() && numBits <= 22
      modifies this
      ensures Valid() && Rest() == old(Rest())
      ensures ok <==> old(pos) < |input|
      ensures ok ==> pos == old(pos) + 1 && numBits == old(numBits) + 8 && old(Held()) <= Held()
      ensures !ok ==> pos == old(pos) && numBits == old(numBits)
    {
      hide Pow2, LsbBits, BitsOf;
      if pos >= |input| { return false; }
      var c := input[pos];
      BitsOfNext(input, pos);
      EightBits();
      LsbJoin(bitBuf, numBits, c, 8);
      JoinFits(bitBuf, numBits, c, 8);
      bitBuf := bitBuf + c * Pow2(numBits);
      pos, numBits := pos + 1, numBits + 8;
      return true;
    }

    /** Drops `n` bits that are in the register. */
    method Drop(n: nat) returns (b: nat)
      requires Valid() && n <= numBits
      modifies this
      ensures Valid() && pos == old(pos) && numBits == old(numBits) - n
      ensures b == LsbValue(old(Held())[..n]) && Held() == old(Held())[n..] && Rest() == old(Rest())[n..]
    {
      hide Pow2, LsbBits, BitsOf, Low, Shift;
      LsbSplit(bitBuf, numBits, n);
      b := Low(bitBuf, n);
      bitBuf := Shift(bitBuf, n);
      numBits := numBits - n;
    }

    /** Takes the next byte straight from the input when the register is empty, else the next
        eight bits. */
    method GetByte() returns (ok: bool, c: Byte)
      requires Valid() && numBits % 8 == 0
      modifies this
      ensures Valid() && numBits % 8 == 0
      ensures ok <==> |old(Rest())| >= 8
      ensures ok ==> Rest() == old(Rest())[8..] && LsbBits(c, 8) == old(Rest())[..8]
      ensures !ok ==> Rest() == old(Rest())
    {
      hide Pow2, LsbBits, BitsOf, LsbValue;
      c := 0;
      if numBits > 0 {
        assert Rest()[..8] == Held()[..8];
        LsbRoundTrip(Held()[..8]);
        LsbValueBound(Held()[..8]);
        EightBits();
        c := Drop(8);
        return true, c;
      }
      NoBits(bitBuf);
      if pos >= |input| {
        assert input[pos..] == [];
        BitsOfNone();
        return false, 0;
      }
      BitsOfNext(input, pos);
      c := input[pos];
      pos := pos + 1;
      ok := true;
    }

    /** Takes the next `n` bits; bytes are read only as far as they are needed. */
    method GetBits(n: nat) returns (ok: bool, b: nat)
      requires Valid() && n <= 16
      modifies this
      ensures Valid()
      ensures ok <==> |old(Rest())| >= n
      ensures ok ==> Rest() == old(Rest())[n..] && b == LsbValue(old(Rest())[..n])
      ensures !ok ==> Rest() == old(Rest())
      ensures ok && pos > old(pos) ==> numBits < 8
    {
      hide Pow2, LsbBits, BitsOf, LsbValue;
      b := 0;
      while numBits < n
        invariant Valid() && Rest() == old(Rest()) && pos >= old(pos)
        invariant pos > old(pos) ==> numBits < n + 8
        decreases |input| - pos
      {
        ok := NeedByte();
        if !ok { return; }
      }
      assert Rest()[..n] == Held()[..n];
      b := Drop(n);
      ok := true;
    }
  }
}
