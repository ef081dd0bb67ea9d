/** The bits of a deflate block (section 3.2.3 of RFC 1951), in terms of code lengths and LZ77 codes. */
module Deflate {
  import opened Values
  import opened Kraft
  import opened Bits
  import opened Canonical
  import opened LzCodes
  import opened CodeBuffer
  import opened MatchSymbols
  import opened LengthPacking
  import opened BitStream

  // ---- The body of a block.

  ghost function ExtraOf(x: nat, n: nat): seq<bool>
    requires n <= 13
  {
    LsbBits(x % Span(n), n)
  }

  /** Every symbol of the code has a word. */
  ghost predicate Coded(lit: seq<nat>, dist: seq<nat>, c: LzCode) {
    c.Valid() &&
    match c
    case Lit(b) => b < |lit| && lit[b] > 0
    case Match(len, d) =>
      && LenSym(len - MIN_MATCH) < |lit| && lit[LenSym(len - MIN_MATCH)] > 0
      && DistSym(d - 1) < |dist| && dist[DistSym(d - 1)] > 0
  }

  ghost predicate AllCoded(lit: seq<nat>, dist: seq<nat>, codes: seq<LzCode>) {
    forall i :: 0 <= i < |codes| ==> Coded(lit, dist, codes[i])
  }

  ghost function CodeBits(lit: seq<nat>, dist: seq<nat>, c: LzCode): seq<bool>
    requires Coded(lit, dist, c)
  {
    match c
    case Lit(b) => Word(lit, b)
    case Match(len, d) =>
      Word(lit, LenSym(len - MIN_MATCH)) + ExtraOf(len - MIN_MATCH, LenExtra(len - MIN_MATCH))
      + (Word(dist, DistSym(d - 1)) + ExtraOf(d - 1, DistExtra(d - 1)))
  }

  ghost function CodesBits(lit: seq<nat>, dist: seq<nat>, codes: seq<LzCode>): seq<bool>
    requires AllCoded(lit, dist, codes)
  {
    if codes == [] then [] else CodeBits(lit, dist, codes[0]) + CodesBits(lit, dist, codes[1..])
  }

  lemma CodesBitsNone(lit: seq<nat>, dist: seq<nat>)
    ensures CodesBits(lit, dist, []) == []
  {
  }

  lemma {:induction false} CodesBitsNext(lit: seq<nat>, dist: seq<nat>, codes: seq<LzCode>, c: LzCode)
    requires AllCoded(lit, dist, codes) && Coded(lit, dist, c)
    ensures AllCoded(lit, dist, codes + [c])
    ensures CodesBits(lit, dist, codes + [c]) == CodesBits(lit, dist, codes) + CodeBits(lit, dist, c)
  {
    hide CodeBits, Coded;
    if codes == [] {
      assert (codes + [c])[1..] == [];
    } else {
      CodesBitsNext(lit, dist, codes[1..], c);
      assert (codes + [c])[1..] == codes[1..] + [c];
    }
  }

  /** The codes, then the end-of-block symbol. */
  ghost function Body(lit: seq<nat>, dist: seq<nat>, codes: seq<LzCode>): seq<bool>
    requires AllCoded(lit, dist, codes) && |lit| > 256
  {
    CodesBits(lit, dist, codes) + Word(lit, 256)
  }

  // ---- The header of a dynamic block.

  const SWIZZLE: seq<nat> := [16, 17, 18, 0, 8, 7, 9, 6, 10, 5, 11, 4, 12, 3, 13, 2, 14, 1, 15]

  ghost predicate CodedPacket(cl: seq<nat>, p: Packet) {
    p.Valid() && |cl| == 19 && cl[p.code] > 0
  }

  ghost predicate CodedPackets(cl: seq<nat>, ps: seq<Packet>) {
    |cl| == 19 && forall i :: 0 <= i < |ps| ==> CodedPacket(cl, ps[i])
  }

  ghost function PacketBits(cl: seq<nat>, p: Packet): seq<bool>
    requires CodedPacket(cl, p)
  {
    Word(cl, p.code) + LsbBits(p.extra, ExtraBits(p.code))
  }

  ghost function PacketsBits(cl: seq<nat>, ps: seq<Packet>): seq<bool>
    requires CodedPackets(cl, ps)
  {
    if ps == [] then [] else PacketBits(cl, ps[0]) + PacketsBits(cl, ps[1..])
  }

  /** The lengths of the code-length code from place `i` to place `n` of the swizzled order. */
  ghost function ClBits(cl: seq<nat>, i: nat, n: nat): seq<bool>
    requires |cl| == 19 && i <= n <= 19
    decreases n - i
  {
    if i == n then [] else LsbBits(cl[SWIZZLE[i]], 3) + ClBits(cl, i + 1, n)
  }

  lemma ClBitsStep(cl: seq<nat>, i: nat, n: nat)
    requires |cl| == 19 && i < n <= 19
    ensures ClBits(cl, i, n) == LsbBits(cl[SWIZZLE[i]], 3) + ClBits(cl, i + 1, n)
  {
    hide LsbBits;
  }

  lemma ClBitsNone(cl: seq<nat>, n: nat)
    requires |cl| == 19 && n <= 19
    ensures ClBits(cl, n, n) == []
  {
  }

  datatype Tables = Tables(lit: seq<nat>, dist: seq<nat>, cl: seq<nat>, packets: seq<Packet>, numCl: nat)
  {
    /** A header that can be written: complete codes, and every symbol used has a word. */
    ghost predicate Valid() {
      && 257 <= |lit| <= 288 && 1 <= |dist| <= 32 && |cl| == 19 && 4 <= numCl <= 19
      && Accepted(lit) && Accepted(dist) && Accepted(cl) && lit[256] > 0
      && (forall i :: 0 <= i < 19 ==> cl[i] < 8) && (forall i :: numCl <= i < 19 ==> cl[SWIZZLE[i]] == 0)
      && WellFormed(packets) && CodedPackets(cl, packets) && Unpack(packets) == lit + dist
    }

    ghost function Header(): seq<bool>
      requires Valid()
    {
      LsbBits(|lit| - 257, 5)
        + (LsbBits(|dist| - 1, 5) + (LsbBits(numCl - 4, 4) + (ClBits(cl, 0, numCl) + PacketsBits(cl, packets))))
    }
  }

  // ---- Trailing zero lengths do not matter.

  lemma {:induction false} CountTrim(sizes: seq<nat>, n: nat, len: nat)
    requires n <= |sizes| && len >= 1 && forall i :: n <= i < |sizes| ==> sizes[i] == 0
    ensures Count(sizes[..n], len) == Count(sizes, len)
    decreases |sizes|
  {
    if n < |sizes| {
      var s := sizes[..|sizes| - 1];
      CountTrim(s, n, len);
      assert s[..n] == sizes[..n];
    } else {
      assert sizes[..n] == sizes;
    }
  }

  lemma {:induction false} FirstTrim(sizes: seq<nat>, n: nat, len: nat)
    requires n <= |sizes| && forall i :: n <= i < |sizes| ==> sizes[i] == 0
    ensures First(sizes[..n], len) == First(sizes, len)
  {
    hide Count;
    if len > 1 {
      FirstTrim(sizes, n, len - 1);
      CountTrim(sizes, n, len - 1);
    }
  }

  lemma {:induction false} UsedTrim(sizes: seq<nat>, n: nat, len: nat)
    requires n <= |sizes| && forall i :: n <= i < |sizes| ==> sizes[i] == 0
    ensures Used(sizes[..n], len) == Used(sizes, len)
  {
    hide Count;
    if len > 0 {
      UsedTrim(sizes, n, len - 1);
      CountTrim(sizes, n, len);
    }
  }

  lemma TrimKeeps(sizes: seq<nat>, n: nat)
    requires n <= |sizes| && Accepted(sizes) && forall i :: n <= i < |sizes| ==> sizes[i] == 0
    ensures Accepted(sizes[..n])
    ensures forall i :: 0 <= i < n ==> Word(sizes[..n], i) == Word(sizes, i)
  {
    hide Count, First, Used, MsbBits;
    FirstTrim(sizes, n, 16);
    UsedTrim(sizes, n, 15);
    forall i | 0 <= i < n ensures Word(sizes[..n], i) == Word(sizes, i) {
      FirstTrim(sizes, n, sizes[i]);
      assert sizes[..n][..i] == sizes[..i];
    }
  }

  // ---- The fixed codes.

  const FIXED_LIT: seq<nat> := Times(8, 144) + Times(9, 112) + Times(7, 24) + Times(8, 8)
  const FIXED_DIST: seq<nat> := Times(5, 32)

  lemma {:induction false} CountConcat(a: seq<nat>, b: seq<nat>, len: nat)
    ensures Count(a + b, len) == Count(a, len) + Count(b, len)
    decreases |b|
  {
    if b == [] {
      assert a + b == a;
    } else {
      var n := |b| - 1;
      CountConcat(a, b[..n], len);
      assert (a + b)[..|a| + n] == a + b[..n];
    }
  }

  lemma {:induction false} CountTimes(x: nat, n: nat, len: nat)
    ensures Count(Times(x, n), len) == if len == x then n else 0
  {
    if n > 0 {
      CountTimes(x, n - 1, len);
      assert Times(x, n)[..n - 1] == Times(x, n - 1);
    }
  }

  lemma FixedCount(len: nat)
    ensures Count(FIXED_LIT, len) == if len == 7 then 24 else if len == 8 then 152 else if len == 9 then 112 else 0
    ensures Count(FIXED_DIST, len) == if len == 5 then 32 else 0
  {
    hide Count;
    var a, b, c, d := Times(8, 144), Times(9, 112), Times(7, 24), Times(8, 8);
    CountConcat(a + b + c, d, len);
    CountConcat(a + b, c, len);
    CountConcat(a, b, len);
    CountTimes(8, 144, len);
    CountTimes(9, 112, len);
    CountTimes(7, 24, len);
    CountTimes(8, 8, len);
    CountTimes(5, 32, len);
  }

  /** Once the words are used up they stay used up. */
  lemma {:induction false} FullStays(sizes: seq<nat>, from: nat, len: nat)
    requires 1 <= from <= len && First(sizes, from) == Pow2(from)
    requires forall k :: from <= k < len ==> Count(sizes, k) == 0
    ensures First(sizes, len) == Pow2(len)
  {
    hide Count;
    if from < len { FullStays(sizes, from, len - 1); }
  }

  lemma {:induction false} NoneYet(sizes: seq<nat>, len: nat)
    requires forall k :: 1 <= k < len ==> Count(sizes, k) == 0
    ensures First(sizes, len) == 0
  {
    hide Count;
    if len > 1 { NoneYet(sizes, len - 1); }
  }

  lemma FixedAccepted()
    ensures |FIXED_LIT| == 288 && |FIXED_DIST| == 32 && Accepted(FIXED_LIT) && Accepted(FIXED_DIST)
    ensures forall i :: 0 <= i < 288 ==> FIXED_LIT[i] > 0
    ensures forall i :: 0 <= i < 32 ==> FIXED_DIST[i] > 0
  {
    hide Count, Used, Pow2, First;
    forall len: nat
      ensures Count(FIXED_LIT, len)
        == if len == 7 then 24 else if len == 8 then 152 else if len == 9 then 112 else 0
    {
      FixedCount(len);
    }
    forall len: nat ensures Count(FIXED_DIST, len) == if len == 5 then 32 else 0 { FixedCount(len); }
    Pow2Table();
    NoneYet(FIXED_LIT, 7);
    FirstNext(FIXED_LIT, 7);
    FirstNext(FIXED_LIT, 8);
    FirstNext(FIXED_LIT, 9);
    FullStays(FIXED_LIT, 10, 16);
    NoneYet(FIXED_DIST, 5);
    FirstNext(FIXED_DIST, 5);
    assert Pow2(6) == 64 by { SixBits(); }
    FullStays(FIXED_DIST, 6, 16);
  }

  lemma SixBits()
    ensures Pow2(6) == 64
  {
    assert Pow2(3) == 8;
  }

  lemma FixedCodes(codes: seq<LzCode>)
    requires AllValid(codes)
    ensures AllCoded(FIXED_LIT, FIXED_DIST, codes)
  {
    FixedAccepted();
  }

  // ---- Blocks and streams.

  ghost predicate TableBits(t: Tables, bits: seq<bool>, codes: seq<LzCode>) {
    && t.Valid() && AllCoded(t.lit, t.dist, codes)
    && bits == LsbBits(2, 2) + t.Header() + Body(t.lit, t.dist, codes)
  }

  ghost predicate DynamicBits(bits: seq<bool>, codes: seq<LzCode>) {
    exists t :: TableBits(t, bits, codes)
  }

  ghost predicate FixedBits(bits: seq<bool>, codes: seq<LzCode>) {
    && AllCoded(FIXED_LIT, FIXED_DIST, codes) && |FIXED_LIT| > 256
    && bits == LsbBits(1, 2) + Body(FIXED_LIT, FIXED_DIST, codes)
  }

  /** `bits`, after the final-block bit, say `codes`. */
  ghost predicate CompressedBits(bits: seq<bool>, codes: seq<LzCode>) {
    DynamicBits(bits, codes) || FixedBits(bits, codes)
  }

  /** Zero bits up to the next byte boundary. */
  function Pad(at: nat): (n: nat)
    ensures n < 8 && (at + n) % 8 == 0
  {
    (8 - at % 8) % 8
  }

  /** A stored block that starts, after its final-block bit, at bit `at` of the stream. */
  ghost function StoredBits(at: nat, bytes: seq<Byte>): seq<bool>
    requires |bytes| <= 0xFFFF
  {
    LsbBits(0, 2) + LsbBits(0, Pad(at + 2)) + (LsbBits(|bytes|, 16) + (LsbBits(0xFFFF - |bytes|, 16) + BitsOf(bytes)))
  }

  datatype Block = Compressed(codes: seq<LzCode>) | Stored(bytes: seq<Byte>)

  ghost predicate BlockBits(at: nat, bits: seq<bool>, b: Block) {
    match b
    case Compressed(codes) => CompressedBits(bits, codes)
    case Stored(bytes) => |bytes| <= 0xFFFF && bits == StoredBits(at, bytes)
  }

  /** Blocks one after another from bit `at` on; the final-block bit is set on the last one,
      and only when `done`. */
  ghost predicate BlocksBits(at: nat, bits: seq<bool>, bs: seq<Block>, done: bool)
    decreases |bs|
  {
    if bs == [] then bits == [] && !done
    else exists k: nat ::
      && Chops(at, bits, k, bs[0], done && |bs| == 1)
      && BlocksBits(at + k, bits[k..], bs[1..], done && |bs| > 1)
  }

  /** The first `k` bits are a final-block bit and block `b`. */
  ghost predicate Chops(at: nat, bits: seq<bool>, k: nat, b: Block, final: bool) {
    1 <= k <= |bits| && bits[0] == final && BlockBits(at + 1, bits[1..k], b)
  }

  /** One more block behind blocks none of which is final. */
  lemma {:induction false} BlocksBitsNext(at: nat, bits: seq<bool>, bs: seq<Block>, ext: seq<bool>, b: Block,
                                          done: bool)
    requires BlocksBits(at, bits, bs, false) && Chops(at + |bits|, ext, |ext|, b, done)
    ensures BlocksBits(at, bits + ext, bs + [b], done)
    decreases |bs|
  {
    hide BlockBits;
    if bs == [] {
      assert bits + ext == ext && (bs + [b])[1..] == [];
      assert ext[|ext|..] == [];
      assert Chops(at, ext, |ext|, b, done && |[b]| == 1);
    } else {
      var k: nat :| Chops(at, bits, k, bs[0], false) && BlocksBits(at + k, bits[k..], bs[1..], false);
      BlocksBitsNext(at + k, bits[k..], bs[1..], ext, b, done);
      assert (bits + ext)[k..] == bits[k..] + ext && (bs + [b])[1..] == bs[1..] + [b];
      assert (bits + ext)[1..k] == bits[1..k];
      assert Chops(at, bits + ext, k, (bs + [b])[0], false);
    }
  }
}
