/** What RFC 1951 says of words and symbols, in its own terms: the model's codes are those of the
    format. */
module DeflateFormat {
  import opened Kraft
  import opened Bits
  import opened Canonical
  import opened MatchSymbols
  import opened LengthPacking
  import opened Deflate
  import opened InflateBack

  // ---- The fixed codes (section 3.2.6).

  lemma FixedFirsts()
    ensures First(FIXED_LIT, 7) == 0 && First(FIXED_LIT, 8) == 0x30 && First(FIXED_LIT, 9) == 0x190
    ensures First(FIXED_DIST, 5) == 0
  {
    hide Count, First;
    forall len: nat
      ensures Count(FIXED_LIT, len)
        == if len == 7 then 24 else if len == 8 then 152 else if len == 9 then 112 else 0
      ensures Count(FIXED_DIST, len) == if len == 5 then 32 else 0
    {
      FixedCount(len);
    }
    NoneYet(FIXED_LIT, 7);
    NoneYet(FIXED_DIST, 5);
    FirstNext(FIXED_LIT, 7);
    FirstNext(FIXED_LIT, 8);
  }

  /** Of the symbols before `s`, how many have a word as long as that of `s`. */
  lemma FixedRank(s: nat)
    requires s < 288
    ensures |FIXED_LIT| == 288
    ensures Count(FIXED_LIT[..s], FIXED_LIT[s])
      == if s < 144 then s else if s < 256 then s - 144 else if s < 280 then s - 256 else s - 136
    ensures FIXED_LIT[s] == if s < 144 then 8 else if s < 256 then 9 else if s < 280 then 7 else 8
  {
    hide Count;
    var a, b, c := Times(8, 144), Times(9, 112), Times(7, 24);
    if s < 144 {
      assert FIXED_LIT[..s] == Times(8, s);
      CountTimes(8, s, 8);
    } else if s < 256 {
      assert FIXED_LIT[..s] == a + Times(9, s - 144);
      CountConcat(a, Times(9, s - 144), 9);
      CountTimes(8, 144, 9);
      CountTimes(9, s - 144, 9);
    } else if s < 280 {
      assert FIXED_LIT[..s] == a + b + Times(7, s - 256);
      CountConcat(a + b, Times(7, s - 256), 7);
      CountConcat(a, b, 7);
      CountTimes(8, 144, 7);
      CountTimes(9, 112, 7);
      CountTimes(7, s - 256, 7);
    } else {
      assert FIXED_LIT[..s] == a + b + c + Times(8, s - 280);
      CountConcat(a + b + c, Times(8, s - 280), 8);
      CountConcat(a + b, c, 8);
      CountConcat(a, b, 8);
      CountTimes(8, 144, 8);
      CountTimes(9, 112, 8);
      CountTimes(7, 24, 8);
      CountTimes(8, s - 280, 8);
    }
  }

  /** The words of the fixed literal and length code: 00110000 to 10111111, 110010000 to 111111111,
      0000000 to 0010111 and 11000000 to 11000111. */
  lemma FixedWords(s: nat)
    requires s < 288
    ensures |FIXED_LIT| == 288
    ensures Word(FIXED_LIT, s)
      == if s < 144 then MsbBits(0x30 + s, 8)
         else if s < 256 then MsbBits(0x190 + (s - 144), 9)
         else if s < 280 then MsbBits(s - 256, 7)
         else MsbBits(0xC0 + (s - 280), 8)
  {
    hide Count, First, MsbBits;
    FixedFirsts();
    FixedRank(s);
  }

  /** The words of the fixed distance code are the symbols as numbers of five bits. */
  lemma FixedDistanceWords(d: nat)
    requires d < 32
    ensures |FIXED_DIST| == 32 && Word(FIXED_DIST, d) == MsbBits(d, 5)
  {
    hide Count, First, MsbBits;
    FixedFirsts();
    assert FIXED_DIST[..d] == Times(5, d);
    CountTimes(5, d, 5);
  }

  // ---- Codes from lengths (section 3.2.2).

  /** Words of one length are consecutive numbers, in the order of the symbols. */
  lemma ConsecutiveWords(sizes: seq<nat>, i: nat, j: nat)
    requires i < j < |sizes| && sizes[i] == sizes[j] && forall k :: i < k < j ==> sizes[k] != sizes[i]
    ensures Code(sizes, j) == Code(sizes, i) + 1
  {
    hide First, Count;
    CountNext(sizes, i, sizes[i]);
    NoneBetween(sizes, i + 1, j, sizes[i]);
  }

  lemma {:induction false} NoneBetween(sizes: seq<nat>, a: nat, b: nat, len: nat)
    requires a <= b <= |sizes| && forall k :: a <= k < b ==> sizes[k] != len
    ensures Count(sizes[..b], len) == Count(sizes[..a], len)
  {
    hide Count;
    if a < b {
      NoneBetween(sizes, a, b - 1, len);
      CountNext(sizes, b - 1, len);
    }
  }

  /** Shorter words come before longer ones: a longer word starts with a greater number. */
  lemma ShorterWordsFirst(sizes: seq<nat>, i: nat, j: nat)
    requires Accepted(sizes) && i < |sizes| && j < |sizes| && 0 < sizes[i] < sizes[j]
    ensures MsbValue(Word(sizes, i)) < MsbValue(Word(sizes, j)[..sizes[i]])
  {
    hide First, Count, Pow2, MsbBits, MsbValue, Complete, Used, Fits;
    AcceptedFits(sizes);
    CodeRange(sizes, i);
    CodeFits(sizes, i);
    MsbBitsValue(Code(sizes, i), sizes[i]);
    PrefixAfter(sizes, j, sizes[i]);
  }

  /** The shortest words start with the one that is all zeros. */
  lemma ZeroWordFirst(sizes: seq<nat>, i: nat)
    requires i < |sizes| && sizes[i] > 0
    requires forall k :: 0 <= k < |sizes| && sizes[k] > 0 ==> sizes[k] >= sizes[i] && (sizes[k] == sizes[i] ==> k >= i)
    ensures Code(sizes, i) == 0
  {
    hide First, Count;
    forall len | 1 <= len < sizes[i] ensures Count(sizes, len) == 0 {
      NoneBetween(sizes, 0, |sizes|, len);
      assert sizes[..|sizes|] == sizes && sizes[..0] == [];
      assert Count([], len) == 0 by { NobodyCounted(len); }
    }
    NoneYet(sizes, sizes[i]);
    NoneBetween(sizes, 0, i, sizes[i]);
    NobodyCounted(sizes[i]);
    assert sizes[..0] == [];
  }

  lemma NobodyCounted(len: nat)
    ensures Count([], len) == 0
  {
  }

  // ---- Lengths and distances (section 3.2.5).

  /** Length symbols: after the first eight, every four share one more extra bit. Each takes up where
      the one before ends, but the last stands for 258 alone. */
  lemma LengthSymbols(s: nat)
    requires 257 <= s <= 285
    ensures LENGTH_BASE[0] == 3 && LENGTH_BASE[28] == 258 && LenSym(258 - 3) == 285
    ensures LENGTH_EXTRA[s - 257] == if s < 265 || s == 285 then 0 else (s - 261) / 4
    ensures s < 284 ==> LENGTH_BASE[s - 256] == LENGTH_BASE[s - 257] + Pow2(LENGTH_EXTRA[s - 257])
  {
    SmallPowers();
  }

  /** Distance symbols: after the first two, every two share one more extra bit, and each takes up
      where the one before ends. */
  lemma DistanceSymbols(d: nat)
    requires d < 30
    ensures DIST_BASE[0] == 1
    ensures DIST_EXTRA[d] == if d < 2 then 0 else (d - 2) / 2
    ensures d < 29 ==> DIST_BASE[d + 1] == DIST_BASE[d] + Pow2(DIST_EXTRA[d])
  {
    SmallPowers();
  }

  lemma SmallPowers()
    ensures Pow2(0) == 1 && Pow2(1) == 2 && Pow2(2) == 4 && Pow2(3) == 8 && Pow2(4) == 16 && Pow2(5) == 32
    ensures Pow2(6) == 64 && Pow2(7) == 128 && Pow2(8) == 256 && Pow2(9) == 512 && Pow2(10) == 1024
    ensures Pow2(11) == 2048 && Pow2(12) == 4096 && Pow2(13) == 8192
  {
    assert Pow2(3) == 8 && Pow2(6) == 64 && Pow2(9) == 512 && Pow2(12) == 4096;
  }

  // ---- The order of the code-length code (section 3.2.7).

  /** First the three repeats, then zero, and from there on outward from eight. */
  lemma SwizzleOrder(k: nat)
    requires k < 19
    ensures |SWIZZLE| == 19
    ensures SWIZZLE[k]
      == if k < 3 then 16 + k
         else if k == 3 then 0
         else if k % 2 == 0 then 8 + (k - 4) / 2
         else 8 - (k - 3) / 2
  {
  }

  /** The repeat symbols: the last length 3 to 6 times, 3 to 10 zeros, 11 to 138 zeros. */
  lemma RepeatRanges(code: nat, n: nat)
    requires 16 <= code <= 18
    ensures (exists p: Packet :: p.Valid() && p.code == code && Run(p) == n)
      <==> (if code == 16 then 3 <= n <= 6 else if code == 17 then 3 <= n <= 10 else 11 <= n <= 138)
    ensures ExtraBits(16) == 2 && ExtraBits(17) == 3 && ExtraBits(18) == 7
  {
    var least := if code == 18 then 11 else 3;
    if n >= least { assert Run(Packet(code, n - least)) == n; }
  }

  /** The number in the bits from `i` on. */
  ghost function NumberAt(h: seq<bool>, i: nat, n: nat): nat
    requires i + n <= |h|
  {
    LsbValue(h[i..i + n])
  }

  /** The numbers in the header of a dynamic block: of literal and length codes, of distance codes and of code
      length codes, less 257, 1 and 4. */
  lemma HeaderOrder(t: Tables)
    requires t.Valid()
    ensures |t.Header()| >= 14 && NumberAt(t.Header(), 0, 5) + 257 == |t.lit|
    ensures NumberAt(t.Header(), 5, 5) + 1 == |t.dist| && NumberAt(t.Header(), 10, 4) + 4 == t.numCl
    ensures t.Header()[14..] == ClBits(t.cl, 0, t.numCl) + PacketsBits(t.cl, t.packets)
  {
    hide LsbBits, LsbValue, Pow2, ClBits, PacketsBits, Accepted, Unpack, WellFormed, CodedPackets;
    SmallPowers();
    var h := t.Header();
    LsbBitsValue(|t.lit| - 257, 5);
    LsbBitsValue(|t.dist| - 1, 5);
    LsbBitsValue(t.numCl - 4, 4);
    assert h[0..5] == LsbBits(|t.lit| - 257, 5) && h[5..10] == LsbBits(|t.dist| - 1, 5);
    assert h[10..14] == LsbBits(t.numCl - 4, 4);
  }

  /** Then the lengths of the code length code, three bits for each of the numbered ones, in their order. */
  lemma ClOrder(t: Tables, k: nat, x: nat)
    requires t.Valid() && k < t.numCl && x < 19 && SWIZZLE[k] == x
    ensures |t.Header()| >= 17 + 3 * k && NumberAt(t.Header(), 14 + 3 * k, 3) == t.cl[x]
  {
    hide LsbBits, LsbValue, Pow2, ClBits, PacketsBits, Accepted, Unpack, WellFormed, CodedPackets, Tables.Header;
    SmallPowers();
    HeaderOrder(t);
    LsbBitsValue(t.cl[x], 3);
    ClAt(t.cl, 0, t.numCl, 0);
    ClAt(t.cl, 0, t.numCl, k);
    ClBitsStep(t.cl, k, t.numCl);
    InCl(t.Header(), ClBits(t.cl, 0, t.numCl), PacketsBits(t.cl, t.packets), k, LsbBits(t.cl[x], 3),
         ClBits(t.cl, k + 1, t.numCl));
  }

  lemma InCl(h: seq<bool>, cl: seq<bool>, tail: seq<bool>, k: nat, field: seq<bool>, more: seq<bool>)
    requires |h| >= 14 && h[14..] == cl + tail && 3 * k + 3 <= |cl| && cl[3 * k..] == field + more && |field| == 3
    ensures 17 + 3 * k <= |h| && h[14 + 3 * k..14 + 3 * k + 3] == field
  {
    forall i | 0 <= i < 3 ensures h[14 + 3 * k..14 + 3 * k + 3][i] == field[i] {
      assert h[14..][3 * k + i] == cl[3 * k + i] == cl[3 * k..][i];
    }
  }
}
