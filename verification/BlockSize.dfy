/** How long the blocks written for a full code buffer can get. Tables made for the block are at
    most one bit for each literal or length, and an eighth of a bit for each distance, worse than
    the fixed ones, so either form fits the output buffer. */
module BlockSize {
  import opened Values
  import opened Kraft
  import opened Bits
  import opened MergeLevels
  import opened Canonical
  import opened UsedSymbols
  import opened HuffmanTable
  import LimitCost
  import opened LzCodes
  import opened CodeBuffer
  import opened MatchSymbols
  import opened LengthPacking
  import opened BitStream
  import opened Deflate

  /** No block takes more bits, without its final-block bit. */
  const BLOCK_MAX := 678400

  // ---- The code buffer.

  /** Eighths of a byte the codes take in the buffer, with a flag bit each. */
  ghost function Load(codes: seq<LzCode>): nat
    requires AllValid(codes)
  {
    8 * |Bytes(codes)| + |codes|
  }

  /** Codes that were recorded in one buffer. */
  ghost predicate Buffered(codes: seq<LzCode>) {
    AllValid(codes) && Load(codes) <= 8 * CODE_BUF_SIZE
  }

  lemma {:induction false} BytesConcat(a: seq<LzCode>, b: seq<LzCode>)
    requires AllValid(a) && AllValid(b)
    ensures AllValid(a + b) && Bytes(a + b) == Bytes(a) + Bytes(b)
    decreases |b|
  {
    hide Bytes;
    if b == [] {
      BytesFlagsNone();
      assert a + b == a;
    } else {
      var n := |b| - 1;
      BytesConcat(a, b[..n]);
      assert a + b == (a + b[..n]) + [b[n]] && b == b[..n] + [b[n]];
      BytesNext(a + b[..n], b[n]);
      BytesNext(b[..n], b[n]);
    }
  }

  lemma {:induction false} LoadPacked(codes: seq<LzCode>)
    requires AllValid(codes)
    ensures Load(codes) <= 8 * |Packed(codes)|
    decreases |codes|
  {
    hide Bytes, Flags, Packed;
    if codes == [] {
      assert Bytes([]) == [] by { BytesFlagsNone(); }
    } else {
      PackedUnfold(codes);
      if |codes| > 8 {
        assert codes == codes[..8] + codes[8..];
        BytesConcat(codes[..8], codes[8..]);
        LoadPacked(codes[8..]);
      }
    }
  }

  /** What the buffer holds was recorded in it. */
  lemma HeldIsBuffered(b: seq<Byte>, codes: seq<LzCode>, codeAt: nat, flagsAt: nat, flagsLeft: nat)
    requires Holds(b, codes, codeAt, flagsAt, flagsLeft) && |b| == CODE_BUF_SIZE
    ensures Buffered(codes)
  {
    hide Bytes, Flags, Packed, Load;
    CloseBuffer(b, b[flagsAt := b[flagsAt] / Pow2Small(flagsLeft)], codes, codeAt, flagsAt, flagsLeft);
    LoadPacked(codes);
  }

  // ---- Counting symbols.

  function LitSym(c: LzCode): (x: nat)
    requires c.Valid()
    ensures x < 286 && x != 256
  {
    match c
    case Lit(b) => b
    case Match(len, d) => LenSym(len - MIN_MATCH)
  }

  /** How often each literal or length symbol occurs in the codes. */
  ghost function LitCounts(codes: seq<LzCode>): (r: seq<nat>)
    requires AllValid(codes)
    ensures |r| == 288
  {
    if codes == [] then Times(0, 288)
    else
      var r, x := LitCounts(codes[..|codes| - 1]), LitSym(codes[|codes| - 1]);
      r[x := r[x] + 1]
  }

  ghost function DistCounts(codes: seq<LzCode>): (r: seq<nat>)
    requires AllValid(codes)
    ensures |r| == 32
  {
    if codes == [] then Times(0, 32)
    else
      var r, c := DistCounts(codes[..|codes| - 1]), codes[|codes| - 1];
      if c.Lit? then r else r[DistSym(c.dist - 1) := r[DistSym(c.dist - 1)] + 1]
  }

  // ---- Bits of the codes.

  /** Lengths for all `n` symbols: those that are not in the table have none. */
  ghost function Padded(sizes: seq<nat>, n: nat): (r: seq<nat>)
    requires |sizes| <= n
    ensures |r| == n && forall i :: 0 <= i < n ==> r[i] == if i < |sizes| then sizes[i] else 0
  {
    sizes + Times(0, n - |sizes|)
  }

  ghost function Extras(c: LzCode): nat
    requires c.Valid()
  {
    match c
    case Lit(b) => 0
    case Match(len, d) => LenExtra(len - MIN_MATCH) + DistExtra(d - 1)
  }

  ghost function CodeCost(lit: seq<nat>, dist: seq<nat>, c: LzCode): nat
    requires |lit| == 288 && |dist| == 32 && c.Valid()
  {
    lit[LitSym(c)] + Extras(c) + if c.Match? then dist[DistSym(c.dist - 1)] else 0
  }

  ghost function Cost(lit: seq<nat>, dist: seq<nat>, codes: seq<LzCode>): nat
    requires |lit| == 288 && |dist| == 32 && AllValid(codes)
  {
    if codes == [] then 0 else Cost(lit, dist, codes[..|codes| - 1]) + CodeCost(lit, dist, codes[|codes| - 1])
  }

  ghost function AllExtras(codes: seq<LzCode>): nat
    requires AllValid(codes)
  {
    if codes == [] then 0 else AllExtras(codes[..|codes| - 1]) + Extras(codes[|codes| - 1])
  }

  lemma {:induction false} CostIsLength(lit: seq<nat>, dist: seq<nat>, codes: seq<LzCode>)
    requires |lit| <= 288 && |dist| <= 32 && AllCoded(lit, dist, codes)
    ensures AllValid(codes) && |CodesBits(lit, dist, codes)| == Cost(Padded(lit, 288), Padded(dist, 32), codes)
    decreases |codes|
  {
    hide CodesBits, Word, LsbBits, Span, LenSym, DistSym, LenExtra, DistExtra;
    if codes == [] {
      assert CodesBits(lit, dist, []) == [] by { CodesBitsNone(lit, dist); }
    } else {
      var n := |codes| - 1;
      CostIsLength(lit, dist, codes[..n]);
      assert codes == codes[..n] + [codes[n]];
      assert Coded(lit, dist, codes[n]);
      CodesBitsNext(lit, dist, codes[..n], codes[n]);
    }
  }

  lemma {:induction false} WeightedOneMore(w: seq<nat>, lens: seq<nat>, x: nat)
    requires |w| == |lens| && x < |w|
    ensures WeightedLength(w[x := w[x] + 1], lens) == WeightedLength(w, lens) + lens[x]
  {
    var v := w[x := w[x] + 1];
    if x == 0 {
      assert v[1..] == w[1..];
      MulDistributes(lens[0], w[0], 1);
    } else {
      assert v[1..] == w[1..][x - 1 := w[x] + 1];
      WeightedOneMore(w[1..], lens[1..], x - 1);
    }
  }

  lemma {:induction false} NothingWeighs(n: nat, lens: seq<nat>)
    requires |lens| == n
    ensures WeightedLength(Times(0, n), lens) == 0
  {
    if n > 0 {
      NothingWeighs(n - 1, lens[1..]);
      assert Times(0, n)[1..] == Times(0, n - 1);
    }
  }

  /** The bits of the codes, symbol by symbol. */
  lemma {:induction false} CostBySymbol(lit: seq<nat>, dist: seq<nat>, codes: seq<LzCode>)
    requires |lit| == 288 && |dist| == 32 && AllValid(codes)
    ensures Cost(lit, dist, codes)
      == WeightedLength(LitCounts(codes), lit) + WeightedLength(DistCounts(codes), dist) + AllExtras(codes)
    decreases |codes|
  {
    hide WeightedLength, LitSym, DistSym, Extras, Times;
    if codes == [] {
      NothingWeighs(288, lit);
      NothingWeighs(32, dist);
    } else {
      var n := |codes| - 1;
      var c := codes[n];
      CostBySymbol(lit, dist, codes[..n]);
      WeightedOneMore(LitCounts(codes[..n]), lit, LitSym(c));
      if c.Match? { WeightedOneMore(DistCounts(codes[..n]), dist, DistSym(c.dist - 1)); }
    }
  }

  ghost function Matches(codes: seq<LzCode>): nat {
    if codes == [] then 0 else Matches(codes[..|codes| - 1]) + if codes[|codes| - 1].Match? then 1 else 0
  }

  lemma {:induction false} CountsSum(codes: seq<LzCode>)
    requires AllValid(codes)
    ensures Sum(LitCounts(codes)) == |codes| && Sum(DistCounts(codes)) == Matches(codes)
    ensures LitCounts(codes)[256] == 0
    decreases |codes|
  {
    hide Sum, LitSym, DistSym, Times;
    if codes == [] {
      SumNone(288);
      SumNone(32);
    } else {
      var n := |codes| - 1;
      var c := codes[n];
      CountsSum(codes[..n]);
      var r, x := LitCounts(codes[..n]), LitSym(c);
      SumUpdate(r, x, r[x] + 1);
      if c.Match? {
        var s, y := DistCounts(codes[..n]), DistSym(c.dist - 1);
        SumUpdate(s, y, s[y] + 1);
      }
    }
  }

  lemma {:induction false} SumNone(n: nat)
    ensures Sum(Times(0, n)) == 0
  {
    if n > 0 {
      SumNone(n - 1);
      assert Times(0, n)[1..] == Times(0, n - 1);
    }
  }

  // ---- The fixed tables.

  lemma FixedSizes(x: nat)
    requires x < 288
    ensures |FIXED_LIT| == 288 && 7 <= FIXED_LIT[x] <= 9 && (256 <= x ==> FIXED_LIT[x] <= 8)
      && (x == 256 ==> FIXED_LIT[x] == 7)
    ensures |FIXED_DIST| == 32 && (x < 32 ==> FIXED_DIST[x] == 5)
  {
  }

  /** A literal takes nine eighths of a byte in the buffer and at most nine bits; a match takes
      25 eighths and at most 31 bits. */
  lemma FixedCost(c: LzCode)
    requires c.Valid()
    ensures |FIXED_LIT| == 288 && |FIXED_DIST| == 32
    ensures 25 * (8 * CodeCost(FIXED_LIT, FIXED_DIST, c) + 8 + if c.Match? then 1 else 0)
      <= 257 * (8 * |CodeBytes(c)| + 1)
  {
    hide LenSym, DistSym, LenExtra, DistExtra;
    FixedSizes(LitSym(c));
    if c.Match? { FixedSizes(DistSym(c.dist - 1)); }
  }

  lemma {:induction false} FixedCosts(codes: seq<LzCode>)
    requires AllValid(codes)
    ensures |FIXED_LIT| == 288 && |FIXED_DIST| == 32
    ensures 25 * (8 * Cost(FIXED_LIT, FIXED_DIST, codes) + 8 * |codes| + Matches(codes)) <= 257 * Load(codes)
    decreases |codes|
  {
    hide CodeCost, CodeBytes, Bytes;
    FixedSizes(0);
    if codes == [] {
    } else {
      var n := |codes| - 1;
      FixedCosts(codes[..n]);
      FixedCost(codes[n]);
      assert codes == codes[..n] + [codes[n]];
      BytesNext(codes[..n], codes[n]);
    }
  }

  lemma {:induction false} TimesRoom(x: nat, n: nat, m: nat)
    requires x <= m
    ensures Bounded(Times(x, n), m) && KraftSum(Times(x, n), m) == n * Pow2(m - x)
  {
    hide Pow2;
    if n > 0 {
      TimesRoom(x, n - 1, m);
      assert Times(x, n)[1..] == Times(x, n - 1);
    }
  }

  lemma FixedRoom()
    ensures Bounded(FIXED_LIT, 9) && KraftSum(FIXED_LIT, 9) == Pow2(9)
    ensures Bounded(FIXED_DIST, 5) && KraftSum(FIXED_DIST, 5) == Pow2(5)
  {
    hide KraftSum, Times, Bounded;
    var a, b, c, d := Times(8, 144), Times(9, 112), Times(7, 24), Times(8, 8);
    TimesRoom(8, 144, 9);
    TimesRoom(9, 112, 9);
    TimesRoom(7, 24, 9);
    TimesRoom(8, 8, 9);
    TimesRoom(5, 32, 5);
    KraftConcat(a, b, 9);
    KraftConcat(a + b, c, 9);
    KraftConcat(a + b + c, d, 9);
    SmallPowers();
  }

  lemma SmallPowers()
    ensures Pow2(0) == 1 && Pow2(1) == 2 && Pow2(2) == 4 && Pow2(5) == 32 && Pow2(9) == 512
  {
    assert Pow2(3) == 8 && Pow2(6) == 64;
  }

  /** The symbols that occur take no more room than all. */
  lemma {:induction false} UsedRoom(counts: seq<nat>, sizes: seq<nat>, m: nat, k: nat)
    requires k <= |counts| == |sizes| && Bounded(sizes, m)
    ensures InTable(UsedList(counts, k), |sizes|) && Bounded(LengthsIn(UsedList(counts, k), sizes), m)
    ensures KraftSum(LengthsIn(UsedList(counts, k), sizes), m) <= KraftSum(sizes[..k], m)
  {
    hide KraftSum, Pow2;
    UsedListed(counts, k);
    if k == 0 {
      assert LengthsIn([], sizes) == sizes[..0];
    } else {
      UsedRoom(counts, sizes, m, k - 1);
      var s := UsedList(counts, k - 1);
      assert sizes[..k] == sizes[..k - 1] + [sizes[k - 1]];
      KraftConcat(sizes[..k - 1], [sizes[k - 1]], m);
      if counts[k - 1] > 0 {
        assert LengthsIn(UsedList(counts, k), sizes) == LengthsIn(s, sizes) + [sizes[k - 1]];
        KraftConcat(LengthsIn(s, sizes), [sizes[k - 1]], m);
      } else {
        assert UsedList(counts, k) == s;
      }
    }
  }

  lemma FixedFeasible(counts: seq<nat>, sizes: seq<nat>, m: nat)
    requires |counts| == |sizes| && Bounded(sizes, m) && KraftSum(sizes, m) == Pow2(m)
    ensures Feasible(counts, sizes, m)
  {
    hide KraftSum, Pow2, UsedList;
    UsedRoom(counts, sizes, m, |counts|);
    assert sizes[..|counts|] == sizes;
  }

  // ---- The block's own tables.

  lemma NearlyAt(counts: seq<nat>, sizes: seq<nat>, over: nat, per: nat, other: seq<nat>, m: nat)
    requires NearlyShortest(counts, sizes, over, per) && Feasible(counts, other, m)
    ensures per * (WeightedLength(counts, sizes) - WeightedLength(counts, other)) <= over * Sum(counts)
  {
    hide WeightedLength, Sum, Feasible;
  }

  lemma UsedFew(counts: seq<nat>)
    ensures |UsedList(counts, |counts|)| <= |counts|
  {
    UsedListed(counts, |counts|);
  }

  lemma {:induction false} NoLonger(w: seq<nat>, a: seq<nat>, b: seq<nat>)
    requires |w| == |a| == |b| && forall x :: 0 <= x < |a| ==> a[x] <= b[x]
    ensures WeightedLength(w, a) <= WeightedLength(w, b)
  {
    hide WeightedLength, Sum;
    LimitCost.CostAtMost(w, a, b, 0, 0);
  }

  /** At most one bit for each symbol worse than the fixed lengths. */
  lemma LitCheap(counts: seq<nat>, sizes: seq<nat>)
    requires |counts| == 288 && TableFor(counts, 15, sizes)
    ensures |FIXED_LIT| == 288 && WeightedLength(counts, sizes) <= WeightedLength(counts, FIXED_LIT) + Sum(counts)
  {
    hide WeightedLength, Sum, UsedList, Feasible, NearlyShortest, Pow2, Fib, Accepted, Complete, Shortest, KraftSum;
    FixedSizes(0);
    UsedFew(counts);
    if |UsedList(counts, |counts|)| >= 2 {
      FixedRoom();
      FixedFeasible(counts, FIXED_LIT, 9);
      SmallPowers();
      assert NearlyShortest(counts, sizes, 8, Fib(3));
      NearlyAt(counts, sizes, 8, Fib(3), FIXED_LIT, 9);
      FibTable();
      SmallFib();
    } else {
      forall x | 0 <= x < 288 ensures sizes[x] <= FIXED_LIT[x] { FixedSizes(x); }
      NoLonger(counts, sizes, FIXED_LIT);
    }
  }

  lemma SmallFib()
    ensures Fib(3) == 8 && Fib(7) == 55
  {
    assert Fib(5) == 21;
  }

  /** At most an eighth of a bit for each symbol worse than the fixed lengths. */
  lemma DistCheap(counts: seq<nat>, sizes: seq<nat>)
    requires |counts| == 32 && TableFor(counts, 15, sizes)
    ensures |FIXED_DIST| == 32
      && 8 * WeightedLength(counts, sizes) <= 8 * WeightedLength(counts, FIXED_DIST) + Sum(counts)
  {
    hide WeightedLength, Sum, UsedList, Feasible, NearlyShortest, Pow2, Fib, Accepted, Complete, Shortest, KraftSum;
    FixedSizes(0);
    UsedFew(counts);
    if |UsedList(counts, |counts|)| >= 2 {
      FixedRoom();
      FixedFeasible(counts, FIXED_DIST, 5);
      SmallPowers();
      assert NearlyShortest(counts, sizes, 4, Fib(7));
      NearlyAt(counts, sizes, 4, Fib(7), FIXED_DIST, 5);
      SmallFib();
    } else {
      forall x | 0 <= x < 32 ensures sizes[x] <= FIXED_DIST[x] { FixedSizes(x); }
      NoLonger(counts, sizes, FIXED_DIST);
    }
  }

  // ---- Blocks.

  ghost predicate Short(bits: seq<bool>) {
    |bits| <= BLOCK_MAX
  }

  /** Tables that were made for the symbols of these codes and the end of the block. */
  ghost predicate MadeFor(t: Tables, codes: seq<LzCode>) {
    && t.Valid() && |t.lit| <= 288 && |t.dist| <= 32 && AllValid(codes)
    && TableFor(LitCounts(codes)[256 := 1], 15, Padded(t.lit, 288))
      && TableFor(DistCounts(codes), 15, Padded(t.dist, 32))
    && forall i :: 0 <= i < 19 ==> t.cl[i] <= 7
  }

  lemma BodyShort(t: Tables, codes: seq<LzCode>)
    requires MadeFor(t, codes) && AllCoded(t.lit, t.dist, codes) && Buffered(codes)
    ensures |Body(t.lit, t.dist, codes)| <= 673718
  {
    hide WeightedLength, Sum, Padded, TableFor, Cost, AllCoded, Load, CodesBits, Accepted, WellFormed, CodedPackets,
      Unpack;
    var lit, dist := Padded(t.lit, 288), Padded(t.dist, 32);
    var r := LitCounts(codes);
    CostIsLength(t.lit, t.dist, codes);
    CostBySymbol(lit, dist, codes);
    CostBySymbol(FIXED_LIT, FIXED_DIST, codes);
    CountsSum(codes);
    LitCheap(r[256 := 1], lit);
    DistCheap(DistCounts(codes), dist);
    WeightedOneMore(r, lit, 256);
    WeightedOneMore(r, FIXED_LIT, 256);
    SumUpdate(r, 256, 1);
    FixedSizes(256);
    FixedCosts(codes);
  }

  lemma FixedShort(bits: seq<bool>, codes: seq<LzCode>)
    requires FixedBits(bits, codes) && Buffered(codes)
    ensures Short(bits)
  {
    hide Cost, AllCoded, Load, CodesBits, LsbBits;
    CostIsLength(FIXED_LIT, FIXED_DIST, codes);
    FixedSizes(256);
    assert Padded(FIXED_LIT, 288) == FIXED_LIT && Padded(FIXED_DIST, 32) == FIXED_DIST;
    FixedCosts(codes);
  }

  lemma {:induction false} PacketsShort(cl: seq<nat>, ps: seq<Packet>)
    requires CodedPackets(cl, ps) && forall i :: 0 <= i < 19 ==> cl[i] <= 7
    ensures |PacketsBits(cl, ps)| <= 14 * |ps|
  {
    hide Word, LsbBits;
    if ps != [] {
      assert CodedPacket(cl, ps[0]);
      PacketsShort(cl, ps[1..]);
    }
  }

  lemma {:induction false} PacketsFew(ps: seq<Packet>)
    requires WellFormed(ps)
    ensures |ps| <= |Unpack(ps)|
    decreases |ps|
  {
    if ps != [] {
      var n := |ps| - 1;
      assert WellFormed(ps[..n]) by {
        forall i | 0 <= i < n ensures ps[..n][i].Valid() && (ps[..n][i].code == 16 ==> Unpack(ps[..n][..i]) != []) {
          assert ps[..n][..i] == ps[..i];
        }
      }
      PacketsFew(ps[..n]);
      assert ps[n].code == 16 ==> Unpack(ps[..n]) != [];
    }
  }

  lemma {:induction false} ClShort(cl: seq<nat>, i: nat, n: nat)
    requires |cl| == 19 && i <= n <= 19
    ensures |ClBits(cl, i, n)| == 3 * (n - i)
    decreases n - i
  {
    hide LsbBits;
    if i < n { ClShort(cl, i + 1, n); }
  }

  /** A block with its own tables is short enough: the source's fallback for one that does not
      fit is never needed. */
  lemma DynamicShort(t: Tables, bits: seq<bool>, codes: seq<LzCode>)
    requires TableBits(t, bits, codes) && MadeFor(t, codes) && Buffered(codes)
    ensures Short(bits)
  {
    hide LsbBits, AllCoded, WellFormed, Unpack, CodedPackets, Accepted, PacketsBits, ClBits, Body, TableFor, Padded,
      Buffered;
    BodyShort(t, codes);
    ClShort(t.cl, 0, t.numCl);
    PacketsShort(t.cl, t.packets);
    PacketsFew(t.packets);
  }

  lemma StoredShort(at: nat, bytes: seq<Byte>)
    requires |bytes| <= 0xFFFF
    ensures Short(StoredBits(at, bytes))
  {
    hide LsbBits, BitsOf, Pad;
  }
}
