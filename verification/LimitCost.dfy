/** What limiting code lengths costs: at most a fixed fraction of a bit for each symbol sent. */
module LimitCost {
  import opened Kraft
  import opened MergeLevels
  import opened MinimumRedundancy
  import opened LengthLimit
  import opened Canonical
  import opened LightPrefix

  /** `c[len]` counts the lengths `len`, up to `top`. */
  ghost predicate CountsUpTo(lens: seq<nat>, c: seq<int>, top: nat) {
    top < |c| && forall len :: 1 <= len <= top ==> c[len] == Count(lens, len)
  }

  lemma CountsDrop(lens: seq<nat>, c: seq<int>, top: nat)
    requires lens != [] && lens[|lens| - 1] >= 1 && CountsUpTo(lens, c, top)
    ensures var n, x := |lens| - 1, lens[|lens| - 1];
      top < |c| && CountsUpTo(lens[..n], if x <= top then c[x := c[x] - 1] else c, top)
  {
    hide Count;
    var n, x := |lens| - 1, lens[|lens| - 1];
    forall len: nat ensures Count(lens, len) == Count(lens[..n], len) + (if x == len then 1 else 0) {
      CountLast(lens, len);
    }
  }

  /** In lengths that fall, those up to `j` are the last ones; their number and room are counted. */
  lemma {:induction false} LastOnes(lens: seq<nat>, c: seq<int>, m: nat, j: nat)
    requires Falling(lens, m) && CountsUpTo(lens, c, j) && j <= m
    ensures 0 <= Codes(c, j) <= |lens|
    ensures forall k :: 0 <= k < |lens| ==> (lens[k] <= j <==> k >= |lens| - Codes(c, j))
    ensures Bounded(lens[|lens| - Codes(c, j)..], m) && KraftSum(lens[|lens| - Codes(c, j)..], m) == Fill(c, m, j)
    decreases |lens|
  {
    hide Count, Codes, Fill, KraftSum, Pow2, CountsUpTo;
    if lens == [] {
      NoneCounted(c, m, j);
      assert KraftSum([], m) == 0 by { KraftNone(m); }
    } else {
      var n := |lens| - 1;
      var x := lens[n];
      CountsDrop(lens, c, j);
      if x <= j {
        var e := c[x := c[x] - 1];
        LastOnes(lens[..n], e, m, j);
        CodesUpdate(c, x, c[x] - 1, j);
        FillUpdate(c, m, x, c[x] - 1, j);
        AddLast(lens, c, m, j, e);
      } else {
        LastOnes(lens[..n], c, m, j);
        assert n > 0 ==> lens[..n][n - 1] > j;
        assert lens[..n][n - Codes(c, j)..] == [] && lens[|lens| - Codes(c, j)..] == [];
      }
    }
  }

  lemma AddLast(lens: seq<nat>, c: seq<int>, m: nat, j: nat, e: seq<int>)
    requires lens != [] && Bounded(lens, m) && lens[|lens| - 1] <= j < |c| == |e| && j <= m
    requires 0 <= Codes(e, j) <= |lens| - 1 && Codes(c, j) == Codes(e, j) + 1
    requires Fill(e, m, j) == Fill(c, m, j) - 1 * Pow2(m - lens[|lens| - 1])
    requires var t := lens[..|lens| - 1][|lens| - 1 - Codes(e, j)..]; Bounded(t, m) && KraftSum(t, m) == Fill(e, m, j)
    ensures var t := lens[|lens| - Codes(c, j)..]; Bounded(t, m) && KraftSum(t, m) == Fill(c, m, j)
  {
    hide Codes, Fill, KraftSum, Pow2;
    var n := |lens| - 1;
    var t := lens[..n][n - Codes(e, j)..];
    assert lens[|lens| - Codes(c, j)..] == t + [lens[n]];
    KraftConcat(t, [lens[n]], m);
    KraftOne(lens[n], m);
  }

  lemma {:induction false} NoneCounted(c: seq<int>, m: nat, j: nat)
    requires CountsUpTo([], c, j) && j <= m
    ensures Codes(c, j) == 0 && Fill(c, m, j) == 0
  {
    if j > 0 {
      NoneCounted(c, m, j - 1);
      assert Count([], j) == 0;
    }
  }

  // ---- Limited lengths beside the lengths they come from.

  ghost predicate AtMost(a: seq<nat>, b: seq<nat>, q: nat, more: nat) {
    |a| == |b| && forall k :: 0 <= k < |a| ==> a[k] <= b[k] + if k < q then more else 0
  }

  lemma {:induction false} CostAtMost(w: seq<nat>, a: seq<nat>, b: seq<nat>, q: nat, more: nat)
    requires |w| == |a| && AtMost(a, b, q, more) && q <= |w|
    ensures WeightedLength(w, a) <= WeightedLength(w, b) + more * Sum(w[..q])
    decreases |w|
  {
    if w != [] {
      var q' := if q == 0 then 0 else q - 1;
      CostAtMost(w[1..], a[1..], b[1..], q', more);
      MulOrder(w[0], a[0], b[0] + if q > 0 then more else 0);
      MulDistributes(w[0], b[0], if q > 0 then more else 0);
      if q > 0 {
        assert w[..q][1..] == w[1..][..q'];
        MulDistributes(more, w[0], Sum(w[1..][..q']));
      } else {
        assert w[..0] == [] && w[1..][..0] == [];
      }
    }
  }

  /** The original lengths `lens` with counts `was`, and limited ones with counts `c`. */
  ghost predicate Limited(lens: seq<nat>, lim: seq<nat>, was: seq<int>, c: seq<int>, max: nat, d: nat) {
    && |lens| == |lim| && Falling(lens, 32) && Falling(lim, max) && CountsUpTo(lens, was, 32) && CountsUpTo(lim, c, max)
    && Kept(was, c, max, |lens|, d)
  }

  lemma {:induction false} SameCodes(was: seq<int>, c: seq<int>, d: nat, j: nat)
    requires |was| == |c| && j < d <= |c| && forall i :: 0 <= i < d ==> c[i] == was[i]
    ensures Codes(c, j) == Codes(was, j)
    decreases j
  {
    if j > 0 { SameCodes(was, c, d, j - 1); }
  }

  lemma {:induction false} SameFill(was: seq<int>, c: seq<int>, m: nat, d: nat, j: nat)
    requires |was| == |c| && j < d <= |c| && j <= m && forall i :: 0 <= i < d ==> c[i] == was[i]
    ensures Fill(c, m, j) == Fill(was, m, j)
    decreases j
  {
    if j > 0 { SameFill(was, c, m, d, j - 1); }
  }

  /** Below `d` both have the same lengths at the same places. */
  lemma SameBelow(lens: seq<nat>, lim: seq<nat>, was: seq<int>, c: seq<int>, max: nat, d: nat, j: nat, k: nat)
    requires Limited(lens, lim, was, c, max, d) && j < d && k < |lens|
    ensures lens[k] <= j <==> lim[k] <= j
  {
    hide Count, Codes, Fill, KraftSum, Falling, Pow2;
    LastOnes(lens, was, 32, j);
    LastOnes(lim, c, max, j);
    SameCodes(was, c, d, j);
  }

  lemma CodesDown(was: seq<int>, c: seq<int>, max: nat, d: nat, n: int)
    requires Kept(was, c, max, n, d) && d < max
    ensures Codes(c, d) < Codes(was, d) && Fill(c, max, d) + Pow2(max - d) <= Fill(was, max, d)
  {
    hide Pow2;
    SameCodes(was, c, d, d - 1);
    SameFill(was, c, max, d, d - 1);
    MulOrder(Pow2(max - d), c[d] + 1, was[d]);
    MulDistributes(Pow2(max - d), c[d], 1);
  }

  /** All but the lightest symbols keep their lengths; the lightest are at `d` or longer. */
  lemma LimitedAt(lens: seq<nat>, lim: seq<nat>, was: seq<int>, c: seq<int>, max: nat, d: nat)
    requires Limited(lens, lim, was, c, max, d)
    ensures d == max ==> AtMost(lim, lens, 0, 0)
    ensures d < max ==> 0 <= Codes(c, d) <= |lens| && AtMost(lim, lens, |lens| - Codes(c, d), max - d)
    ensures d < max ==> lens[|lens| - Codes(c, d)..] == lim[|lens| - Codes(c, d)..]
  {
    hide Count, Codes, Fill, KraftSum, Pow2;
    if d < max {
      LastOnes(lim, c, max, d);
      LastOnes(lens, was, 32, d);
      CodesDown(was, c, max, d, |lens|);
    }
    forall k | 0 <= k < |lens| ensures lim[k] < d || lens[k] < d ==> lim[k] == lens[k] {
      SameAt(lens, lim, was, c, max, d, k);
    }
  }

  lemma SameAt(lens: seq<nat>, lim: seq<nat>, was: seq<int>, c: seq<int>, max: nat, d: nat, k: nat)
    requires Limited(lens, lim, was, c, max, d) && k < |lens|
    ensures lim[k] < d || lens[k] < d ==> lim[k] == lens[k]
  {
    hide Count, Codes, Fill, KraftSum, Pow2, Kept, CountsUpTo;
    if lim[k] < d {
      SameBelow(lens, lim, was, c, max, d, lim[k], k);
      SameBelow(lens, lim, was, c, max, d, lim[k] - 1, k);
    } else if lens[k] < d {
      SameBelow(lens, lim, was, c, max, d, lens[k], k);
    }
  }

  // ---- How many symbols are touched, and how much room they had.

  /** More symbols are at the end than two to the number of bits added. */
  lemma ManyTouched(lens: seq<nat>, lim: seq<nat>, was: seq<int>, c: seq<int>, max: nat, d: nat)
    requires Limited(lens, lim, was, c, max, d) && d < max && Whole(lens, 32) && lens != [] && lens[0] > d
    ensures Pow2(max - d) < |lens| - Codes(c, d) - 1
  {
    hide Count, Codes, Fill, KraftSum, Pow2, Falling, CountsUpTo;
    CodesDown(was, c, max, d, |lens|);
    UpToLess(lens, was, 32, d);
    LastOnes(lens, was, 32, d);
    var q := |lens| - Codes(was, d);
    ShareSplit(lens, 32, q);
    ShareEnds(lens, 32);
    ShareGrows(lens, 32, 0, q);
    FillRescale(was, d, 32, d);
    FillRescale(was, d, max, d);
    Pow2Add(32 - d, d);
    Pow2Add(max - d, d);
    Room(Fill(was, d, d), Pow2(d), Pow2(32 - d), Pow2(max - d));
  }

  lemma Room(x: int, whole: int, p: nat, r: nat)
    requires p * x < p * whole && r >= 1
    ensures r * x + r <= r * whole
  {
    if x >= whole { MulOrder(p, whole, x); }
    MulOrder(r, x + 1, whole);
    MulDistributes(r, x, 1);
  }

  /** The touched symbols had little room. */
  lemma LittleRoom(lens: seq<nat>, lim: seq<nat>, was: seq<int>, c: seq<int>, max: nat, d: nat)
    requires Limited(lens, lim, was, c, max, d) && d < max && Whole(lens, 32)
    ensures 0 <= Codes(c, d) <= |lens|
    ensures Share(lens, 32, |lens| - Codes(c, d)) < Pow2(32 - max) * (Pow2(max - d) + |lens| - Codes(c, d) - 1)
  {
    hide Count, Codes, Fill, KraftSum, Pow2, Falling, CountsUpTo, Share;
    LimitedAt(lens, lim, was, c, max, d);
    var q := |lens| - Codes(c, d);
    FallingTo(lim, max);
    UpToLess(lim, c, max, d);
    LastOnes(lim, c, 32, d);
    ShareSplit(lens, 32, q);
    FillRescale(c, max, 32, d);
    Pow2Add(32 - max, max);
    var p := Pow2(32 - max);
    MulOrder(p, Pow2(max) + 1, Fill(c, max, d) + (Pow2(max - d) + q - 1));
    MulDistributes(p, Pow2(max), 1);
    MulDistributes(p, Fill(c, max, d), Pow2(max - d) + q - 1);
  }

  lemma FallingTo(lens: seq<nat>, max: nat)
    requires Falling(lens, max) && max <= 32
    ensures Falling(lens, 32)
  {
  }

  lemma UpToLess(lens: seq<nat>, c: seq<int>, top: nat, j: nat)
    requires CountsUpTo(lens, c, top) && j <= top
    ensures CountsUpTo(lens, c, j)
  {
  }

  lemma {:induction false} Pow2Less(a: nat, b: nat)
    requires Pow2(a) < Pow2(b)
    ensures a < b
  {
    if a >= b { Pow2Mono(b, a); }
  }

  /** With at most two to the `b` symbols, fewer than `b` bits are added, and the touched symbols
      had at most two to the minus (max - b - 1) of the room. */
  lemma Touched(lens: seq<nat>, lim: seq<nat>, was: seq<int>, c: seq<int>, max: nat, d: nat, b: nat)
    requires Limited(lens, lim, was, c, max, d) && d < max && Whole(lens, 32) && lens != [] && lens[0] > d
    requires |lens| <= Pow2(b) && b + 1 <= max
    ensures 0 <= Codes(c, d) <= |lens| && max - d < b
    ensures Share(lens, 32, |lens| - Codes(c, d)) <= Pow2(32 - (max - b - 1))
  {
    hide Limited, Codes, Fill, KraftSum, Pow2, Falling, CountsUpTo, Share, Whole;
    LimitedMax(lens, lim, was, c, max, d);
    ManyTouched(lens, lim, was, c, max, d);
    LittleRoom(lens, lim, was, c, max, d);
    var q := |lens| - Codes(c, d);
    Pow2Less(max - d, b);
    Pow2Add(32 - max, b + 1);
    Pow2Half(b + 1);
    MulOrder(Pow2(32 - max), Pow2(max - d) + q - 1, Pow2(b + 1));
  }

  lemma LimitedMax(lens: seq<nat>, lim: seq<nat>, was: seq<int>, c: seq<int>, max: nat, d: nat)
    requires Limited(lens, lim, was, c, max, d)
    ensures max < 32 && |was| == |c| == 33 && Bounded(lens, 32)
  {
  }

  /** Limiting to `max` bits a code of at most two to the `b` symbols that had longer words costs
      at most (b - 1) / Fib(max - b - 3) bits for each symbol sent. */
  lemma CostOfLimit(w: seq<nat>, lens: seq<nat>, lim: seq<nat>, was: seq<int>, c: seq<int>, max: nat, d: nat, b: nat)
    requires Limited(lens, lim, was, c, max, d) && Whole(lens, 32) && |w| == |lens| && Optimal(w, lens) && lens != []
      && lens[0] > max
    requires |lens| <= Pow2(b) && 1 <= b && b + 3 <= max
    ensures Fib(max - b - 3) * (WeightedLength(w, lim) - WeightedLength(w, lens)) <= (b - 1) * Sum(w)
  {
    hide Codes, Fill, KraftSum, Pow2, Falling, CountsUpTo, Share, Optimal, Sum, WeightedLength, Fib, AtMost, Kept;
    LimitedMax(lens, lim, was, c, max, d);
    LimitedAt(lens, lim, was, c, max, d);
    var f := Fib(max - b - 3);
    var extra := WeightedLength(w, lim) - WeightedLength(w, lens);
    if d < max {
      var q := |lens| - Codes(c, d);
      CostAtMost(w, lim, lens, q, max - d);
      Touched(lens, lim, was, c, max, d, b);
      Light(w, lens, 32, max - b - 1, q);
      Spread(extra, max - d, b - 1, Sum(w[..q]), f, Sum(w));
    } else {
      assert d == max by { KeptTop(was, c, max, |lens|, d); }
      CostAtMost(w, lim, lens, 0, 0);
      MulOrder(f, extra, 0);
      MulOrder(b - 1, 0, Sum(w));
    }
  }

  lemma KeptTop(was: seq<int>, c: seq<int>, max: nat, n: int, d: nat)
    requires Kept(was, c, max, n, d)
    ensures d <= max
  {
  }

  lemma Spread(extra: int, bits: nat, most: nat, part: nat, f: nat, total: nat)
    requires extra <= bits * part && bits <= most && f * part <= total
    ensures f * extra <= most * total
  {
    MulOrder(part, bits, most);
    MulOrder(f, extra, most * part);
    MulOrder(most, f * part, total);
    assert f * (most * part) == most * (f * part);
  }
}
