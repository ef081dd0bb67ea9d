/** Powers of two, Kraft sums and weighted code lengths. */
module Kraft {

  function Pow2(n: nat): (p: nat)
    ensures p >= 1
  {
    if n == 0 then 1 else 2 * Pow2(n - 1)
  }

  lemma MulDistributes(a: int, b: int, c: int)
    ensures a * (b + c) == a * b + a * c
  {
  }

  lemma MulOrder(a: nat, b: int, c: int)
    requires b <= c
    ensures a * b <= a * c
  {
  }

  lemma Pow2Zero()
    ensures Pow2(0) == 1
  {
  }

  lemma Pow2Half(n: nat)
    requires n > 0
    ensures Pow2(n) == 2 * Pow2(n - 1)
  {
  }

  lemma {:induction false} Pow2Add(a: nat, b: nat)
    ensures Pow2(a + b) == Pow2(a) * Pow2(b)
  {
    if a == 0 {
    } else {
      Pow2Add(a - 1, b);
      assert Pow2(a + b) == 2 * Pow2(a - 1 + b);
    }
  }

  lemma {:induction false} Pow2Mono(a: nat, b: nat)
    requires a <= b
    ensures Pow2(a) <= Pow2(b)
  {
    if a < b {
      Pow2Mono(a, b - 1);
    }
  }

  /** Every length is at most `m`. */
  ghost predicate Bounded(lens: seq<nat>, m: nat) {
    forall i :: 0 <= i < |lens| ==> lens[i] <= m
  }

  /** The Kraft sum of `lens`, scaled by two to the `m`: a code of these lengths
      exists exactly when this is at most `Pow2(m)`. */
  ghost function KraftSum(lens: seq<nat>, m: nat): nat
    requires Bounded(lens, m)
  {
    if lens == [] then 0 else Pow2(m - lens[0]) + KraftSum(lens[1..], m)
  }

  lemma KraftNone(m: nat)
    ensures KraftSum([], m) == 0
  {
  }

  lemma KraftOne(x: nat, m: nat)
    requires x <= m
    ensures KraftSum([x], m) == Pow2(m - x)
  {
    hide Pow2;
    assert [x][1..] == [];
  }

  /** Total length of the coded text when symbol `i` occurs `w[i]` times. */
  ghost function WeightedLength(w: seq<nat>, lens: seq<nat>): nat
    requires |w| == |lens|
  {
    if w == [] then 0 else w[0] * lens[0] + WeightedLength(w[1..], lens[1..])
  }

  ghost function Sum(s: seq<nat>): nat {
    if s == [] then 0 else s[0] + Sum(s[1..])
  }

  lemma {:induction false} SumConcat(a: seq<nat>, b: seq<nat>)
    ensures Sum(a + b) == Sum(a) + Sum(b)
  {
    if a == [] {
      assert a + b == b;
    } else {
      assert (a + b)[1..] == a[1..] + b;
      SumConcat(a[1..], b);
    }
  }

  lemma {:induction false} SumUpdate(s: seq<nat>, i: nat, v: nat)
    requires i < |s|
    ensures Sum(s[i := v]) + s[i] == Sum(s) + v
  {
    if i > 0 {
      assert s[i := v][1..] == s[1..][i - 1 := v];
      SumUpdate(s[1..], i - 1, v);
    } else {
      assert s[0 := v][1..] == s[1..];
    }
  }

  lemma {:induction false} KraftConcat(a: seq<nat>, b: seq<nat>, m: nat)
    requires Bounded(a, m) && Bounded(b, m)
    ensures Bounded(a + b, m)
    ensures KraftSum(a + b, m) == KraftSum(a, m) + KraftSum(b, m)
  {
    if a == [] {
      assert a + b == b;
    } else {
      assert (a + b)[1..] == a[1..] + b;
      KraftConcat(a[1..], b, m);
    }
  }

  lemma {:induction false} WeightedConcat(w: seq<nat>, x: seq<nat>, a: seq<nat>, b: seq<nat>)
    requires |w| == |a| && |x| == |b|
    ensures WeightedLength(w + x, a + b) == WeightedLength(w, a) + WeightedLength(x, b)
  {
    if w == [] {
      assert w + x == x && a + b == b;
    } else {
      assert (w + x)[1..] == w[1..] + x && (a + b)[1..] == a[1..] + b;
      WeightedConcat(w[1..], x, a[1..], b);
    }
  }

  lemma {:induction false} KraftUpdate(lens: seq<nat>, m: nat, i: nat, v: nat)
    requires Bounded(lens, m) && i < |lens| && v <= m
    ensures Bounded(lens[i := v], m)
    ensures KraftSum(lens[i := v], m) + Pow2(m - lens[i]) == KraftSum(lens, m) + Pow2(m - v)
  {
    if i > 0 {
      assert lens[i := v][1..] == lens[1..][i - 1 := v];
      KraftUpdate(lens[1..], m, i - 1, v);
    } else {
      assert lens[0 := v][1..] == lens[1..];
    }
  }

  lemma {:induction false} WeightedUpdate(w: seq<nat>, lens: seq<nat>, i: nat, v: nat)
    requires |w| == |lens| && i < |lens|
    ensures WeightedLength(w, lens[i := v]) + w[i] * lens[i] == WeightedLength(w, lens) + w[i] * v
  {
    if i > 0 {
      assert lens[i := v][1..] == lens[1..][i - 1 := v];
      WeightedUpdate(w[1..], lens[1..], i - 1, v);
    } else {
      assert lens[0 := v][1..] == lens[1..];
    }
  }

  /** Lengths of at most `k` give a Kraft sum that is a multiple of `Pow2(m - k)`. */
  lemma {:induction false} KraftMultiple(lens: seq<nat>, m: nat, k: nat) returns (c: nat)
    requires k <= m && Bounded(lens, k)
    ensures Bounded(lens, m) && KraftSum(lens, m) == Pow2(m - k) * c
  {
    if lens == [] {
      c := 0;
    } else {
      var d := KraftMultiple(lens[1..], m, k);
      Pow2Add(m - k, k - lens[0]);
      c := Pow2(k - lens[0]) + d;
      MulDistributes(Pow2(m - k), Pow2(k - lens[0]), d);
    }
  }

  /** Kraft sums at two scales differ by the power of two between them. */
  lemma {:induction false} KraftRescale(lens: seq<nat>, m: nat, k: nat)
    requires k <= m && Bounded(lens, k)
    ensures Bounded(lens, m) && KraftSum(lens, m) == Pow2(m - k) * KraftSum(lens, k)
  {
    if lens != [] {
      KraftRescale(lens[1..], m, k);
      Pow2Add(m - k, k - lens[0]);
      MulDistributes(Pow2(m - k), Pow2(k - lens[0]), KraftSum(lens[1..], k));
    }
  }
}

/** The least total length any Kraft-feasible lengths can reach, as repeated
    merging of the two smallest weights, and why nothing does better. */
module MergeBound {
  import opened Kraft

  ghost predicate Ascending(s: seq<nat>) {
    forall i, j :: 0 <= i < j < |s| ==> s[i] <= s[j]
  }

  /** Where `x` goes in an ascending sequence. */
  ghost function Slot(s: seq<nat>, x: nat): (p: nat)
    ensures p <= |s|
    ensures forall i :: 0 <= i < p ==> s[i] < x
    ensures p < |s| ==> x <= s[p]
  {
    if s == [] || x <= s[0] then 0 else 1 + Slot(s[1..], x)
  }

  ghost function Insert(s: seq<nat>, x: nat): (r: seq<nat>)
    ensures |r| == |s| + 1
  {
    var p := Slot(s, x);
    s[..p] + [x] + s[p..]
  }

  lemma InsertAscending(s: seq<nat>, x: nat)
    requires Ascending(s)
    ensures Ascending(Insert(s, x))
  {
  }

  lemma InsertContents(s: seq<nat>, x: nat)
    ensures multiset(Insert(s, x)) == multiset(s) + multiset{x}
  {
    var p := Slot(s, x);
    assert s == s[..p] + s[p..];
  }

  /** Sum of the weights made by merging the two smallest weights until one is left. */
  ghost function MergeCost(w: seq<nat>): nat
    decreases |w|
  {
    if |w| <= 1 then 0 else w[0] + w[1] + MergeCost(Insert(w[2..], w[0] + w[1]))
  }

  ghost function Swap(s: seq<nat>, i: nat, j: nat): (r: seq<nat>)
    requires i < |s| && j < |s|
    ensures |r| == |s|
  {
    s[i := s[j]][j := s[i]]
  }

  lemma CrossTerms(u: nat, v: nat, a: nat, b: nat)
    requires u <= v && a <= b
    ensures u * b + v * a <= u * a + v * b
  {
    assert (v - u) * (b - a) >= 0;
  }

  /** Moving a longer length to a smaller weight never costs more. */
  lemma SwapCheaper(w: seq<nat>, lens: seq<nat>, m: nat, i: nat, j: nat)
    requires |w| == |lens| && Bounded(lens, m)
    requires i < j < |w| && w[i] <= w[j] && lens[i] <= lens[j]
    ensures Bounded(Swap(lens, i, j), m)
    ensures KraftSum(Swap(lens, i, j), m) == KraftSum(lens, m)
    ensures WeightedLength(w, Swap(lens, i, j)) <= WeightedLength(w, lens)
    ensures Sum(Swap(lens, i, j)) == Sum(lens)
  {
    var a := lens[i := lens[j]];
    SumUpdate(lens, i, lens[j]);
    SumUpdate(a, j, lens[i]);
    KraftUpdate(lens, m, i, lens[j]);
    KraftUpdate(a, m, j, lens[i]);
    WeightedUpdate(w, lens, i, lens[j]);
    WeightedUpdate(w, a, j, lens[i]);
    CrossTerms(w[i], w[j], lens[i], lens[j]);
  }

  ghost function MaxAt(lens: seq<nat>, from: nat): (k: nat)
    requires from < |lens|
    ensures from <= k < |lens|
    ensures forall i :: from <= i < |lens| ==> lens[i] <= lens[k]
    decreases |lens| - from
  {
    if from == |lens| - 1 then from
    else
      var k := MaxAt(lens, from + 1);
      if lens[from] >= lens[k] then from else k
  }

  /** Brings the two longest lengths to the two smallest weights. */
  lemma LongestFirst(w: seq<nat>, lens: seq<nat>, m: nat) returns (r: seq<nat>)
    requires |w| == |lens| >= 2 && Bounded(lens, m) && Ascending(w)
    ensures |r| == |lens| && Bounded(r, m)
    ensures KraftSum(r, m) == KraftSum(lens, m)
    ensures WeightedLength(w, r) <= WeightedLength(w, lens)
    ensures Sum(r) == Sum(lens)
    ensures r[0] >= r[1]
    ensures forall i :: 1 <= i < |r| ==> r[i] <= r[1]
  {
    r := lens;
    var k := MaxAt(r, 0);
    if k > 0 {
      SwapCheaper(w, r, m, 0, k);
      r := Swap(r, 0, k);
    }
    assert forall i :: 0 <= i < |r| ==> r[i] <= r[0];
    var j := MaxAt(r, 1);
    if j > 1 {
      SwapCheaper(w, r, m, 1, j);
      r := Swap(r, 1, j);
    }
  }

  /** A lone longest length can be shortened and the lengths stay feasible. */
  lemma ShortenLoneLongest(lens: seq<nat>, m: nat)
    requires |lens| >= 2 && Bounded(lens, m) && KraftSum(lens, m) <= Pow2(m)
    requires forall i :: 1 <= i < |lens| ==> lens[i] < lens[0]
    ensures lens[0] > 0 && Bounded(lens[0 := lens[0] - 1], m)
    ensures KraftSum(lens[0 := lens[0] - 1], m) <= Pow2(m)
  {
    assert lens[1] < lens[0];
    var k := lens[0] - 1;
    var c := KraftMultiple(lens[1..], m, k);
    Pow2Add(m - k, k);
    if c >= Pow2(k) {
      MulOrder(Pow2(m - k), Pow2(k), c);
      assert false;
    }
    MulOrder(Pow2(m - k), c + 1, Pow2(k));
    MulDistributes(Pow2(m - k), c, 1);
    KraftUpdate(lens, m, 0, k);
  }

  lemma MergedPair(u: nat, v: nat, x: nat, a: nat, b: nat, d: nat)
    requires x == u + v && a == b == d + 1
    ensures x * d + u + v == u * a + v * b
  {
  }

  lemma SplitTwo(w: seq<nat>, lens: seq<nat>, m: nat)
    requires |w| == |lens| >= 2 && Bounded(lens, m)
    ensures KraftSum(lens, m) == Pow2(m - lens[0]) + Pow2(m - lens[1]) + KraftSum(lens[2..], m)
    ensures WeightedLength(w, lens) == w[0] * lens[0] + w[1] * lens[1] + WeightedLength(w[2..], lens[2..])
  {
    assert lens[1..][1..] == lens[2..] && w[1..][1..] == w[2..];
  }

  lemma InsertPair(u: seq<nat>, v: seq<nat>, a: seq<nat>, b: seq<nat>, x: nat, d: nat, m: nat)
    requires |u| == |a| && |v| == |b| && Bounded(a, m) && Bounded(b, m) && d <= m
    ensures Bounded(a + [d] + b, m)
    ensures KraftSum(a + [d] + b, m) == KraftSum(a + b, m) + Pow2(m - d)
    ensures WeightedLength(u + [x] + v, a + [d] + b) == WeightedLength(u + v, a + b) + x * d
  {
    hide Pow2, Bounded;
    KraftConcat(a, b, m); KraftConcat(a, [d], m); KraftConcat(a + [d], b, m);
    WeightedConcat(u, v, a, b); WeightedConcat(u, [x], a, [d]); WeightedConcat(u + [x], v, a + [d], b);
  }

  /** The lengths after the first two items become one item of weight `w[0] + w[1]`. */
  ghost function Merged(w: seq<nat>, lens: seq<nat>): (r: seq<nat>)
    requires |w| == |lens| >= 2 && lens[0] > 0
    ensures |r| == |w| - 1
  {
    var p := Slot(w[2..], w[0] + w[1]);
    lens[2..][..p] + [lens[0] - 1] + lens[2..][p..]
  }

  /** Two equal longest lengths can be replaced by their parent. */
  lemma MergeSiblings(w: seq<nat>, lens: seq<nat>, m: nat)
    requires |w| == |lens| >= 2 && Bounded(lens, m)
    requires lens[0] == lens[1] > 0
    ensures Bounded(Merged(w, lens), m)
    ensures KraftSum(Merged(w, lens), m) == KraftSum(lens, m)
    ensures WeightedLength(w, lens) == w[0] + w[1] + WeightedLength(Insert(w[2..], w[0] + w[1]), Merged(w, lens))
  {
    var rest, x, d := lens[2..], w[0] + w[1], lens[0] - 1;
    SplitTwo(w, lens, m);
    var p := Slot(w[2..], x);
    var a, b, u, v := rest[..p], rest[p..], w[2..][..p], w[2..][p..];
    assert rest == a + b && w[2..] == u + v;
    InsertPair(u, v, a, b, x, d, m);
    MergedPair(w[0], w[1], x, lens[0], lens[1], d);
  }

  /** No Kraft-feasible lengths cost less than the merge cost of the weights. */
  lemma {:induction false} NothingBeatsMerging(w: seq<nat>, lens: seq<nat>, m: nat)
    requires |w| == |lens| && Ascending(w) && Bounded(lens, m)
    requires KraftSum(lens, m) <= Pow2(m)
    ensures MergeCost(w) <= WeightedLength(w, lens)
    decreases |w|, Sum(lens)
  {
    hide KraftSum, WeightedLength, Sum, Pow2, Insert, Merged, Slot;
    if |w| >= 2 {
      var r := LongestFirst(w, lens, m);
      if r[0] > r[1] {
        ShortenLoneLongest(r, m);
        var s := r[0 := r[0] - 1];
        WeightedUpdate(w, r, 0, r[0] - 1);
        MulOrder(w[0], r[0] - 1, r[0]);
        SumUpdate(r, 0, r[0] - 1);
        NothingBeatsMerging(w, s, m);
      } else {
        assert r[0] > 0 by { SplitTwo(w, r, m); }
        MergeSiblings(w, r, m);
        InsertAscending(w[2..], w[0] + w[1]);
        NothingBeatsMerging(Insert(w[2..], w[0] + w[1]), Merged(w, r), m);
      }
    }
  }
}
