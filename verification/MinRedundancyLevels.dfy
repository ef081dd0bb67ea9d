/** The finished merge tree read level by level: node depths from parent links,
    and the leaf lengths that the levels give. */
module MergeLevels {
  import opened Kraft
  import opened MergeBound
  import opened MergeTrace

  /** `par[j]` is the node that consumed node `j`, for every consumed node. */
  ghost predicate Points(par: seq<nat>, rt: seq<nat>) {
    forall j :: 0 <= j < |par| && j < Last(rt) ==>
      par[j] + 1 < |rt| && rt[par[j]] <= j < rt[par[j] + 1]
  }

  /** A whole tree over `|t.w|` leaves with parent links `par`. */
  ghost predicate Tree(t: Trace, par: seq<nat>) {
    && t.Valid() && |t.w| >= 2 && |t.iw| == |t.w| - 1
    && |par| == |t.w| - 2 && Points(par, t.rt)
  }

  lemma TreeEnds(t: Trace)
    requires t.Shape() && |t.w| >= 2 && |t.iw| == |t.w| - 1
    ensures Last(t.rt) == |t.w| - 2 && Last(t.lf) == |t.w|
  {
    HeadsAt(|t.w|, t.rt, t.lf, |t.iw|);
  }

  lemma ParentAbove(t: Trace, par: seq<nat>, j: nat)
    requires Tree(t, par) && j < |par|
    ensures par[j] + 1 < |t.rt| && t.rt[par[j]] <= j < t.rt[par[j] + 1]
    ensures j < par[j] <= |par|
  {
    TreeEnds(t);
    HeadsAt(|t.w|, t.rt, t.lf, par[j] + 1);
  }

  /** Links lead upward to the root `|par|`. */
  ghost predicate Upward(par: seq<nat>) {
    forall j :: 0 <= j < |par| ==> j < par[j] <= |par|
  }

  lemma TreeUpward(t: Trace, par: seq<nat>)
    requires Tree(t, par)
    ensures Upward(par)
  {
    forall j | 0 <= j < |par| ensures j < par[j] <= |par| {
      ParentAbove(t, par, j);
    }
  }

  /** Depth of node `j`, the root `|par|` being at depth 0. */
  ghost function Depth(par: seq<nat>, j: nat): (d: nat)
    requires Upward(par)
    ensures j < |par| ==> d <= |par| - j
    decreases |par| - j
  {
    if j >= |par| then 0 else 1 + Depth(par, par[j])
  }

  /** Nodes below `hi` lie at depth `d` or deeper; those from `hi` up to `hi2` at `d - 1`. */
  ghost predicate Level(t: Trace, par: seq<nat>, d: nat, hi: nat, hi2: nat)
    requires Upward(par)
  {
    && hi < |t.rt| && hi2 < |t.rt|
    && (forall j :: 0 <= j < hi ==> Depth(par, j) >= d)
    && (if d == 0 then hi == |t.w| - 1 else
          hi == t.rt[hi2] && forall j :: hi <= j < hi2 ==> Depth(par, j) == d - 1)
  }

  lemma RootsAscend(t: Trace, j: nat, k: nat)
    requires Heads(|t.w|, t.rt, t.lf) && j <= k < |t.rt|
    ensures t.rt[j] <= t.rt[k] && t.lf[j] <= t.lf[k]
  {
  }

  /** Depth `d` holds exactly the nodes consumed from `hi` on. */
  lemma LevelNode(t: Trace, par: seq<nat>, d: nat, hi: nat, hi2: nat, j: nat)
    requires Tree(t, par) && Upward(par) && Level(t, par, d, hi, hi2) && j < hi
    ensures j >= t.rt[hi] ==> Depth(par, j) == d
    ensures j < t.rt[hi] ==> Depth(par, j) >= d + 1
  {
    hide Heads, Weights, Points;
    TreeEnds(t);
    if j < |par| {
      ParentAbove(t, par, j);
      var p := par[j];
      if j >= t.rt[hi] {
        if p < hi { RootsAscend(t, p + 1, hi); assert false; }
        if d > 0 && p >= hi2 { RootsAscend(t, hi2, p); assert false; }
      } else if p >= hi {
        RootsAscend(t, hi, p);
        assert false;
      }
    }
  }

  lemma NextLevel(t: Trace, par: seq<nat>, d: nat, hi: nat, hi2: nat)
    requires Tree(t, par) && Upward(par) && Level(t, par, d, hi, hi2)
    ensures t.rt[hi] <= hi && (hi > 0 ==> t.rt[hi] < hi)
    ensures forall j :: t.rt[hi] <= j < hi ==> Depth(par, j) == d
    ensures forall j :: 0 <= j < t.rt[hi] ==> Depth(par, j) > d
    ensures Level(t, par, d + 1, t.rt[hi], hi)
  {
    hide Heads, Weights, Points;
    HeadsAt(|t.w|, t.rt, t.lf, hi);
    forall j | 0 <= j < hi
      ensures j >= t.rt[hi] ==> Depth(par, j) == d
      ensures j < t.rt[hi] ==> Depth(par, j) >= d + 1
    {
      LevelNode(t, par, d, hi, hi2, j);
    }
  }

  /** The nodes from `a` up to `b` weigh what they consumed. */
  lemma RangeWeight(t: Trace, a: nat, b: nat)
    requires t.Shape() && a <= b < |t.rt|
    ensures SumTo(t.iw, b) - SumTo(t.iw, a)
         == SumTo(t.iw, t.rt[b]) - SumTo(t.iw, t.rt[a]) + SumTo(t.w, t.lf[b]) - SumTo(t.w, t.lf[a])
  {
    assert t.rt[a] == t.rt[a] && t.rt[b] == t.rt[b];
  }

  /** The root weighs as much as all leaves. */
  lemma RootWeight(t: Trace, par: seq<nat>)
    requires Tree(t, par)
    ensures t.iw[|t.iw| - 1] == Sum(t.w)
  {
    hide Sum, Heads, Points;
    TreeEnds(t);
    HeadsAt(|t.w|, t.rt, t.lf, 0);
    WeightsAt(t.w, t.iw, t.rt, t.lf);
    var n := |t.iw|;
    SumToNext(t.iw, n - 1);
    assert t.iw[..n] == t.iw && t.w[..|t.w|] == t.w;
  }

  // ---- Depth bound: weights along a path grow at least like Fibonacci numbers.

  ghost function Fib(i: nat): nat {
    if i == 0 then 2 else if i == 1 then 3 else Fib(i - 1) + Fib(i - 2)
  }

  lemma {:induction false} FibMono(i: nat, j: nat)
    requires i <= j
    ensures Fib(i) <= Fib(j)
    decreases j
  {
    if i < j {
      FibMono(i, j - 1);
      assert j >= 2 ==> Fib(j) == Fib(j - 1) + Fib(j - 2);
    }
  }

  lemma TopsAt(t: Trace, k: nat)
    requires t.Order() && k < |t.iw|
    ensures |t.top| == |t.iw| + 1 && t.top[k] + t.top[k + 1] <= t.iw[k]
  {
  }

  lemma ConsumedAt(t: Trace, k: nat, c: nat)
    requires t.Order() && k < |t.rt| && c < t.rt[k] <= |t.iw|
    ensures |t.top| == |t.rt| && t.iw[c] <= t.top[k]
  {
    assert t.iw[c] <= t.iw[t.rt[k] - 1] <= t.top[k];
  }

  lemma TopsAscend(t: Trace, j: nat, k: nat)
    requires t.Order() && j <= k < |t.top|
    ensures t.top[j] <= t.top[k]
  {
  }

  /** A node outweighs a child by at least the top when the child was made, and
      that top is no lighter than any grandchild. */
  lemma Grandchild(t: Trace, par: seq<nat>, c: nat)
    requires Tree(t, par) && c < |par|
    ensures par[c] < |t.iw| && c + 1 < |t.top| && |t.top| == |t.iw| + 1
    ensures t.iw[par[c]] >= t.iw[c] + t.top[c + 1]
    ensures t.iw[c] <= t.top[par[c] + 1]
  {
    hide Heads, Weights, Sum, Points, MergeCost, Between, Consumed, Ascending;
    ParentAbove(t, par, c);
    var p := par[c];
    HeadsAt(|t.w|, t.rt, t.lf, p + 1);
    TopsAt(t, p);
    ConsumedAt(t, p + 1, c);
    TopsAscend(t, c + 1, p);
  }

  /** Climbing from node `c`, reached `i` steps above node 0, the root is reached
      with the Fibonacci weight of the whole path. */
  lemma {:induction false} Climb(t: Trace, par: seq<nat>, c: nat, i: nat)
    requires Tree(t, par) && Upward(par) && c <= |par| && c + 1 < |t.top|
    requires t.iw[c] >= Fib(i) && (i > 0 ==> t.top[c + 1] >= Fib(i - 1)) && t.top[c + 1] >= 1
    ensures t.iw[|t.iw| - 1] >= Fib(i + Depth(par, c))
    decreases |par| - c
  {
    hide Heads, Weights, Sum, Points, MergeCost, Between, Consumed, Ascending;
    if c < |par| {
      Grandchild(t, par, c);
      FibMono(0, i);
      Climb(t, par, par[c], i + 1);
    }
  }

  ghost predicate Positive(w: seq<nat>) {
    forall i :: 0 <= i < |w| ==> w[i] > 0
  }

  lemma FirstNode(t: Trace, par: seq<nat>)
    requires Tree(t, par) && Positive(t.w)
    ensures |t.top| >= 2 && t.iw[0] >= 2 && t.top[1] >= 1
  {
    hide MergeCost;
    HeadsAt(|t.w|, t.rt, t.lf, 1);
    HeadsAt(|t.w|, t.rt, t.lf, 0);
    assert SumTo(t.iw, 1) == SumTo(t.iw, t.rt[1]) + SumTo(t.w, t.lf[1]);
    SumToNext(t.iw, 0);
    SumToNext(t.w, 0);
    SumToNext(t.w, 1);
  }

  /** Positive weights that sum below a Fibonacci number make no node that deep. */
  lemma DepthBound(t: Trace, par: seq<nat>, d: nat)
    requires Tree(t, par) && Upward(par) && Positive(t.w) && Sum(t.w) < Fib(d)
    ensures Depth(par, 0) < d
  {
    hide Heads, Weights, Sum, Points, MergeCost, Between, Consumed, Ascending;
    RootWeight(t, par);
    FirstNode(t, par);
    Climb(t, par, 0, 0);
    if Depth(par, 0) >= d {
      FibMono(d, Depth(par, 0));
    }
  }

  lemma FibTable()
    ensures Fib(22) == 75025
  {
    assert Fib(2) == 5 && Fib(3) == 8;
    assert Fib(4) == 13 && Fib(5) == 21;
    assert Fib(6) == 34 && Fib(7) == 55;
    assert Fib(8) == 89 && Fib(9) == 144;
    assert Fib(10) == 233 && Fib(11) == 377;
    assert Fib(12) == 610 && Fib(13) == 987;
    assert Fib(14) == 1597 && Fib(15) == 2584;
    assert Fib(16) == 4181 && Fib(17) == 6765;
    assert Fib(18) == 10946 && Fib(19) == 17711;
    assert Fib(20) == 28657 && Fib(21) == 46368;
  }
}
