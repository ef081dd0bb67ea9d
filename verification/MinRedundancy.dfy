/** The trace of two-queue merging: leaves are taken in ascending order from one
    queue and merged nodes in order of creation from another. */
module MergeTrace {
  import opened Kraft
  import opened MergeBound

  /** One item of weight `v` moves from the heads of `w[leaf..]` and `iw[root..]`,
      the lighter one, ties to the leaf; `root'` and `leaf'` are the new heads. */
  ghost predicate Takes(w: seq<nat>, iw: seq<nat>, root: nat, leaf: nat, v: nat, root': nat, leaf': nat) {
    || (root < |iw| && v == iw[root] && (leaf >= |w| || iw[root] < w[leaf]) && root' == root + 1 && leaf' == leaf)
    || (leaf < |w| && v == w[leaf] && (root >= |iw| || w[leaf] <= iw[root]) && root' == root && leaf' == leaf + 1)
  }

  lemma TakeContents(w: seq<nat>, iw: seq<nat>, root: nat, leaf: nat, v: nat, root': nat, leaf': nat)
    requires leaf <= |w| && root <= |iw| && Takes(w, iw, root, leaf, v, root', leaf')
    ensures leaf' <= |w| && root' <= |iw|
    ensures multiset(w[leaf..]) + multiset(iw[root..]) == multiset{v} + (multiset(w[leaf'..]) + multiset(iw[root'..]))
  {
    if leaf < |w| { assert w[leaf..] == [w[leaf]] + w[leaf + 1..]; }
    if root < |iw| { assert iw[root..] == [iw[root]] + iw[root + 1..]; }
  }

  lemma TakeLightest(w: seq<nat>, iw: seq<nat>, root: nat, leaf: nat, v: nat, root': nat, leaf': nat, u: nat)
    requires leaf <= |w| && root <= |iw| && Takes(w, iw, root, leaf, v, root', leaf')
    requires Ascending(w) && Ascending(iw)
    requires u in multiset(w[leaf..]) + multiset(iw[root..])
    ensures v <= u
  {
    assert u in w[leaf..] || u in iw[root..];
  }

  lemma DropHead(s: seq<nat>)
    requires s != []
    ensures multiset(s) == multiset{s[0]} + multiset(s[1..])
  {
    assert s == [s[0]] + s[1..];
  }

  lemma HeadLeast(s: seq<nat>, v: nat)
    requires Ascending(s) && v in multiset(s)
    ensures |s| > 0 && s[0] <= v && s[0] in multiset(s) && Ascending(s[1..])
  {
    assert v in s;
    assert s[0] in s;
  }

  /** The least of what is left is what is taken. */
  lemma TakeIsHead(w: seq<nat>, iw: seq<nat>, root: nat, leaf: nat, v: nat, root': nat, leaf': nat, rem: seq<nat>)
    requires leaf <= |w| && root <= |iw| && Takes(w, iw, root, leaf, v, root', leaf')
    requires Ascending(w) && Ascending(iw) && Ascending(rem)
    requires multiset(rem) == multiset(w[leaf..]) + multiset(iw[root..])
    ensures |rem| > 0 && rem[0] == v && leaf' <= |w| && root' <= |iw| && Ascending(rem[1..])
    ensures multiset(rem[1..]) == multiset(w[leaf'..]) + multiset(iw[root'..])
  {
    hide Takes, Ascending;
    TakeContents(w, iw, root, leaf, v, root', leaf');
    assert v in multiset(rem);
    HeadLeast(rem, v);
    TakeLightest(w, iw, root, leaf, v, root', leaf', rem[0]);
    DropHead(rem);
    assert multiset(rem[1..]) == multiset(rem) - multiset{v};
  }

  ghost function Last(s: seq<nat>): nat {
    if s == [] then 0 else s[|s| - 1]
  }

  lemma Append(s: seq<nat>, x: nat)
    requires Ascending(s) && Last(s) <= x
    ensures Ascending(s + [x])
  {
  }

  lemma SumAppend(s: seq<nat>, x: nat)
    ensures Sum(s + [x]) == Sum(s) + x
  {
    SumConcat(s, [x]);
  }

  /** Sum of the first `k` items. */
  ghost function SumTo(s: seq<nat>, k: nat): nat {
    if k <= |s| then Sum(s[..k]) else Sum(s)
  }

  lemma SumToNext(s: seq<nat>, k: nat)
    requires k < |s|
    ensures SumTo(s, k + 1) == SumTo(s, k) + s[k]
  {
    assert s[..k + 1] == s[..k] + [s[k]];
    SumAppend(s[..k], s[k]);
  }

  lemma SumToAppend(s: seq<nat>, x: nat, k: nat)
    requires k <= |s|
    ensures SumTo(s + [x], k) == SumTo(s, k)
  {
    assert (s + [x])[..k] == s[..k];
  }

  lemma TakeSums(w: seq<nat>, iw: seq<nat>, root: nat, leaf: nat, v: nat, root': nat, leaf': nat)
    requires leaf <= |w| && root <= |iw| && Takes(w, iw, root, leaf, v, root', leaf')
    ensures SumTo(iw, root') + SumTo(w, leaf') == SumTo(iw, root) + SumTo(w, leaf) + v
  {
    if root' > root {
      SumToNext(iw, root);
    } else {
      SumToNext(w, leaf);
    }
  }

  /** Where the queues stood before each node: `rt[k]` and `lf[k]` are the first
      unconsumed node and leaf when node `k` is made. */
  ghost predicate Heads(n: nat, rt: seq<nat>, lf: seq<nat>) {
    && |rt| == |lf| && Ascending(rt) && Ascending(lf)
    && (forall k :: 0 <= k < |rt| ==> rt[k] + lf[k] == 2 * k)
    && (forall k :: 0 <= k < |rt| ==> rt[k] <= k && (k > 0 ==> rt[k] < k))
    && (forall k :: 0 <= k < |lf| ==> lf[k] <= n)
  }

  lemma HeadsAt(n: nat, rt: seq<nat>, lf: seq<nat>, k: nat)
    requires Heads(n, rt, lf) && k < |rt|
    ensures |lf| == |rt| && rt[k] + lf[k] == 2 * k && rt[k] <= k && lf[k] <= n && (k > 0 ==> rt[k] < k)
  {
  }

  lemma HeadsAppend(n: nat, rt: seq<nat>, lf: seq<nat>, r: nat, l: nat)
    requires Heads(n, rt, lf) && |rt| > 0
    requires r + l == 2 * |rt| && Last(rt) <= r < |rt| && Last(lf) <= l <= n
    ensures Heads(n, rt + [r], lf + [l])
  {
    Append(rt, r);
    Append(lf, l);
  }

  /** `top[k]` is the heaviest weight consumed before node `k`; node `k` weighs at
      least the two tops around it and at most twice the later one. */
  ghost predicate Between(iw: seq<nat>, top: seq<nat>) {
    |top| == |iw| + 1 &&
    forall k :: 0 <= k < |iw| ==> top[k] + top[k + 1] <= iw[k] <= 2 * top[k + 1]
  }

  /** Consumed nodes are no heavier than the top. */
  ghost predicate Consumed(iw: seq<nat>, rt: seq<nat>, top: seq<nat>) {
    |rt| == |top| == |iw| + 1 &&
    forall k :: 0 <= k < |rt| && 0 < rt[k] <= |iw| ==> iw[rt[k] - 1] <= top[k]
  }

  /** The first `k` nodes weigh together what they consumed. */
  ghost predicate Weights(w: seq<nat>, iw: seq<nat>, rt: seq<nat>, lf: seq<nat>) {
    forall k :: 0 <= k < |rt| && k < |lf| ==> SumTo(iw, k) == SumTo(iw, rt[k]) + SumTo(w, lf[k])
  }

  lemma WeightsAt(w: seq<nat>, iw: seq<nat>, rt: seq<nat>, lf: seq<nat>)
    requires Weights(w, iw, rt, lf) && |rt| == |lf| == |iw| + 1
    ensures Sum(iw) == SumTo(iw, Last(rt)) + SumTo(w, Last(lf))
  {
    assert iw[..|iw|] == iw;
    assert rt[|iw|] == Last(rt);
  }

  lemma BetweenAppend(iw: seq<nat>, top: seq<nat>, x: nat, y: nat)
    requires Between(iw, top) && Last(top) <= x <= y
    ensures Between(iw + [x + y], top + [y])
  {
  }

  lemma ConsumedAppend(n: nat, iw: seq<nat>, rt: seq<nat>, lf: seq<nat>, top: seq<nat>, x: nat, y: nat, r: nat)
    requires Heads(n, rt, lf) && Consumed(iw, rt, top) && r <= |iw| && (r > 0 ==> iw[r - 1] <= y)
    ensures Consumed(iw + [x], rt + [r], top + [y])
  {
  }

  lemma WeightsAppend(w: seq<nat>, iw: seq<nat>, rt: seq<nat>, lf: seq<nat>, x: nat, r: nat, l: nat)
    requires Heads(|w|, rt, lf) && Weights(w, iw, rt, lf) && |rt| == |iw| + 1
    requires r <= |iw| && Sum(iw) + x == SumTo(iw, r) + SumTo(w, l)
    ensures Weights(w, iw + [x], rt + [r], lf + [l])
  {
    var n := |iw|;
    forall k | 0 <= k <= n + 1
      ensures SumTo(iw + [x], k) == SumTo(iw + [x], (rt + [r])[k]) + SumTo(w, (lf + [l])[k])
    {
      if k <= n {
        SumToAppend(iw, x, k);
        SumToAppend(iw, x, rt[k]);
      } else {
        assert (iw + [x])[..k] == iw + [x];
        SumAppend(iw, x);
        SumToAppend(iw, x, r);
      }
    }
  }

  /** The merging so far: `w` the leaf weights, `iw` the node weights in order of
      creation, and `rem` the weights left, in order. */
  datatype Trace = Trace(w: seq<nat>, iw: seq<nat>, rt: seq<nat>, lf: seq<nat>, top: seq<nat>, rem: seq<nat>)
  {
    ghost predicate Shape() {
      Heads(|w|, rt, lf) && |rt| == |iw| + 1 && Weights(w, iw, rt, lf)
    }

    /** Consumption is in ascending order and what is left is no lighter. */
    ghost predicate Order() {
      && Ascending(w) && Ascending(iw) && Ascending(top)
      && Between(iw, top) && Consumed(iw, rt, top)
      && (Last(lf) < |w| ==> Last(top) <= w[Last(lf)])
      && (Last(rt) < |iw| ==> Last(top) <= iw[Last(rt)])
    }

    /** `rem` is what is left, and its merge cost is what is missing from the whole. */
    ghost predicate Left() {
      && Last(lf) <= |w| && Last(rt) <= |iw|
      && Ascending(rem) && multiset(rem) == multiset(w[Last(lf)..]) + multiset(iw[Last(rt)..])
    }

    ghost predicate Valid() {
      Shape() && Order() && Left() && MergeCost(w) == Sum(iw) + MergeCost(rem)
    }

    /** The trace after a node is made of items `x` and `y`. */
    ghost function Extend(x: nat, y: nat, r: nat, l: nat): Trace {
      Trace(w, iw + [x + y], rt + [r], lf + [l], top + [y], if |rem| < 2 then [] else Insert(rem[2..], x + y))
    }
  }

  lemma StartValid(w: seq<nat>)
    requires Ascending(w)
    ensures Trace(w, [], [0], [0], [0], w).Valid()
  {
    assert w[0..] == w;
  }

  /** The facts one node needs: two takes in a row. */
  ghost predicate TwoTakes(t: Trace, x: nat, r: nat, l: nat, y: nat, r': nat, l': nat) {
    Takes(t.w, t.iw, Last(t.rt), Last(t.lf), x, r, l) && Takes(t.w, t.iw, r, l, y, r', l')
  }

  lemma ExtendShape(t: Trace, x: nat, r: nat, l: nat, y: nat, r': nat, l': nat)
    requires t.Shape() && TwoTakes(t, x, r, l, y, r', l')
    ensures t.Extend(x, y, r', l').Shape()
  {
    hide Heads, Weights, Sum, SumTo;
    var n := |t.iw|;
    HeadsAt(|t.w|, t.rt, t.lf, n);
    HeadsAppend(|t.w|, t.rt, t.lf, r', l');
    TakeSums(t.w, t.iw, t.rt[n], t.lf[n], x, r, l);
    TakeSums(t.w, t.iw, r, l, y, r', l');
    WeightsAt(t.w, t.iw, t.rt, t.lf);
    WeightsAppend(t.w, t.iw, t.rt, t.lf, x + y, r', l');
  }

  lemma TakesAscend(w: seq<nat>, iw: seq<nat>, root: nat, leaf: nat, v: nat, root': nat, leaf': nat, floor: nat)
    requires Ascending(w) && Ascending(iw) && Takes(w, iw, root, leaf, v, root', leaf')
    requires leaf < |w| ==> floor <= w[leaf]
    requires root < |iw| ==> floor <= iw[root]
    ensures floor <= v
    ensures leaf' < |w| ==> v <= w[leaf']
    ensures root' < |iw| ==> v <= iw[root']
    ensures root <= root' <= root + 1 && (root' > root ==> root < |iw| && iw[root] == v)
    ensures root <= |iw| ==> root' <= |iw|
  {
  }

  /** The two consumed weights, against the heaviest one before them and what is left. */
  lemma PicksAscend(t: Trace, x: nat, r: nat, l: nat, y: nat, r': nat, l': nat)
    requires Heads(|t.w|, t.rt, t.lf) && t.Order() && TwoTakes(t, x, r, l, y, r', l')
    ensures Last(t.iw) <= x + y && Last(t.top) <= x <= y && r' <= |t.iw|
    ensures l' < |t.w| ==> y <= t.w[l']
    ensures r' < |t.iw| ==> y <= t.iw[r']
    ensures r' > 0 ==> t.iw[r' - 1] <= y
  {
    hide Heads, Between, Consumed, Ascending, Takes;
    var n := |t.iw|;
    TopAt(t);
    HeadsAt(|t.w|, t.rt, t.lf, n);
    TakesAscend(t.w, t.iw, t.rt[n], t.lf[n], x, r, l, t.top[n]);
    TakesAscend(t.w, t.iw, r, l, y, r', l', x);
  }

  lemma ExtendOrder(t: Trace, x: nat, r: nat, l: nat, y: nat, r': nat, l': nat)
    requires Heads(|t.w|, t.rt, t.lf) && t.Order() && TwoTakes(t, x, r, l, y, r', l')
    ensures t.Extend(x, y, r', l').Order()
  {
    hide Heads, Between, Consumed, Ascending, Takes;
    PicksAscend(t, x, r, l, y, r', l');
    Append(t.iw, x + y);
    Append(t.top, y);
    BetweenAppend(t.iw, t.top, x, y);
    ConsumedAppend(|t.w|, t.iw, t.rt, t.lf, t.top, x + y, y, r');
  }

  lemma TopAt(t: Trace)
    requires t.Order() && Heads(|t.w|, t.rt, t.lf)
    ensures |t.top| == |t.rt| == |t.iw| + 1
    ensures Last(t.iw) <= 2 * Last(t.top)
    ensures 0 < Last(t.rt) <= |t.iw| ==> t.iw[Last(t.rt) - 1] <= Last(t.top)
  {
    var n := |t.iw|;
    assert n > 0 ==> t.iw[n - 1] <= 2 * t.top[n];
    assert t.rt[n] == Last(t.rt);
  }

  lemma AppendAfter(s: seq<nat>, k: nat, x: nat)
    requires k <= |s|
    ensures multiset((s + [x])[k..]) == multiset(s[k..]) + multiset{x}
  {
    assert (s + [x])[k..] == s[k..] + [x];
  }

  lemma ExtendLeft(t: Trace, x: nat, r: nat, l: nat, y: nat, r': nat, l': nat)
    requires t.Left() && Ascending(t.w) && Ascending(t.iw) && TwoTakes(t, x, r, l, y, r', l')
    ensures |t.rem| >= 2 && t.rem[0] == x && t.rem[1] == y
    ensures t.Extend(x, y, r', l').Left()
  {
    hide Insert, Ascending, Takes;
    TakeIsHead(t.w, t.iw, Last(t.rt), Last(t.lf), x, r, l, t.rem);
    TakeIsHead(t.w, t.iw, r, l, y, r', l', t.rem[1..]);
    assert t.rem[1..][1..] == t.rem[2..];
    InsertAscending(t.rem[2..], x + y);
    InsertContents(t.rem[2..], x + y);
    AppendAfter(t.iw, r', x + y);
  }

  lemma ExtendCost(total: nat, spent: nat, rem: seq<nat>, x: nat)
    requires |rem| >= 2 && x == rem[0] + rem[1]
    requires total == spent + MergeCost(rem)
    ensures total == spent + x + MergeCost(Insert(rem[2..], x))
  {
    hide MergeCost, Insert;
    MergeCostStep(rem);
  }

  lemma MergeCostStep(s: seq<nat>)
    requires |s| >= 2
    ensures MergeCost(s) == s[0] + s[1] + MergeCost(Insert(s[2..], s[0] + s[1]))
  {
    hide Insert;
  }

  lemma ExtendValid(t: Trace, x: nat, r: nat, l: nat, y: nat, r': nat, l': nat)
    requires t.Valid() && TwoTakes(t, x, r, l, y, r', l')
    ensures t.Extend(x, y, r', l').Valid()
  {
    hide MergeCost, Sum, Ascending, Insert, Weights, Between, Consumed, Heads, Takes;
    ExtendShape(t, x, r, l, y, r', l');
    ExtendOrder(t, x, r, l, y, r', l');
    ExtendLeft(t, x, r, l, y, r', l');
    ExtendCost(MergeCost(t.w), Sum(t.iw), t.rem, x + y);
    SumAppend(t.iw, x + y);
  }
}
