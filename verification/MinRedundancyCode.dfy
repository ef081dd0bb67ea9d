/** In-place computation of minimum-redundancy code lengths, in three passes over
    one array of (key, symbol) records. */
module MinimumRedundancy {
  import opened Kraft
  import opened MergeBound
  import opened MergeTrace
  import opened MergeLevels

  datatype SymFreq = SymFreq(key: nat, sym: nat)

  ghost function Keys(s: seq<SymFreq>): (r: seq<nat>)
    ensures |r| == |s|
    ensures forall i :: 0 <= i < |s| ==> r[i] == s[i].key
  {
    seq(|s|, i requires 0 <= i < |s| => s[i].key)
  }

  ghost function Syms(s: seq<SymFreq>): (r: seq<nat>)
    ensures |r| == |s|
    ensures forall i :: 0 <= i < |s| ==> r[i] == s[i].sym
  {
    seq(|s|, i requires 0 <= i < |s| => s[i].sym)
  }

  /** Truncation to 16 bits. */
  function U16(x: nat): nat {
    x % 0x10000
  }

  /** The two queues held in the array: node weights from `root` on and leaf weights from `leaf` on. */
  ghost predicate Queues(a: seq<SymFreq>, w: seq<nat>, iw: seq<nat>, root: nat, leaf: nat) {
    && |a| == |w| && |iw| < |w|
    && (forall j :: root <= j < |iw| ==> a[j].key == iw[j])
    && (forall j :: leaf <= j < |a| ==> a[j].key == w[j])
  }

  /** The array after node `next` of weight `v` consumed the nodes from `root` up to `root'`. */
  ghost predicate NodeMade(a: seq<SymFreq>, b: seq<SymFreq>, next: nat, root: nat, root': nat, v: nat) {
    && |a| == |b| && next < |a|
    && b[next].key == v
    && (forall j :: root <= j < root' && j < |b| ==> b[j].key == next)
    && (forall j :: 0 <= j < |b| && j != next && !(root <= j < root') ==> b[j].key == a[j].key)
    && (forall j :: 0 <= j < |b| ==> b[j].sym == a[j].sym)
  }

  /** The array while nodes are being made: parent links, then the two queues. */
  ghost predicate Merging(a: seq<SymFreq>, t: Trace, root: nat, leaf: nat) {
    && t.Valid() && |a| == |t.w| && root == Last(t.rt) && leaf == Last(t.lf)
    && Queues(a, t.w, t.iw, root, leaf)
    && Links(a, t.rt, root)
  }

  ghost predicate Links(a: seq<SymFreq>, rt: seq<nat>, root: nat) {
    forall j :: 0 <= j < root && j < |a| ==>
      a[j].key + 1 < |rt| && rt[a[j].key] <= j < rt[a[j].key + 1]
  }

  lemma NodeFits(t: Trace)
    requires t.Shape() && |t.iw| > 0
    ensures Last(t.iw) <= Sum(t.w)
  {
    hide Sum, Heads;
    var n := |t.iw|;
    HeadsAt(|t.w|, t.rt, t.lf, n);
    WeightsAt(t.w, t.iw, t.rt, t.lf);
    SumToNext(t.iw, n - 1);
    assert t.iw[..n] == t.iw;
    SumToMono(t.iw, t.rt[n], n - 1);
    SumToMono(t.w, t.lf[n], |t.w|);
    assert t.w[..|t.w|] == t.w;
  }

  lemma {:induction false} SumToMono(s: seq<nat>, a: nat, b: nat)
    requires a <= b <= |s|
    ensures SumTo(s, a) <= SumTo(s, b)
    decreases b
  {
    if a < b {
      SumToMono(s, a, b - 1);
      SumToNext(s, b - 1);
    }
  }

  lemma LinksMade(a: seq<SymFreq>, b: seq<SymFreq>, rt: seq<nat>, next: nat, root: nat, root': nat, v: nat)
    requires Links(a, rt, root) && NodeMade(a, b, next, root, root', v)
    requires |rt| == next + 1 && rt[next] == root <= root' <= next
    ensures Links(b, rt + [root'], root')
  {
    var r := rt + [root'];
    forall j | 0 <= j < root' && j < |b|
      ensures b[j].key + 1 < |r| && r[b[j].key] <= j < r[b[j].key + 1]
    {
      if j < root {
        assert b[j].key == a[j].key;
      }
    }
  }

  lemma QueuesMade(a: seq<SymFreq>, b: seq<SymFreq>, w: seq<nat>, iw: seq<nat>, root: nat, leaf: nat,
                   root': nat, leaf': nat, v: nat)
    requires Queues(a, w, iw, root, leaf) && NodeMade(a, b, |iw|, root, root', v)
    requires root <= root' <= |iw| < leaf' && leaf <= leaf' && |iw| + 1 < |w|
    ensures Queues(b, w, iw + [v], root', leaf')
  {
  }

  lemma TakesRange(w: seq<nat>, iw: seq<nat>, root: nat, leaf: nat, v: nat, root': nat, leaf': nat)
    requires Takes(w, iw, root, leaf, v, root', leaf')
    ensures root' + leaf' == root + leaf + 1 && root <= root' && leaf <= leaf'
    ensures root <= |iw| ==> root' <= |iw|
  {
  }

  lemma MadeKeepsSyms(a: seq<SymFreq>, b: seq<SymFreq>, next: nat, root: nat, root': nat, v: nat)
    requires NodeMade(a, b, next, root, root', v)
    ensures Syms(a) == Syms(b) && next < |b| && b[next].key == v
  {
  }

  lemma Made(a: seq<SymFreq>, b: seq<SymFreq>, t: Trace, root: nat, leaf: nat,
             x: nat, r: nat, l: nat, y: nat, root': nat, leaf': nat)
    requires Merging(a, t, root, leaf) && Sum(t.w) < 0x10000 && |t.iw| + 1 < |t.w|
    requires TwoTakes(t, x, r, l, y, root', leaf')
    requires NodeMade(a, b, |t.iw|, root, root', U16(x + y))
    ensures Merging(b, t.Extend(x, y, root', leaf'), root', leaf')
  {
    hide Heads, Weights, Between, Consumed, Ascending, Takes, Sum, MergeCost, Insert, Links, Queues, NodeMade;
    var n := |t.iw|;
    HeadsAt(|t.w|, t.rt, t.lf, n);
    TakesRange(t.w, t.iw, root, leaf, x, r, l);
    TakesRange(t.w, t.iw, r, l, y, root', leaf');
    ExtendValid(t, x, r, l, y, root', leaf');
    NodeFits(t.Extend(x, y, root', leaf'));
    LinksMade(a, b, t.rt, n, root, root', x + y);
    QueuesMade(a, b, t.w, t.iw, root, leaf, root', leaf', x + y);
    MadeKeepsSyms(a, b, n, root, root', x + y);
  }

  lemma MadeTwice(a: seq<SymFreq>, b: seq<SymFreq>, c: seq<SymFreq>, next: nat, root: nat, r: nat, root': nat, x: nat,
                  v: nat)
    requires NodeMade(a, b, next, root, r, x) && NodeMade(b, c, next, r, root', v)
    requires root <= r <= root' <= next
    ensures NodeMade(a, c, next, root, root', v)
  {
  }

  lemma QueuesKept(a: seq<SymFreq>, b: seq<SymFreq>, w: seq<nat>, iw: seq<nat>, root: nat, leaf: nat, r: nat, l: nat,
                   x: nat)
    requires Queues(a, w, iw, root, leaf) && NodeMade(a, b, |iw|, root, r, x)
    requires root <= r <= |iw| < leaf <= l
    ensures Queues(b, w, iw, r, l)
  {
  }

  /** The first item of node `next`. */
  method TakeFirst(a: array<SymFreq>, next: nat, root: nat, leaf: nat, ghost w: seq<nat>, ghost iw: seq<nat>)
    returns (root': nat, leaf': nat, ghost x: nat)
    requires |iw| == next && root < next < leaf <= a.Length <= 0x10000
    requires Queues(a[..], w, iw, root, leaf)
    modifies a
    ensures Takes(w, iw, root, leaf, x, root', leaf')
    ensures NodeMade(old(a[..]), a[..], next, root, root', x)
  {
    if leaf >= a.Length || a[root].key < a[leaf].key {
      x := a[root].key;
      a[next] := a[next].(key := a[root].key);
      a[root] := a[root].(key := U16(next));
      root', leaf' := root + 1, leaf;
    } else {
      x := a[leaf].key;
      a[next] := a[next].(key := a[leaf].key);
      root', leaf' := root, leaf + 1;
    }
  }

  /** The second item of node `next`, added to the first. */
  method TakeSecond(a: array<SymFreq>, next: nat, root: nat, leaf: nat, ghost w: seq<nat>, ghost iw: seq<nat>)
    returns (root': nat, leaf': nat, ghost y: nat)
    requires |iw| == next && root <= next < leaf <= a.Length <= 0x10000
    requires leaf < a.Length || root < next
    requires Queues(a[..], w, iw, root, leaf)
    modifies a
    ensures Takes(w, iw, root, leaf, y, root', leaf')
    ensures NodeMade(old(a[..]), a[..], next, root, root', U16(old(a[next].key) + y))
  {
    if leaf >= a.Length || (root < next && a[root].key < a[leaf].key) {
      y := a[root].key;
      a[next] := a[next].(key := U16(a[next].key + a[root].key));
      a[root] := a[root].(key := U16(next));
      root', leaf' := root + 1, leaf;
    } else {
      y := a[leaf].key;
      a[next] := a[next].(key := U16(a[next].key + a[leaf].key));
      root', leaf' := root, leaf + 1;
    }
  }

  /** One more node made of the two lightest items left. */
  method MakeNode(a: array<SymFreq>, next: nat, root: nat, leaf: nat, ghost t: Trace)
    returns (root': nat, leaf': nat, ghost t': Trace)
    requires Merging(a[..], t, root, leaf) && |t.iw| == next >= 1 && next + 1 < a.Length <= 0x10000
    requires Sum(t.w) < 0x10000
    modifies a
    ensures t'.w == t.w && |t'.iw| == next + 1
    ensures Merging(a[..], t', root', leaf')
    ensures Syms(a[..]) == old(Syms(a[..]))
  {
    hide Heads, Weights, Between, Consumed, Ascending, Takes, Sum, MergeCost, Insert, Links, Queues, NodeMade;
    ghost var before := a[..];
    HeadsAt(|t.w|, t.rt, t.lf, next);
    ghost var x, y;
    var r, l;
    r, l, x := TakeFirst(a, next, root, leaf, t.w, t.iw);
    ghost var middle := a[..];
    TakesRange(t.w, t.iw, root, leaf, x, r, l);
    QueuesKept(before, middle, t.w, t.iw, root, leaf, r, l, x);
    root', leaf', y := TakeSecond(a, next, r, l, t.w, t.iw);
    TakesRange(t.w, t.iw, r, l, y, root', leaf');
    MadeTwice(before, middle, a[..], next, root, r, root', x, U16(x + y));
    MadeKeepsSyms(before, middle, next, root, r, x);
    MadeKeepsSyms(before, a[..], next, root, root', U16(x + y));
    Made(before, a[..], t, root, leaf, x, r, l, y, root', leaf');
    t' := t.Extend(x, y, root', leaf');
  }

  method MergePhase(a: array<SymFreq>) returns (ghost t: Trace)
    requires 2 <= a.Length <= 0x10000
    requires Ascending(Keys(a[..])) && Sum(Keys(a[..])) < 0x10000
    modifies a
    ensures Syms(a[..]) == old(Syms(a[..]))
    ensures t.w == old(Keys(a[..]))
    ensures Merging(a[..], t, a.Length - 2, a.Length) && |t.iw| == a.Length - 1
  {
    hide Heads, Weights, Between, Consumed, Ascending, Takes, Sum, MergeCost, Insert, Links, Queues, NodeMade;
    var n := a.Length;
    ghost var w := Keys(a[..]);
    var root, leaf := 0, 2;
    t := FirstPair(a);
    var next := 1;
    while next < n - 1
      invariant 1 <= next <= n - 1 && |t.iw| == next
      invariant t.w == w && Merging(a[..], t, root, leaf)
      invariant Syms(a[..]) == old(Syms(a[..]))
    {
      root, leaf, t := MakeNode(a, next, root, leaf, t);
      next := next + 1;
    }
    TreeEnds(t);
  }

  /** Node 0 is made of the two lightest leaves. */
  method FirstPair(a: array<SymFreq>) returns (ghost t: Trace)
    requires 2 <= a.Length <= 0x10000
    requires Ascending(Keys(a[..])) && Sum(Keys(a[..])) < 0x10000
    modifies a
    ensures Syms(a[..]) == old(Syms(a[..]))
    ensures t.w == old(Keys(a[..])) && |t.iw| == 1
    ensures Merging(a[..], t, 0, 2)
  {
    hide Heads, Weights, Between, Consumed, Ascending, Sum, MergeCost, Insert;
    ghost var w := Keys(a[..]);
    a[0] := a[0].(key := U16(a[0].key + a[1].key));
    StartValid(w);
    t := Trace(w, [], [0], [0], [0], w);
    AscendingPair(w);
    ExtendValid(t, w[0], 0, 1, w[1], 0, 2);
    t := t.Extend(w[0], w[1], 0, 2);
    NodeFits(t);
  }

  lemma AscendingPair(w: seq<nat>)
    requires Ascending(w) && |w| >= 2
    ensures w[0] <= w[1]
  {
  }

  // ---- Second pass: node depths.

  ghost predicate DepthsFrom(a: seq<SymFreq>, par: seq<nat>, from: nat)
    requires Upward(par)
  {
    |a| == |par| + 2 && forall j :: from <= j <= |par| ==> a[j].key == Depth(par, j)
  }

  /** Every parent link becomes the depth of its node. */
  method DepthPhase(a: array<SymFreq>, ghost par: seq<nat>)
    requires 2 <= a.Length <= 0x10000 && |par| == a.Length - 2 && Upward(par)
    requires forall j :: 0 <= j < |par| ==> a[j].key == par[j]
    modifies a
    ensures Syms(a[..]) == old(Syms(a[..]))
    ensures DepthsFrom(a[..], par, 0)
  {
    var n := a.Length;
    a[n - 2] := a[n - 2].(key := 0);
    var next := n - 3;
    while next >= 0
      invariant -1 <= next <= n - 3
      invariant DepthsFrom(a[..], par, next + 1)
      invariant forall j :: 0 <= j <= next ==> a[j].key == par[j]
      invariant Syms(a[..]) == old(Syms(a[..]))
    {
      a[next] := a[next].(key := a[a[next].key].key + 1);
      next := next - 1;
    }
  }

  // ---- Third pass: leaf lengths, level by level.

  /** The lengths `out` given so far, to the leaves from `from` on, at level `d` with
      `avbl` places left there: the Kraft sum is whole. */
  ghost predicate Filled(out: seq<nat>, n: nat, d: nat, avbl: nat) {
    d <= n && Bounded(out, n) && KraftSum(out, n) + avbl * Pow2(n - d) == Pow2(n)
  }

  lemma FillOne(out: seq<nat>, n: nat, d: nat, avbl: nat)
    requires Filled(out, n, d, avbl) && avbl > 0
    ensures Filled([d] + out, n, d, avbl - 1)
  {
    assert ([d] + out)[1..] == out;
    MulDistributes(Pow2(n - d), avbl - 1, 1);
  }

  lemma FillLevel(out: seq<nat>, n: nat, d: nat, used: nat)
    requires Filled(out, n, d, used) && d < n
    ensures Filled(out, n, d + 1, 2 * used)
  {
    assert Pow2(n - d) == 2 * Pow2(n - d - 1);
    assert used * (2 * Pow2(n - d - 1)) == 2 * used * Pow2(n - d - 1);
  }

  /** The cost of the lengths `out` given to the leaves from `m` on, plus `d` times
      the weight `left` still on level `d`. */
  ghost predicate Paid(w: seq<nat>, out: seq<nat>, m: nat, d: nat, left: int, total: int) {
    m <= |w| && |out| == |w| - m && WeightedLength(w[m..], out) + d * left == total
  }

  lemma PayOne(w: seq<nat>, out: seq<nat>, m: nat, d: nat, left: int, total: int)
    requires Paid(w, out, m, d, left, total) && m > 0
    ensures Paid(w, [d] + out, m - 1, d, left - w[m - 1], total)
  {
    assert w[m - 1..][1..] == w[m..] && ([d] + out)[1..] == out;
    var v: int := w[m - 1];
    assert d * (left - v) + v * d == d * left;
  }

  lemma PayLevel(w: seq<nat>, out: seq<nat>, m: nat, d: nat, left: int, total: int)
    requires Paid(w, out, m, d, left, total)
    ensures Paid(w, out, m, d + 1, left, total + left)
  {
    assert (d + 1) * left == d * left + left;
  }

  /** Lengths `out`, none longer than `d`, the longest first, none zero. */
  ghost predicate Falling(out: seq<nat>, d: nat) {
    && (forall i, j :: 0 <= i < j < |out| ==> out[i] >= out[j])
    && (forall i :: 0 <= i < |out| ==> 1 <= out[i] <= d)
  }

  /** What is known of the array and the lengths given so far, at level `d`. */
  ghost predicate Given(a: seq<SymFreq>, w: seq<nat>, out: seq<nat>, m: nat, d: nat) {
    && |a| == |w| && m <= |w| && |out| == |w| - m && Falling(out, d)
    && (forall i :: m <= i < |a| ==> a[i].key == out[i - m])
  }

  /** Depths still needed, below `hi`. */
  ghost predicate DepthsBelow(a: seq<SymFreq>, par: seq<nat>, hi: nat)
    requires Upward(par)
  {
    hi < |a| == |par| + 2 && forall j :: 0 <= j < hi ==> a[j].key == Depth(par, j)
  }

  /** Counts the nodes at depth `dpth`, from `hi` down. */
  method CountNodes(a: array<SymFreq>, dpth: nat, hi: nat, ghost lo: nat, ghost par: seq<nat>)
    returns (used: nat, root: int)
    requires Upward(par) && DepthsBelow(a[..], par, hi) && lo <= hi
    requires forall j :: lo <= j < hi ==> Depth(par, j) == dpth
    requires forall j :: 0 <= j < lo ==> Depth(par, j) > dpth
    ensures used == hi - lo && root == lo - 1
  {
    used, root := 0, hi - 1;
    while root >= 0 && a[root].key == dpth
      invariant lo - 1 <= root < hi && used == hi - 1 - root
    {
      used, root := used + 1, root - 1;
    }
  }

  lemma GiveOne(a: seq<SymFreq>, b: seq<SymFreq>, w: seq<nat>, out: seq<nat>, m: nat, d: nat)
    requires Given(a, w, out, m, d) && m > 0 && d > 0
    requires b == a[m - 1 := a[m - 1].(key := d)]
    ensures Given(b, w, [d] + out, m - 1, d)
  {
  }

  /** Gives length `dpth` to `count` leaves, from `m` down. */
  method GiveLengths(a: array<SymFreq>, m: nat, count: nat, used: nat, dpth: nat,
                     ghost w: seq<nat>, ghost out: seq<nat>, ghost left: int, ghost total: int)
    returns (ghost out': seq<nat>, ghost left': int)
    requires Given(a[..], w, out, m, dpth) && count <= m && (count > 0 ==> dpth > 0) && dpth < 0x10000
    requires Filled(out, |w|, dpth, count + used) && Paid(w, out, m, dpth, left, total)
    modifies a
    ensures Given(a[..], w, out', m - count, dpth)
    ensures Filled(out', |w|, dpth, used) && Paid(w, out', m - count, dpth, left', total)
    ensures left' == left - (SumTo(w, m) - SumTo(w, m - count))
    ensures forall i :: 0 <= i < m - count ==> a[i] == old(a[i])
    ensures Syms(a[..]) == old(Syms(a[..]))
  {
    hide Given, Filled, Paid, SumTo;
    var avbl, next := count + used, m - 1;
    out', left' := out, left;
    GivenLength(a[..], w, out, m, dpth);
    while avbl > used
      invariant used <= avbl <= count + used && next + 1 == m - (count + used - avbl)
      invariant Given(a[..], w, out', next + 1, dpth) && Filled(out', |w|, dpth, avbl)
      invariant Paid(w, out', next + 1, dpth, left', total)
      invariant left' == left - (SumTo(w, m) - SumTo(w, next + 1))
      invariant forall i :: 0 <= i <= next ==> a[i] == old(a[i])
      invariant Syms(a[..]) == old(Syms(a[..]))
    {
      ghost var before := a[..];
      a[next] := a[next].(key := U16(dpth));
      GiveOne(before, a[..], w, out', next + 1, dpth);
      FillOne(out', |w|, dpth, avbl);
      PayOne(w, out', next + 1, dpth, left', total);
      SumToNext(w, next);
      out', left' := [dpth] + out', left' - w[next];
      avbl, next := avbl - 1, next - 1;
    }
  }

  lemma GivenLength(a: seq<SymFreq>, w: seq<nat>, out: seq<nat>, m: nat, d: nat)
    requires Given(a, w, out, m, d)
    ensures |a| == |w| && m <= |w| && |out| == |w| - m
  {
  }

  /** Where level `d` starts: nodes below `hi`, leaves below `m`, `avbl` places, of
      which those not taken by nodes are leaves; `left` is the weight on the level. */
  ghost predicate Sweep(t: Trace, d: nat, hi: nat, m: nat, avbl: nat, left: int) {
    && hi < |t.rt| == |t.lf| && m <= |t.w|
    && m - t.lf[hi] == avbl - (hi - t.rt[hi]) >= 0
    && left == SumTo(t.iw, hi) - SumTo(t.iw, t.rt[hi]) + SumTo(t.w, m) - SumTo(t.w, t.lf[hi])
    && (hi + d < |t.w| || (avbl == 0 && d <= |t.w|))
    && (d == 0 ==> m == |t.w| && avbl == 1 && hi + 1 == |t.w|)
  }

  lemma SweepNext(t: Trace, d: nat, hi: nat, m: nat, avbl: nat, left: int)
    requires t.Shape() && |t.w| >= 2 && |t.iw| == |t.w| - 1 && Sweep(t, d, hi, m, avbl, left) && avbl > 0
    ensures t.rt[hi] <= hi <= t.lf[hi] && (d == 0 ==> t.lf[hi] == m)
    ensures Sweep(t, d + 1, t.rt[hi], t.lf[hi], 2 * (hi - t.rt[hi]), SumTo(t.iw, hi) - SumTo(t.iw, t.rt[hi]))
  {
    hide Heads, SumTo, Weights;
    TreeEnds(t);
    HeadsAt(|t.w|, t.rt, t.lf, hi);
    HeadsAt(|t.w|, t.rt, t.lf, t.rt[hi]);
    RootsAscend(t, t.rt[hi], hi);
    RangeWeight(t, t.rt[hi], hi);
  }

  /** When node 0 is passed, its depth is known. */
  ghost predicate Bottom(par: seq<nat>, d: nat, hi: nat, avbl: nat)
    requires Upward(par)
  {
    && (hi == 0 && avbl > 0 ==> d == Depth(par, 0) + 1)
    && (avbl == 0 ==> hi == 0 && d == Depth(par, 0) + 2)
  }

  ghost predicate FinalLengths(t: Trace, par: seq<nat>, lens: seq<nat>)
    requires Upward(par)
  {
    && |lens| == |t.w| && Falling(lens, Depth(par, 0) + 1)
    && Bounded(lens, |t.w|) && KraftSum(lens, |t.w|) == Pow2(|t.w|)
    && WeightedLength(t.w, lens) == Sum(t.iw)
  }

  method LengthPhase(a: array<SymFreq>, ghost t: Trace, ghost par: seq<nat>)
    requires Tree(t, par) && Upward(par) && a.Length == |t.w| <= 0x10000
    requires DepthsFrom(a[..], par, 0)
    modifies a
    ensures Syms(a[..]) == old(Syms(a[..]))
    ensures FinalLengths(t, par, Keys(a[..]))
  {
    hide Heads, Weights, Between, Consumed, Ascending, Sum, MergeCost, Filled, Paid, SumTo, Level, Points, Falling,
      KraftSum, WeightedLength, Pow2;
    var n := a.Length;
    var avbl, used, dpth, root, next := 1, 0, 0, n - 2, n - 1;
    ghost var hi: nat, hi2: nat, out: seq<nat>, left := n - 1, 0, [], 0;
    left := StartSweep(a[..], t, par);
    while avbl > 0
      invariant root == hi - 1 && -1 <= next < n
      invariant Sweep(t, dpth, hi, next + 1, avbl, left) && Level(t, par, dpth, hi, hi2)
      invariant DepthsBelow(a[..], par, hi) && Bottom(par, dpth, hi, avbl)
      invariant Given(a[..], t.w, out, next + 1, if dpth == 0 then 0 else dpth - 1)
      invariant Filled(out, n, dpth, avbl)
      invariant Paid(t.w, out, next + 1, dpth, left, Sum(t.iw) - SumTo(t.iw, hi))
      invariant Syms(a[..]) == old(Syms(a[..]))
      decreases hi, avbl
    {
      ghost var lo: nat := t.rt[hi];
      NextLevel(t, par, dpth, hi, hi2);
      SweepNext(t, dpth, hi, next + 1, avbl, left);
      used, root := CountNodes(a, dpth, root + 1, lo, par);
      GivenLater(a[..], t.w, out, next + 1, if dpth == 0 then 0 else dpth - 1, dpth);
      out, left := GiveLengths(a, next + 1, avbl - used, used, dpth, t.w, out, left, Sum(t.iw) - SumTo(t.iw, hi));
      next := next - (avbl - used);
      FillLevel(out, n, dpth, used);
      PayLevel(t.w, out, next + 1, dpth, left, Sum(t.iw) - SumTo(t.iw, hi));
      hi2, hi := hi, lo;
      avbl, dpth, used := 2 * used, dpth + 1, 0;
    }
    FinishSweep(a[..], t, par, out, hi, next + 1, dpth, left);
  }

  lemma GivenLater(a: seq<SymFreq>, w: seq<nat>, out: seq<nat>, m: nat, d: nat, d': nat)
    requires Given(a, w, out, m, d) && d <= d'
    ensures Given(a, w, out, m, d')
  {
  }

  lemma StartSweep(a: seq<SymFreq>, t: Trace, par: seq<nat>) returns (left: int)
    requires Tree(t, par) && Upward(par) && |a| == |t.w| && DepthsFrom(a, par, 0)
    ensures Sweep(t, 0, |a| - 1, |a|, 1, left) && Level(t, par, 0, |a| - 1, 0)
    ensures DepthsBelow(a, par, |a| - 1) && Bottom(par, 0, |a| - 1, 1)
    ensures Given(a, t.w, [], |a|, 0) && Filled([], |a|, 0, 1)
    ensures Paid(t.w, [], |a|, 0, left, Sum(t.iw) - SumTo(t.iw, |a| - 1))
  {
    var n := |a|;
    TreeEnds(t);
    HeadsAt(n, t.rt, t.lf, n - 1);
    left := SumTo(t.iw, n - 1) - SumTo(t.iw, t.rt[n - 1]) + SumTo(t.w, n) - SumTo(t.w, t.lf[n - 1]);
    assert t.iw[..n - 1] == t.iw;
  }

  lemma FinishSweep(a: seq<SymFreq>, t: Trace, par: seq<nat>, out: seq<nat>, hi: nat, m: nat, d: nat, left: int)
    requires Upward(par) && t.Shape() && Sweep(t, d, hi, m, 0, left) && Bottom(par, d, hi, 0)
    requires |a| == |t.w| && Given(a, t.w, out, m, d - 1) && Filled(out, |a|, d, 0)
    requires Paid(t.w, out, m, d, left, Sum(t.iw) - SumTo(t.iw, hi))
    ensures FinalLengths(t, par, Keys(a))
  {
    HeadsAt(|a|, t.rt, t.lf, 0);
    assert hi == 0 && t.rt[0] == 0 && t.lf[0] == 0 && m == 0;
    assert Keys(a) == out;
    assert t.w[0..] == t.w;
  }

  /** No lengths that fit a prefix code give a shorter text over `w` than `lens` do. */
  ghost predicate Optimal(w: seq<nat>, lens: seq<nat>)
    requires |w| == |lens|
  {
    forall other: seq<nat>, m: nat ::
      |other| == |w| && Bounded(other, m) && KraftSum(other, m) <= Pow2(m) ==>
        WeightedLength(w, lens) <= WeightedLength(w, other)
  }

  lemma OptimalAt(w: seq<nat>, lens: seq<nat>, other: seq<nat>, m: nat)
    requires |w| == |lens| == |other| && Optimal(w, lens) && Bounded(other, m) && KraftSum(other, m) <= Pow2(m)
    ensures WeightedLength(w, lens) <= WeightedLength(w, other)
  {
    hide WeightedLength, KraftSum, Pow2;
  }

  /** What the code lengths computed for the ascending weights `w` are. */
  ghost predicate MinimumRedundancyLengths(w: seq<nat>, lens: seq<nat>) {
    && |lens| == |w| && Falling(lens, |w|) && Bounded(lens, |w|)
    && KraftSum(lens, |w|) == Pow2(|w|)
    && Optimal(w, lens)
    && (Positive(w) ==> forall d: nat :: Sum(w) < Fib(d) ==> Falling(lens, d))
  }

  lemma FallingFurther(lens: seq<nat>, d: nat, d': nat)
    requires Falling(lens, d) && d <= d'
    ensures Falling(lens, d')
  {
  }

  lemma FallingCapped(lens: seq<nat>, d: nat, n: nat)
    requires Falling(lens, d) && Bounded(lens, n)
    ensures Falling(lens, n)
  {
  }

  lemma FinalLengthsOptimal(t: Trace, par: seq<nat>, lens: seq<nat>)
    requires Tree(t, par) && Upward(par) && FinalLengths(t, par, lens)
    ensures MinimumRedundancyLengths(t.w, lens)
  {
    hide Heads, Weights, Between, Consumed, Points, Ascending, Sum, KraftSum, WeightedLength, Falling, MergeCost, Fib;
    FallingCapped(lens, Depth(par, 0) + 1, |t.w|);
    CostIsMergeCost(t, par);
    forall other: seq<nat>, m: nat | |other| == |t.w| && Bounded(other, m) && KraftSum(other, m) <= Pow2(m)
      ensures WeightedLength(t.w, lens) <= WeightedLength(t.w, other)
    {
      NothingBeatsMerging(t.w, other, m);
    }
    if Positive(t.w) {
      forall d: nat | Sum(t.w) < Fib(d) ensures Falling(lens, d) {
        DepthBound(t, par, d);
        FallingFurther(lens, Depth(par, 0) + 1, d);
      }
    }
  }

  lemma CostIsMergeCost(t: Trace, par: seq<nat>)
    requires Tree(t, par)
    ensures Sum(t.iw) == MergeCost(t.w)
  {
    hide Heads, Weights, Between, Consumed, Points, Ascending, Sum;
    TreeEnds(t);
    assert |multiset(t.rem)| == |t.rem|;
  }

  /** Replaces the ascending weights in `a` by minimum-redundancy code lengths. */
  method CalculateMinimumRedundancy(a: array<SymFreq>)
    requires a.Length <= 0x10000
    requires Ascending(Keys(a[..])) && Sum(Keys(a[..])) < 0x10000
    modifies a
    ensures Syms(a[..]) == old(Syms(a[..]))
    ensures a.Length == 1 ==> Keys(a[..]) == [1]
    ensures a.Length >= 2 ==> MinimumRedundancyLengths(old(Keys(a[..])), Keys(a[..]))
  {
    hide Heads, Weights, Between, Consumed, Ascending, Sum, MergeCost, Falling, KraftSum, WeightedLength, Queues;
    if a.Length == 0 { return; }
    if a.Length == 1 { a[0] := a[0].(key := 1); return; }
    ghost var t := MergePhase(a);
    ghost var par := Keys(a[..])[..a.Length - 2];
    TreeEnds(t);
    TreeUpward(t, par);
    DepthPhase(a, par);
    LengthPhase(a, t, par);
    FinalLengthsOptimal(t, par, Keys(a[..]));
  }
}
