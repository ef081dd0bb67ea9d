/** In an optimal code, symbols that share little of the code space weigh little: a prefix of the
    lightest symbols with a share of two to the minus s weighs at most one part in a Fibonacci
    number of the whole. */
module LightPrefix {
  import opened Kraft
  import opened MergeLevels
  import opened MinimumRedundancy

  // ---- Shares of prefixes.

  /** The share of the first `p` symbols, in units of two to the minus `m`. */
  ghost function Share(lens: seq<nat>, m: nat, p: nat): nat
    requires Bounded(lens, m) && p <= |lens|
  {
    KraftSum(lens[..p], m)
  }

  /** A complete code, the longest words first. */
  ghost predicate Whole(lens: seq<nat>, m: nat) {
    Falling(lens, m) && Bounded(lens, m) && KraftSum(lens, m) == Pow2(m)
  }

  lemma ShareNext(lens: seq<nat>, m: nat, p: nat)
    requires Bounded(lens, m) && p < |lens|
    ensures Share(lens, m, p + 1) == Share(lens, m, p) + Pow2(m - lens[p])
  {
    hide KraftSum, Pow2;
    assert lens[..p + 1] == lens[..p] + [lens[p]];
    KraftConcat(lens[..p], [lens[p]], m);
    KraftOne(lens[p], m);
  }

  lemma ShareEnds(lens: seq<nat>, m: nat)
    requires Bounded(lens, m)
    ensures Share(lens, m, 0) == 0 && Share(lens, m, |lens|) == KraftSum(lens, m)
  {
    assert lens[..|lens|] == lens;
  }

  lemma ShareSplit(lens: seq<nat>, m: nat, p: nat)
    requires Bounded(lens, m) && p <= |lens|
    ensures Bounded(lens[p..], m) && Share(lens, m, p) + KraftSum(lens[p..], m) == KraftSum(lens, m)
  {
    hide KraftSum;
    assert lens == lens[..p] + lens[p..];
    KraftConcat(lens[..p], lens[p..], m);
  }

  lemma {:induction false} ShareGrows(lens: seq<nat>, m: nat, p: nat, q: nat)
    requires Bounded(lens, m) && p < q <= |lens|
    ensures Share(lens, m, p) < Share(lens, m, q)
    decreases q
  {
    hide KraftSum, Share;
    ShareNext(lens, m, q - 1);
    if p < q - 1 { ShareGrows(lens, m, p, q - 1); }
  }

  /** Before a symbol of length `l` the share is a multiple of two to the minus `l`. */
  lemma ShareMultiple(lens: seq<nat>, m: nat, p: nat) returns (c: int)
    requires Whole(lens, m) && p < |lens|
    ensures Share(lens, m, p) == Pow2(m - lens[p]) * c
  {
    hide KraftSum, Pow2;
    var l := lens[p];
    var d := KraftMultiple(lens[p..], m, l);
    ShareSplit(lens, m, p);
    Pow2Add(m - l, l);
    c := Pow2(l) - d;
    MulDistributes(Pow2(m - l), c, d);
  }

  /** Dropping one symbol from a share over two to the minus `s` leaves at least that. */
  lemma CutStep(lens: seq<nat>, m: nat, s: nat, p: nat)
    requires Whole(lens, m) && 0 < p <= |lens| && s <= lens[0] && Share(lens, m, p) > Pow2(m - s)
    ensures Share(lens, m, p - 1) >= Pow2(m - s)
  {
    hide KraftSum, Pow2, Share;
    var l := lens[p - 1];
    var c := ShareMultiple(lens, m, p - 1);
    ShareNext(lens, m, p - 1);
    var a := Pow2(m - l);
    if l >= s {
      Pow2Add(m - l, l - s);
      MulDistributes(a, c, 1);
      if c < Pow2(l - s) { MulOrder(a, c + 1, Pow2(l - s)); }
      MulOrder(a, Pow2(l - s), c);
    } else {
      ShareEnds(lens, m);
      ShareGrows(lens, m, 0, p - 1);
      if c <= 0 { MulOrder(a, c, 0); }
      MulOrder(a, 1, c);
      Pow2Mono(m - s, m - l);
    }
  }

  /** Some prefix has a share of exactly two to the minus `s`, when a length is that long. */
  lemma {:induction false} Cut(lens: seq<nat>, m: nat, s: nat, p: nat) returns (k: nat)
    requires Whole(lens, m) && p <= |lens| && lens != [] && s <= lens[0] && Share(lens, m, p) >= Pow2(m - s)
    ensures k <= p && Share(lens, m, k) == Pow2(m - s)
    decreases p
  {
    hide KraftSum, Pow2, Share;
    ShareEnds(lens, m);
    k := p;
    if Share(lens, m, p) > Pow2(m - s) {
      CutStep(lens, m, s, p);
      k := Cut(lens, m, s, p - 1);
    }
  }

  lemma CutAnywhere(lens: seq<nat>, m: nat, s: nat) returns (k: nat)
    requires Whole(lens, m) && lens != [] && s <= lens[0]
    ensures k <= |lens| && Share(lens, m, k) == Pow2(m - s)
  {
    hide KraftSum, Pow2, Share;
    ShareEnds(lens, m);
    Pow2Mono(m - s, m);
    k := Cut(lens, m, s, |lens|);
  }

  // ---- Exchanging two prefixes.

  ghost function Longer(lens: seq<nat>): (r: seq<nat>)
    ensures |r| == |lens| && forall i :: 0 <= i < |lens| ==> r[i] == lens[i] + 1
  {
    seq(|lens|, i requires 0 <= i < |lens| => lens[i] + 1)
  }

  ghost function Shorter(lens: seq<nat>): (r: seq<nat>)
    requires forall i :: 0 <= i < |lens| ==> lens[i] >= 1
    ensures |r| == |lens| && forall i :: 0 <= i < |lens| ==> r[i] == lens[i] - 1
    ensures Longer(r) == lens
  {
    seq(|lens|, i requires 0 <= i < |lens| => lens[i] - 1)
  }

  lemma {:induction false} LongerCost(w: seq<nat>, lens: seq<nat>)
    requires |w| == |lens|
    ensures WeightedLength(w, Longer(lens)) == WeightedLength(w, lens) + Sum(w)
  {
    if w != [] {
      LongerCost(w[1..], lens[1..]);
      assert Longer(lens)[1..] == Longer(lens[1..]);
      MulDistributes(w[0], lens[0], 1);
    }
  }

  lemma {:induction false} LongerRoom(lens: seq<nat>, m: nat)
    requires Bounded(lens, m)
    ensures Bounded(Longer(lens), m + 1) && KraftSum(Longer(lens), m + 1) == KraftSum(lens, m)
  {
    hide Pow2;
    if lens != [] {
      LongerRoom(lens[1..], m);
      assert Longer(lens)[1..] == Longer(lens[1..]);
    }
  }

  lemma ShorterCost(w: seq<nat>, lens: seq<nat>)
    requires |w| == |lens| && forall i :: 0 <= i < |lens| ==> lens[i] >= 1
    ensures WeightedLength(w, Shorter(lens)) + Sum(w) == WeightedLength(w, lens)
  {
    hide WeightedLength, Sum, Longer, Shorter;
    LongerCost(w, Shorter(lens));
  }

  lemma ShorterRoom(lens: seq<nat>, m: nat)
    requires m >= 1 && Bounded(lens, m) && forall i :: 0 <= i < |lens| ==> lens[i] >= 1
    ensures Bounded(Shorter(lens), m + 1) && KraftSum(Shorter(lens), m + 1) == 4 * KraftSum(lens, m)
  {
    hide KraftSum, Longer, Shorter;
    var r := Shorter(lens);
    LongerRoom(r, m - 1);
    KraftRescale(r, m + 1, m - 1);
    assert Pow2(2) == 4;
  }

  lemma SameRoom(lens: seq<nat>, m: nat)
    requires Bounded(lens, m)
    ensures Bounded(lens, m + 1) && KraftSum(lens, m + 1) == 2 * KraftSum(lens, m)
  {
    hide KraftSum;
    KraftRescale(lens, m + 1, m);
    assert Pow2(1) == 2;
  }

  /** The first part one shorter, the third one longer. */
  ghost function Exchanged(a: seq<nat>, b: seq<nat>, c: seq<nat>, d: seq<nat>): seq<nat>
    requires forall i :: 0 <= i < |a| ==> a[i] >= 1
  {
    Shorter(a) + (b + (Longer(c) + d))
  }

  lemma ExchangeRoom(a: seq<nat>, b: seq<nat>, c: seq<nat>, d: seq<nat>, m: nat)
    requires m >= 1 && Bounded(a, m) && Bounded(b, m) && Bounded(c, m) && Bounded(d, m)
      && forall i :: 0 <= i < |a| ==> a[i] >= 1
    ensures Bounded(Exchanged(a, b, c, d), m + 1)
    ensures KraftSum(Exchanged(a, b, c, d), m + 1)
      == 4 * KraftSum(a, m) + 2 * KraftSum(b, m) + KraftSum(c, m) + 2 * KraftSum(d, m)
  {
    hide KraftSum, Bounded, Shorter, Longer, WeightedLength, Sum;
    ShorterRoom(a, m);
    SameRoom(b, m);
    LongerRoom(c, m);
    SameRoom(d, m);
    KraftConcat(Longer(c), d, m + 1);
    KraftConcat(b, Longer(c) + d, m + 1);
    KraftConcat(Shorter(a), b + (Longer(c) + d), m + 1);
  }

  lemma WeightedFour(u: seq<nat>, v: seq<nat>, x: seq<nat>, y: seq<nat>, a: seq<nat>, b: seq<nat>, c: seq<nat>,
                     d: seq<nat>)
    requires |u| == |a| && |v| == |b| && |x| == |c| && |y| == |d|
    ensures WeightedLength(u + (v + (x + y)), a + (b + (c + d)))
         == WeightedLength(u, a) + WeightedLength(v, b) + WeightedLength(x, c) + WeightedLength(y, d)
  {
    hide WeightedLength;
    WeightedConcat(x, y, c, d);
    WeightedConcat(v, x + y, b, c + d);
    WeightedConcat(u, v + (x + y), a, b + (c + d));
  }

  lemma ExchangeCost(u: seq<nat>, v: seq<nat>, x: seq<nat>, y: seq<nat>,
                     a: seq<nat>, b: seq<nat>, c: seq<nat>, d: seq<nat>)
    requires |u| == |a| && |v| == |b| && |x| == |c| && |y| == |d|
    requires forall i :: 0 <= i < |a| ==> a[i] >= 1
    ensures |Exchanged(a, b, c, d)| == |a| + |b| + |c| + |d|
    ensures WeightedLength(u + (v + (x + y)), Exchanged(a, b, c, d)) + Sum(u)
         == WeightedLength(u + (v + (x + y)), a + (b + (c + d))) + Sum(x)
  {
    hide Shorter, Longer, WeightedLength, Sum;
    ShorterCost(u, a);
    LongerCost(x, c);
    WeightedFour(u, v, x, y, Shorter(a), b, Longer(c), d);
    WeightedFour(u, v, x, y, a, b, c, d);
  }

  lemma FourParts(s: seq<nat>, p: nat, q: nat, r: nat)
    requires p <= q <= r <= |s|
    ensures s == s[..p] + (s[p..q] + (s[q..r] + s[r..]))
  {
  }

  lemma PartSum(w: seq<nat>, p: nat, q: nat)
    requires p <= q <= |w|
    ensures Sum(w[p..q]) == Sum(w[..q]) - Sum(w[..p])
  {
    hide Sum;
    assert w[..q] == w[..p] + w[p..q];
    SumConcat(w[..p], w[p..q]);
  }

  lemma PartShare(lens: seq<nat>, m: nat, p: nat, q: nat)
    requires Bounded(lens, m) && p <= q <= |lens|
    ensures Bounded(lens[p..q], m) && KraftSum(lens[p..q], m) == Share(lens, m, q) - Share(lens, m, p)
  {
    hide KraftSum;
    assert lens[..q] == lens[..p] + lens[p..q];
    KraftConcat(lens[..p], lens[p..q], m);
  }

  /** Nothing is gained by giving the lightest quarter the room of the second half. */
  lemma Exchange(w: seq<nat>, lens: seq<nat>, m: nat, quarter: nat, half: nat, all: nat)
    requires |w| == |lens| && Whole(lens, m) && Optimal(w, lens) && m >= 1
    requires quarter <= half <= all <= |lens|
    requires Share(lens, m, half) == 2 * Share(lens, m, quarter) && Share(lens, m, all) == 2 * Share(lens, m, half)
    ensures Sum(w[..all]) >= Sum(w[..half]) + Sum(w[..quarter])
  {
    hide KraftSum, WeightedLength, Sum, Optimal, Exchanged, Pow2;
    var a, b, c, d := lens[..quarter], lens[quarter..half], lens[half..all], lens[all..];
    var u, v, x, y := w[..quarter], w[quarter..half], w[half..all], w[all..];
    FourParts(lens, quarter, half, all);
    FourParts(w, quarter, half, all);
    ExchangeRoom(a, b, c, d, m);
    ExchangeCost(u, v, x, y, a, b, c, d);
    PartShare(lens, m, quarter, half);
    PartShare(lens, m, half, all);
    ShareSplit(lens, m, all);
    PartSum(w, half, all);
    assert Pow2(m + 1) == 2 * Pow2(m) by { Pow2Half(m + 1); }
    OptimalAt(w, lens, Exchanged(a, b, c, d), m + 1);
  }

  // ---- Fibonacci growth.

  lemma PrefixOrder(w: seq<nat>, lens: seq<nat>, m: nat, p: nat, q: nat)
    requires |w| == |lens| && Bounded(lens, m) && p <= |lens| && q <= |lens| && Share(lens, m, p) <= Share(lens, m, q)
    ensures p <= q && Sum(w[..p]) <= Sum(w[..q])
  {
    hide KraftSum, Sum;
    if q < p { ShareGrows(lens, m, q, p); }
    PartSum(w, p, q);
  }

  ghost predicate IsCut(lens: seq<nat>, m: nat, s: nat, p: nat) {
    Bounded(lens, m) && p <= |lens| && s <= m && Share(lens, m, p) == Pow2(m - s)
  }

  lemma CutExists(lens: seq<nat>, m: nat, s: nat) returns (p: nat)
    requires Whole(lens, m) && lens != [] && s <= lens[0]
    ensures IsCut(lens, m, s, p)
  {
    hide Share, Pow2;
    p := CutAnywhere(lens, m, s);
  }

  lemma ThreeCuts(w: seq<nat>, lens: seq<nat>, m: nat, s: nat, quarter: nat, half: nat, all: nat)
    requires |w| == |lens| && Whole(lens, m) && Optimal(w, lens) && m >= s + 2
    requires IsCut(lens, m, s + 2, quarter) && IsCut(lens, m, s + 1, half) && IsCut(lens, m, s, all)
    ensures Sum(w[..all]) >= Sum(w[..half]) + Sum(w[..quarter]) && Sum(w[..half]) >= Sum(w[..quarter])
  {
    hide Share, Pow2, Optimal, Sum, Whole;
    Pow2Half(m - s - 1);
    Pow2Half(m - s);
    assert Bounded(lens, m);
    PrefixOrder(w, lens, m, quarter, half);
    PrefixOrder(w, lens, m, half, all);
    Exchange(w, lens, m, quarter, half, all);
  }

  /** How much the prefix with half the share weighs at least. */
  ghost function Before(j: nat): nat {
    if j == 0 then 1 else Fib(j - 1)
  }

  lemma FibStep(j: nat)
    ensures Fib(j) == (if j == 0 then 1 else Fib(j - 1)) + if j <= 1 then 1 else Fib(j - 2)
  {
  }

  /** Prefixes with twice, four times ... the share weigh at least the Fibonacci multiples. */
  lemma {:induction false} Heavier(w: seq<nat>, lens: seq<nat>, m: nat, s: nat, p: nat, j: nat)
    returns (half: nat, all: nat)
    requires |w| == |lens| && lens != [] && Whole(lens, m) && Optimal(w, lens) && j + 2 <= s <= lens[0]
      && IsCut(lens, m, s, p)
    ensures IsCut(lens, m, s - j - 1, half) && IsCut(lens, m, s - j - 2, all)
    ensures Sum(w[..half]) >= Before(j) * Sum(w[..p]) && Sum(w[..all]) >= Fib(j) * Sum(w[..p])
    decreases j
  {
    hide Share, Pow2, Optimal, Sum, Whole, Fib;
    assert lens[0] <= m by { WholeBound(lens, m); }
    FibStep(j);
    all := CutExists(lens, m, s - j - 2);
    if j == 0 {
      half := CutExists(lens, m, s - 1);
      ThreeCuts(w, lens, m, s - 2, p, half, all);
    } else {
      var quarter;
      quarter, half := Heavier(w, lens, m, s, p, j - 1);
      ThreeCuts(w, lens, m, s - j - 2, quarter, half, all);
      MulDistributes(Sum(w[..p]), Before(j - 1), Fib(j - 1));
    }
  }

  lemma WholeBound(lens: seq<nat>, m: nat)
    requires Whole(lens, m) && lens != []
    ensures lens[0] <= m
  {
  }

  /** Lightest symbols with at most two to the minus `s` of the room weigh at most one part in
      Fib(s - 2) of the whole. */
  lemma Light(w: seq<nat>, lens: seq<nat>, m: nat, s: nat, q: nat)
    requires |w| == |lens| && lens != [] && Whole(lens, m) && Optimal(w, lens) && 2 <= s <= lens[0]
    requires q <= |lens| && Share(lens, m, q) <= Pow2(m - s)
    ensures Fib(s - 2) * Sum(w[..q]) <= Sum(w)
  {
    hide Share, Pow2, Optimal, Sum, Fib, KraftSum;
    var p := CutExists(lens, m, s);
    PrefixOrder(w, lens, m, q, p);
    var half, all := Heavier(w, lens, m, s, p, s - 2);
    MulOrder(Fib(s - 2), Sum(w[..q]), Sum(w[..p]));
    assert w[..|w|] == w;
    PartSum(w, all, |w|);
  }
}
