/** How many trie nodes below depth 10 a set of codes can need. */
module NodeBudget {
  import opened Kraft
  import opened Bits
  import opened Canonical

  /** `p` is a proper prefix, 10 to 14 bits long, of a word among the first `m` symbols. */
  ghost predicate Inner(sizes: seq<nat>, m: nat, p: seq<bool>) {
    10 <= |p| <= 14 && exists s :: Owns(sizes, m, s, p)
  }

  ghost predicate Owns(sizes: seq<nat>, m: nat, s: nat, p: seq<bool>) {
    s < m <= |sizes| && |p| < sizes[s] && p <= Word(sizes, s)
  }

  lemma {:induction false} RangeCard(e: set<nat>, n: nat)
    requires forall x :: x in e ==> x < n
    ensures |e| <= n
  {
    if n == 0 {
      assert e == {};
    } else {
      RangeCard(e - {n - 1}, n - 1);
      assert |e - {n - 1}| >= |e| - 1;
    }
  }

  lemma {:induction false} InjectiveCard(k: set<seq<bool>>, f: seq<bool> -> nat, n: nat)
    requires forall p :: p in k ==> f(p) < n
    requires forall p, q :: p in k && q in k && f(p) == f(q) ==> p == q
    ensures |k| <= n
  {
    var e := set p | p in k :: f(p);
    ImageCard(k, f, e);
    RangeCard(e, n);
  }

  lemma {:induction false} ImageCard(k: set<seq<bool>>, f: seq<bool> -> nat, e: set<nat>)
    requires forall p, q :: p in k && q in k && f(p) == f(q) ==> p == q
    requires e == set p | p in k :: f(p)
    ensures |e| == |k|
    decreases |k|
  {
    if k != {} {
      var p :| p in k;
      ImageCard(k - {p}, f, e - {f(p)});
    }
  }

  /** Bit strings of length `d` that are not used up by words of length `d` or less. */
  ghost function Free(sizes: seq<nat>, d: nat): int {
    Pow2(d) - End(sizes, d)
  }

  /** Free strings of lengths 10 up to `d`, excluded. */
  ghost function Offset(sizes: seq<nat>, d: nat): int {
    if d <= 10 then 0 else Offset(sizes, d - 1) + Free(sizes, d - 1)
  }

  lemma FreeStep(sizes: seq<nat>, d: nat)
    requires d >= 1
    ensures Free(sizes, d + 1) == 2 * Free(sizes, d) - Count(sizes, d + 1)
  {
    hide Count;
    FirstNext(sizes, d);
  }

  lemma {:induction false} UsedBound(sizes: seq<nat>, len: nat)
    ensures Used(sizes, len) <= |sizes|
  {
    if sizes == [] {
      UsedNone(len);
    } else {
      UsedBound(sizes[..|sizes| - 1], len);
      UsedLast(sizes, len);
    }
  }

  lemma {:induction false} UsedNone(len: nat)
    ensures Used([], len) == 0
  {
    if len > 0 { UsedNone(len - 1); }
  }

  lemma {:induction false} UsedLast(sizes: seq<nat>, len: nat)
    requires sizes != []
    ensures Used(sizes, len) == Used(sizes[..|sizes| - 1], len) + (if 1 <= sizes[|sizes| - 1] <= len then 1 else 0)
  {
    if len > 0 { UsedLast(sizes, len - 1); }
  }

  /** In a complete code at most 287 proper prefixes have 10 to 14 bits. */
  lemma OffsetBound(sizes: seq<nat>)
    requires Lengths(sizes) && Complete(sizes)
    ensures Offset(sizes, 15) <= 287
  {
    hide Count, First, Pow2, End;
    FreeStep(sizes, 10); FreeStep(sizes, 11); FreeStep(sizes, 12); FreeStep(sizes, 13); FreeStep(sizes, 14);
    assert Free(sizes, 15) == 0 by { Pow2Table(); FirstNext(sizes, 15); }
    UsedBound(sizes, 15);
    UsedSplit(sizes);
    assert Offset(sizes, 15)
      == Free(sizes, 10) + Free(sizes, 11) + Free(sizes, 12) + Free(sizes, 13) + Free(sizes, 14) by {
      OffsetSum(sizes);
    }
  }

  lemma OffsetSum(sizes: seq<nat>)
    ensures Offset(sizes, 15) == Free(sizes, 10) + Free(sizes, 11) + Free(sizes, 12) + Free(sizes, 13) + Free(sizes, 14)
  {
    hide Free;
    assert Offset(sizes, 11) == Free(sizes, 10);
    assert Offset(sizes, 12) == Offset(sizes, 11) + Free(sizes, 11);
    assert Offset(sizes, 13) == Offset(sizes, 12) + Free(sizes, 12);
    assert Offset(sizes, 14) == Offset(sizes, 13) + Free(sizes, 13);
  }

  lemma UsedSplit(sizes: seq<nat>)
    ensures Used(sizes, 15)
      >= Count(sizes, 11) + Count(sizes, 12) + Count(sizes, 13) + Count(sizes, 14) + Count(sizes, 15)
  {
    hide Count;
    assert Used(sizes, 11) == Used(sizes, 10) + Count(sizes, 11);
    assert Used(sizes, 12) == Used(sizes, 11) + Count(sizes, 12);
    assert Used(sizes, 13) == Used(sizes, 12) + Count(sizes, 13);
    assert Used(sizes, 14) == Used(sizes, 13) + Count(sizes, 14);
  }

  lemma {:induction false} OffsetMono(sizes: seq<nat>, a: nat, b: nat)
    requires Fits(sizes) && 10 <= a <= b <= 15
    ensures 0 <= Offset(sizes, a) <= Offset(sizes, b)
    decreases b
  {
    hide First, Count, End, Pow2;
    if a < b {
      OffsetMono(sizes, a, b - 1);
    } else if a > 10 {
      OffsetMono(sizes, a - 1, a - 1);
    }
  }

  /** A number for each inner string, different for different ones. */
  ghost function Number(sizes: seq<nat>, p: seq<bool>): nat {
    var v := Offset(sizes, |p|) + MsbValue(p) - End(sizes, |p|);
    if v >= 0 then v else 0
  }

  lemma NumberRange(sizes: seq<nat>, m: nat, p: seq<bool>)
    requires Lengths(sizes) && Fits(sizes) && Inner(sizes, m, p)
    ensures Number(sizes, p) == Offset(sizes, |p|) + MsbValue(p) - End(sizes, |p|)
    ensures Offset(sizes, |p|) <= Number(sizes, p) < Offset(sizes, |p| + 1) <= Offset(sizes, 15)
  {
    hide First, Count, Pow2, MsbBits, MsbValue, Offset;
    var s :| Owns(sizes, m, s, p);
    assert Word(sizes, s)[..|p|] == p;
    PrefixAfter(sizes, s, |p|);
    OffsetMono(sizes, 10, |p|);
    OffsetMono(sizes, |p| + 1, 15);
    OffsetNext(sizes, |p|);
  }

  lemma OffsetNext(sizes: seq<nat>, d: nat)
    requires d >= 10
    ensures Offset(sizes, d + 1) == Offset(sizes, d) + Free(sizes, d)
  {
  }

  lemma NumberInjective(sizes: seq<nat>, m: nat, p: seq<bool>, q: seq<bool>)
    requires Lengths(sizes) && Fits(sizes) && Inner(sizes, m, p) && Inner(sizes, m, q)
    requires Number(sizes, p) == Number(sizes, q)
    ensures p == q
  {
    hide First, Count, Pow2, MsbBits, MsbValue, Number, Offset, End;
    NumberRange(sizes, m, p);
    NumberRange(sizes, m, q);
    if |p| < |q| { OffsetMono(sizes, |p| + 1, |q|); }
    if |q| < |p| { OffsetMono(sizes, |q| + 1, |p|); }
    MsbRoundTrip(p);
    MsbRoundTrip(q);
  }

  lemma CompleteBudget(sizes: seq<nat>, m: nat, k: set<seq<bool>>)
    requires Lengths(sizes) && Complete(sizes) && Fits(sizes)
    requires forall p :: p in k ==> Inner(sizes, m, p)
    ensures |k| <= 287
  {
    hide First, Count, Number, Offset, Inner, Complete;
    var f := (p: seq<bool>) => Number(sizes, p);
    OffsetBound(sizes);
    var n := Offset(sizes, 15);
    forall p | p in k ensures f(p) < n { NumberRange(sizes, m, p); }
    forall p, q | p in k && q in k && f(p) == f(q) ensures p == q { NumberInjective(sizes, m, p, q); }
    OffsetMono(sizes, 10, 15);
    InjectiveCard(k, f, n);
  }

  /** With one coded symbol, inner strings differ in length. */
  lemma SingleBudget(sizes: seq<nat>, m: nat, k: set<seq<bool>>)
    requires Lengths(sizes) && Used(sizes, 15) <= 1
    requires forall p :: p in k ==> Inner(sizes, m, p)
    ensures |k| <= 15
  {
    hide First, Count, Used;
    var f := (p: seq<bool>) => |p|;
    forall p, q | p in k && q in k && f(p) == f(q) ensures p == q {
      var s :| Owns(sizes, m, s, p);
      var t :| Owns(sizes, m, t, q);
      OneSymbol(sizes, s, t);
      assert p == Word(sizes, s)[..|p|] && q == Word(sizes, t)[..|q|];
    }
    InjectiveCard(k, f, 15);
  }

  lemma {:induction false} TwoUsed(sizes: seq<nat>, s: nat, t: nat)
    requires s < t < |sizes| && 1 <= sizes[s] <= 15 && 1 <= sizes[t] <= 15
    ensures Used(sizes, 15) >= 2
  {
    var n := |sizes| - 1;
    UsedLast(sizes, 15);
    if t < n {
      TwoUsed(sizes[..n], s, t);
    } else {
      SomeUsed(sizes[..n], s);
    }
  }

  lemma {:induction false} SomeUsed(sizes: seq<nat>, s: nat)
    requires s < |sizes| && 1 <= sizes[s] <= 15
    ensures Used(sizes, 15) >= 1
  {
    UsedLast(sizes, 15);
    if s < |sizes| - 1 {
      SomeUsed(sizes[..|sizes| - 1], s);
    }
  }

  lemma OneSymbol(sizes: seq<nat>, s: nat, t: nat)
    requires Used(sizes, 15) <= 1 && s < |sizes| && t < |sizes|
    requires 1 <= sizes[s] <= 15 && 1 <= sizes[t] <= 15
    ensures s == t
  {
    if s < t { TwoUsed(sizes, s, t); }
    if t < s { TwoUsed(sizes, t, s); }
  }

  /** The overflow tree of an accepted code never needs more than its 288 pairs. */
  lemma Budget(sizes: seq<nat>, m: nat, k: set<seq<bool>>)
    requires Accepted(sizes) && forall p :: p in k ==> Inner(sizes, m, p)
    ensures |k| <= 287
  {
    hide Inner, Used, First;
    AcceptedFits(sizes);
    if Complete(sizes) { CompleteBudget(sizes, m, k); } else { SingleBudget(sizes, m, k); }
  }
}
