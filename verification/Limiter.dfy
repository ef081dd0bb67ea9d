/** Limiting code lengths: counts of codes per length are rebalanced so that no
    length exceeds the limit and the code stays complete. */
module LengthLimit {
  import opened Kraft

  const MAX_SUPPORTED := 32

  /** Codes counted at lengths 1 up to `k`. */
  ghost function Codes(c: seq<int>, k: nat): int
    requires k < |c|
  {
    if k == 0 then 0 else Codes(c, k - 1) + c[k]
  }

  /** Kraft sum of the codes at lengths 1 up to `k`, in units of two to the minus `m`. */
  ghost function Fill(c: seq<int>, m: nat, k: nat): int
    requires k < |c| && k <= m
  {
    if k == 0 then 0 else Fill(c, m, k - 1) + c[k] * Pow2(m - k)
  }

  ghost predicate NonNegative(c: seq<int>) {
    forall i :: 0 <= i < |c| ==> c[i] >= 0
  }

  lemma {:induction false} CodesUpdate(c: seq<int>, i: nat, v: int, k: nat)
    requires 1 <= i < |c| && k < |c|
    ensures Codes(c[i := v], k) == Codes(c, k) + (if i <= k then v - c[i] else 0)
    decreases k
  {
    if k > 0 { CodesUpdate(c, i, v, k - 1); }
  }

  lemma {:induction false} FillUpdate(c: seq<int>, m: nat, i: nat, v: int, k: nat)
    requires 1 <= i < |c| && k < |c| && k <= m && i <= m
    ensures Fill(c[i := v], m, k) == Fill(c, m, k) + (if i <= k then (v - c[i]) * Pow2(m - i) else 0)
    decreases k
  {
    if k > 0 {
      FillUpdate(c, m, i, v, k - 1);
      if i == k { Spread(v, c[i], Pow2(m - i)); }
    }
  }

  lemma Spread(v: int, u: int, p: int)
    ensures v * p == u * p + (v - u) * p
  {
  }

  /** Codes longer than `m` take less than half a unit each. */
  lemma {:induction false} LongTail(c: seq<int>, m: nat, k: nat, n: nat)
    requires NonNegative(c) && m <= k < |c| && k <= n && m < n
    ensures Fill(c, n, m) <= Fill(c, n, k)
    ensures Codes(c, m) <= Codes(c, k)
    ensures Fill(c, n, k) - Fill(c, n, m) <= (Codes(c, k) - Codes(c, m)) * Pow2(n - m - 1)
    ensures Codes(c, k) > Codes(c, m) ==> Fill(c, n, k) > Fill(c, n, m)
    decreases k
  {
    if k > m {
      LongTail(c, m, k - 1, n);
      Pow2Mono(n - k, n - m - 1);
      TailStep(c[k], Pow2(n - k), Pow2(n - m - 1), Codes(c, k - 1) - Codes(c, m), Fill(c, n, k - 1) - Fill(c, n, m));
    }
  }

  lemma TailStep(x: int, p: int, half: int, codes: int, fill: int)
    requires x >= 0 && 1 <= p <= half && fill <= codes * half
    ensures x * p >= x && fill + x * p <= (codes + x) * half
  {
    MulOrder(x, 1, p);
    MulOrder(x, p, half);
    MulDistributes(half, codes, x);
  }

  /** Sums at two scales. */
  lemma {:induction false} FillRescale(c: seq<int>, m: nat, n: nat, k: nat)
    requires k < |c| && k <= m <= n
    ensures Fill(c, n, k) == Pow2(n - m) * Fill(c, m, k)
    decreases k
  {
    if k > 0 {
      FillRescale(c, m, n, k - 1);
      Pow2Add(n - m, m - k);
      RescaleTerm(c[k], Pow2(n - m), Pow2(m - k), Fill(c, m, k - 1));
    }
  }

  lemma RescaleTerm(x: int, a: int, b: int, s: int)
    ensures a * s + x * (a * b) == a * (s + x * b)
  {
  }

  /** Folding all longer codes to length `m` overfills the code by less than their number. */
  lemma Excess(c: seq<int>, m: nat)
    requires |c| == 33 && NonNegative(c) && 1 <= m < 32 && Fill(c, 32, 32) == Pow2(32)
    ensures var long := Codes(c, 32) - Codes(c, m);
      && long >= 0 && Fill(c, m, m) + long >= Pow2(m)
      && (long == 0 ==> Fill(c, m, m) == Pow2(m))
      && (long > 0 ==> Fill(c, m, m) < Pow2(m))
  {
    hide Fill, Codes, Pow2;
    LongTail(c, m, 32, 32);
    FillRescale(c, m, 32, m);
    Pow2Add(32 - m, m);
    var long, short, p := Codes(c, 32) - Codes(c, m), Fill(c, m, m), Pow2(32 - m);
    Pow2Half(32 - m);
    ExcessArithmetic(long, short, Pow2(m), p, Pow2(31 - m));
  }

  lemma ExcessArithmetic(long: int, short: int, whole: int, p: int, half: int)
    requires p == 2 * half && half >= 1 && long >= 0
    requires p * short <= p * whole
    requires p * whole - p * short <= long * half
    requires long > 0 ==> p * short < p * whole
    ensures short + long >= whole
    ensures long == 0 ==> short == whole
    ensures long > 0 ==> short < whole
  {
    if short > whole { MulOrder(p, whole + 1, short); }
    if short + long < whole {
      MulOrder(p, long + 1, whole - short);
      MulDistributes(p, whole, -short);
      MulOrder(half, 0, long + 2);
    }
  }

  /** What the limiter keeps: no negative count, all `n` codes at lengths up to `max`,
      and the Kraft sum `total`. */
  ghost predicate Balanced(c: seq<int>, max: nat, n: int, total: int) {
    |c| == 33 && 1 <= max < 32 && NonNegative(c) && Codes(c, max) == n && Fill(c, max, max) == total
  }

  /** Adds all counts beyond `max` to the count at `max`. */
  method FoldLong(numCodes: array<int>, max: nat)
    requires numCodes.Length == 33 && 1 <= max < 32 && NonNegative(numCodes[..])
    requires Fill(numCodes[..], 32, 32) == Pow2(32)
    modifies numCodes
    ensures Balanced(numCodes[..], max, old(Codes(numCodes[..], 32)), Fill(numCodes[..], max, max))
    ensures Pow2(max) <= Fill(numCodes[..], max, max)
    ensures Fill(numCodes[..], max, max) == Pow2(max) || Fill(numCodes[..], max, max) - Pow2(max) < numCodes[max]
    ensures forall j :: 0 <= j < 33 && j != max ==> numCodes[j] == old(numCodes[j])
    ensures old(Codes(numCodes[..], 32) == Codes(numCodes[..], max)) ==>
      numCodes[..] == old(numCodes[..]) && Fill(numCodes[..], max, max) == Pow2(max)
  {
    hide Fill, Codes, Pow2;
    ghost var c := numCodes[..];
    Excess(c, max);
    var i := max + 1;
    while i <= MAX_SUPPORTED
      invariant max + 1 <= i <= 33
      invariant numCodes[..] == c[max := c[max] + (Codes(c, i - 1) - Codes(c, max))]
    {
      CodesStep(c, i);
      numCodes[max] := numCodes[max] + numCodes[i];
      i := i + 1;
    }
    ghost var long := Codes(c, 32) - Codes(c, max);
    CodesUpdate(c, max, c[max] + long, max);
    FillUpdate(c, max, max, c[max] + long, max);
    assert (c[max] + long - c[max]) * Pow2(0) == long by { Pow2Zero(); }
  }

  lemma CodesStep(c: seq<int>, i: nat)
    requires 1 <= i < |c|
    ensures Codes(c, i) == Codes(c, i - 1) + c[i]
  {
  }

  /** The Kraft sum, added up from the longest length down. */
  method SumFill(numCodes: array<int>, max: nat) returns (total: int)
    requires numCodes.Length == 33 && 1 <= max < 32
    ensures total == Fill(numCodes[..], max, max)
  {
    hide Fill, Pow2;
    total := 0;
    var i := max;
    while i > 0
      invariant 0 <= i <= max
      invariant total + Fill(numCodes[..], max, i) == Fill(numCodes[..], max, max)
    {
      FillStep(numCodes[..], max, i);
      total := total + numCodes[i] * Pow2(max - i);
      i := i - 1;
    }
    FillNone(numCodes[..], max);
  }

  lemma FillStep(c: seq<int>, m: nat, i: nat)
    requires 1 <= i < |c| && i <= m
    ensures Fill(c, m, i) == Fill(c, m, i - 1) + c[i] * Pow2(m - i)
  {
  }

  lemma FillNone(c: seq<int>, m: nat)
    requires |c| > 0
    ensures Fill(c, m, 0) == 0
  {
  }

  /** If no shorter code is left, the codes do not overfill. */
  lemma {:induction false} OnlyLongest(c: seq<int>, m: nat, k: nat)
    requires k <= m < |c| && forall i :: 1 <= i <= k ==> c[i] == 0
    ensures Codes(c, k) == 0 && Fill(c, m, k) == 0
    decreases k
  {
    if k > 0 { OnlyLongest(c, m, k - 1); }
  }

  /** One code of length `max` less, one of length `i` less, two more of length `i + 1`. */
  ghost function Dropped(c: seq<int>, max: nat, i: nat): seq<int>
    requires i < max < |c|
  {
    var a := c[max := c[max] - 1];
    var b := a[i := a[i] - 1];
    b[i + 1 := b[i + 1] + 2]
  }

  /** Codes and Kraft sum up to `k` after a drop. */
  lemma DroppedSums(c: seq<int>, max: nat, i: nat, k: nat)
    requires 1 <= i < max < |c| && k <= max
    ensures var e := Dropped(c, max, i);
      && Codes(e, k) == Codes(c, k) - (if k == max then 1 else 0) - (if i <= k then 1 else 0) + (if i < k then 2 else 0)
      && Fill(e, max, k) == Fill(c, max, k) - (if k == max then 1 else 0)
        - (if i <= k then Pow2(max - i) else 0) + (if i < k then Pow2(max - i) else 0)
  {
    hide Fill, Codes, Pow2;
    var a := c[max := c[max] - 1];
    var b := a[i := a[i] - 1];
    CodesUpdate(c, max, c[max] - 1, k);
    CodesUpdate(a, i, a[i] - 1, k);
    CodesUpdate(b, i + 1, b[i + 1] + 2, k);
    FillUpdate(c, max, max, c[max] - 1, k);
    FillUpdate(a, max, i, a[i] - 1, k);
    FillUpdate(b, max, i + 1, b[i + 1] + 2, k);
    Pow2Zero();
    Pow2Half(max - i);
  }

  /** One longest code is dropped and a shorter one at `i` becomes two of length `i + 1`. */
  lemma Rebalance(c: seq<int>, max: nat, n: int, total: int, i: nat)
    requires Balanced(c, max, n, total) && 1 <= i < max && c[i] > 0 && c[max] > 0
    ensures Balanced(Dropped(c, max, i), max, n, total - 1)
  {
    hide Fill, Codes, Pow2;
    DroppedSums(c, max, i, max);
  }

  /** Drops one longest code and lengthens one of the longest shorter ones. */
  method DropOne(numCodes: array<int>, max: nat, ghost n: int, ghost total: int) returns (ghost at: nat)
    requires numCodes.Length == 33 && Balanced(numCodes[..], max, n, total)
    requires n <= Pow2(max) < total && numCodes[max] > 0
    modifies numCodes
    ensures Balanced(numCodes[..], max, n, total - 1) && numCodes[max] >= old(numCodes[max]) - 1
    ensures 1 <= at < max && numCodes[..] == Dropped(old(numCodes[..]), max, at)
    ensures forall j :: at < j < max ==> old(numCodes[j]) == 0
  {
    hide Fill, Codes, Pow2;
    ghost var c := numCodes[..];
    numCodes[max] := numCodes[max] - 1;
    var i := max - 1;
    while i > 0 && numCodes[i] == 0
      invariant 0 <= i < max && numCodes[..] == c[max := c[max] - 1]
      invariant forall j :: i < j < max ==> c[j] == 0
    {
      i := i - 1;
    }
    if i == 0 {
      OnlyLongest(c, max, max - 1);
      CodesStep(c, max);
      FillStep(c, max, max);
      Pow2Zero();
      assert false;
    } else {
      Rebalance(c, max, n, total, i);
      numCodes[i] := numCodes[i] - 1;
      numCodes[i + 1] := numCodes[i + 1] + 2;
      at := i;
    }
  }

  // ---- What limiting leaves alone.

  /** Lengths below `d` have kept their codes. If codes of length `d` were lengthened, then the
      last time this happened the codes up to there, and all others at the limit, overfilled the
      code. */
  ghost predicate Kept(was: seq<int>, c: seq<int>, max: nat, n: int, d: nat) {
    && |was| == 33 && |c| == 33 && 1 <= d <= max < 32
    && (forall j :: 0 <= j < d ==> c[j] == was[j])
    && (d < max ==> c[d] < was[d] && Fill(c, max, d) + Pow2(max - d) + (n - Codes(c, d)) - 1 > Pow2(max))
  }

  lemma {:induction false} NoneBetween(c: seq<int>, max: nat, i: nat, k: nat)
    requires i <= k < max < |c| && forall j :: i < j < max ==> c[j] == 0
    ensures Codes(c, k) == Codes(c, i) && Fill(c, max, k) == Fill(c, max, i)
    decreases k
  {
    if i < k { NoneBetween(c, max, i, k - 1); }
  }

  /** Dropping a code keeps this, at the lowest length lengthened so far. */
  lemma KeptNext(was: seq<int>, c: seq<int>, max: nat, n: int, total: int, d: nat, i: nat)
    requires Kept(was, c, max, n, d) && Balanced(c, max, n, total) && total > Pow2(max)
    requires 1 <= i < max && forall j :: i < j < max ==> c[j] == 0
    ensures Kept(was, Dropped(c, max, i), max, n, if i <= d then i else d)
  {
    hide Fill, Codes, Pow2;
    if i <= d {
      DroppedSums(c, max, i, i);
      NoneBetween(c, max, i, max - 1);
      CodesStep(c, max);
      FillStep(c, max, max);
      Pow2Zero();
    } else {
      DroppedSums(c, max, i, d);
    }
  }

  /** Limits all lengths to `max`, keeping the number of codes and a complete code;
      changes nothing when no length is over the limit. */
  method EnforceMaxCodeSize(numCodes: array<int>, codeListLen: int, max: nat) returns (ghost d: nat)
    requires numCodes.Length == 33 && 1 <= max <= 15 && NonNegative(numCodes[..])
    requires codeListLen == Codes(numCodes[..], 32) <= Pow2(max)
    requires codeListLen > 1 ==> Fill(numCodes[..], 32, 32) == Pow2(32)
    modifies numCodes
    ensures codeListLen <= 1 ==> numCodes[..] == old(numCodes[..])
    ensures codeListLen > 1 ==> Balanced(numCodes[..], max, codeListLen, Pow2(max)) && numCodes[0] == old(numCodes[0])
    ensures old(Codes(numCodes[..], 32) == Codes(numCodes[..], max)) ==> numCodes[..] == old(numCodes[..])
    ensures codeListLen > 1 ==> Kept(old(numCodes[..]), numCodes[..], max, codeListLen, d)
  {
    hide Fill, Codes, Pow2, Balanced, Dropped;
    ghost var was := numCodes[..];
    d := max;
    if codeListLen <= 1 { return; }
    FoldLong(numCodes, max);
    var total := SumFill(numCodes, max);
    while total != Pow2(max)
      invariant Balanced(numCodes[..], max, codeListLen, total) && Pow2(max) <= total
      invariant total == Pow2(max) || total - Pow2(max) < numCodes[max]
      invariant Kept(was, numCodes[..], max, codeListLen, d)
      invariant old(Codes(numCodes[..], 32) == Codes(numCodes[..], max)) ==>
        numCodes[..] == old(numCodes[..]) && total == Pow2(max)
      decreases total - Pow2(max)
    {
      ghost var c := numCodes[..];
      ghost var i := DropOne(numCodes, max, codeListLen, total);
      KeptNext(was, c, max, codeListLen, total, d, i);
      d := if i <= d then i else d;
      total := total - 1;
    }
  }
}
