/** The symbols of a block that occur, and what it costs to send them. */
module UsedSymbols {
  import opened Kraft
  import MergeTrace
  import opened MinimumRedundancy
  import opened Canonical

  /** Records for the symbols below `k` with a nonzero count. */
  ghost function UsedList(counts: seq<nat>, k: nat): seq<SymFreq>
    requires k <= |counts|
  {
    if k == 0 then []
    else UsedList(counts, k - 1) + (if counts[k - 1] > 0 then [SymFreq(counts[k - 1], k - 1)] else [])
  }

  ghost predicate Listed(counts: seq<nat>, s: seq<SymFreq>) {
    forall i :: 0 <= i < |s| ==> s[i].sym < |counts| && s[i].key == counts[s[i].sym] > 0
  }

  ghost predicate Distinct(s: seq<SymFreq>) {
    forall i, j :: 0 <= i < j < |s| ==> s[i].sym != s[j].sym
  }

  lemma {:induction false} UsedListed(counts: seq<nat>, k: nat)
    requires k <= |counts|
    ensures Listed(counts, UsedList(counts, k)) && Distinct(UsedList(counts, k))
    ensures forall i :: 0 <= i < |UsedList(counts, k)| ==> UsedList(counts, k)[i].sym < k
    ensures |UsedList(counts, k)| <= k
  {
    if k > 0 { UsedListed(counts, k - 1); }
  }

  lemma {:induction false} UsedAll(counts: seq<nat>, k: nat, i: nat)
    requires i < k <= |counts| && counts[i] > 0
    ensures SymFreq(counts[i], i) in UsedList(counts, k)
  {
    if i < k - 1 { UsedAll(counts, k - 1, i); }
  }

  lemma {:induction false} UsedSum(counts: seq<nat>, k: nat)
    requires k <= |counts|
    ensures Sum(Keys(UsedList(counts, k))) == Sum(counts[..k])
  {
    hide Sum;
    if k == 0 {
      assert Keys(UsedList(counts, 0)) == counts[..0];
    } else {
      UsedSum(counts, k - 1);
      assert counts[..k] == counts[..k - 1] + [counts[k - 1]];
      MergeTrace.SumAppend(counts[..k - 1], counts[k - 1]);
      if counts[k - 1] > 0 {
        var s := UsedList(counts, k - 1);
        assert Keys(s + [SymFreq(counts[k - 1], k - 1)]) == Keys(s) + [counts[k - 1]];
        MergeTrace.SumAppend(Keys(s), counts[k - 1]);
      } else {
        assert UsedList(counts, k) == UsedList(counts, k - 1);
      }
    }
  }

  lemma {:induction false} Once(s: seq<SymFreq>, x: SymFreq)
    requires Distinct(s)
    ensures multiset(s)[x] <= 1
  {
    if s != [] {
      var t := s[..|s| - 1];
      assert s == t + [s[|s| - 1]];
      Once(t, x);
      if x == s[|s| - 1] {
        assert x !in t;
      }
    }
  }

  lemma Twice(s: seq<SymFreq>, i: nat, j: nat)
    requires i < j < |s| && s[i] == s[j]
    ensures multiset(s)[s[i]] >= 2
  {
    assert s == s[..j] + ([s[j]] + s[j + 1..]);
    assert s[..j][i] == s[i];
    assert s[i] in multiset(s[..j]);
  }

  /** Sorting keeps the records listed and distinct. */
  lemma SortedListed(counts: seq<nat>, s: seq<SymFreq>, t: seq<SymFreq>)
    requires Listed(counts, s) && Distinct(s) && multiset(s) == multiset(t)
    ensures Listed(counts, t) && Distinct(t) && |s| == |t|
  {
    assert |multiset(s)| == |s| && |multiset(t)| == |t|;
    forall i | 0 <= i < |t| ensures t[i].sym < |counts| && t[i].key == counts[t[i].sym] > 0 {
      assert t[i] in multiset(t);
      assert t[i] in s;
    }
    forall i, j | 0 <= i < j < |t| ensures t[i].sym != t[j].sym {
      if t[i].sym == t[j].sym {
        Twice(t, i, j);
        Once(s, t[i]);
      }
    }
  }

  /** The sum of `g` over the records. */
  ghost function Total(s: seq<SymFreq>, g: SymFreq -> nat): nat {
    if s == [] then 0 else g(s[0]) + Total(s[1..], g)
  }

  lemma {:induction false} TotalRemove(t: seq<SymFreq>, g: SymFreq -> nat, i: nat)
    requires i < |t|
    ensures Total(t, g) == g(t[i]) + Total(t[..i] + t[i + 1..], g)
  {
    if i == 0 {
      assert t[..0] + t[1..] == t[1..];
    } else {
      TotalRemove(t[1..], g, i - 1);
      assert (t[..i] + t[i + 1..])[1..] == t[1..][..i - 1] + t[1..][i..];
    }
  }

  lemma TakeOut(t: seq<SymFreq>, g: SymFreq -> nat, x: SymFreq) returns (u: seq<SymFreq>)
    requires x in t
    ensures multiset(u) == multiset(t) - multiset{x} && |u| < |t|
    ensures Total(t, g) == g(x) + Total(u, g)
  {
    hide Total;
    var i :| 0 <= i < |t| && t[i] == x;
    u := t[..i] + t[i + 1..];
    assert t == t[..i] + ([x] + t[i + 1..]);
    TotalRemove(t, g, i);
  }

  /** Sums do not depend on the order of the records. */
  lemma {:induction false} TotalPermuted(s: seq<SymFreq>, t: seq<SymFreq>, g: SymFreq -> nat)
    requires multiset(s) == multiset(t)
    ensures Total(s, g) == Total(t, g)
    decreases |s|
  {
    hide Total;
    if s == [] {
      assert |multiset(t)| == |t|;
      assert s == t;
    } else {
      assert s[0] in multiset(t);
      var u := TakeOut(s, g, s[0]);
      var v := TakeOut(t, g, s[0]);
      TotalPermuted(u, v, g);
    }
  }

  ghost function Key(): SymFreq -> nat {
    (r: SymFreq) => r.key
  }

  lemma {:induction false} KeysTotal(s: seq<SymFreq>)
    ensures Sum(Keys(s)) == Total(s, Key())
  {
    if s != [] {
      KeysTotal(s[1..]);
      assert Keys(s)[1..] == Keys(s[1..]);
    }
  }

  method CollectUsed(counts: seq<nat>) returns (syms: seq<SymFreq>)
    ensures syms == UsedList(counts, |counts|)
  {
    syms := [];
    var i := 0;
    while i < |counts|
      invariant 0 <= i <= |counts| && syms == UsedList(counts, i)
    {
      if counts[i] > 0 {
        syms := syms + [SymFreq(counts[i], i)];
      }
      i := i + 1;
    }
  }

  // ---- What a table costs.

  ghost predicate InTable(s: seq<SymFreq>, n: nat) {
    forall k :: 0 <= k < |s| ==> s[k].sym < n
  }

  /** The lengths that `sizes` gives to the symbols of `s`, in the order of `s`. */
  ghost function LengthsIn(s: seq<SymFreq>, sizes: seq<nat>): (r: seq<nat>)
    requires InTable(s, |sizes|)
    ensures |r| == |s| && forall k :: 0 <= k < |s| ==> r[k] == sizes[s[k].sym]
  {
    seq(|s|, k requires 0 <= k < |s| => sizes[s[k].sym])
  }

  /** Lengths with room for a prefix code over the symbols that occur. */
  ghost predicate Feasible(counts: seq<nat>, sizes: seq<nat>, m: nat) {
    var used := UsedList(counts, |counts|);
    && |sizes| == |counts| && InTable(used, |sizes|) && Bounded(LengthsIn(used, sizes), m)
    && KraftSum(LengthsIn(used, sizes), m) <= Pow2(m)
  }

  /** No prefix code sends symbols with these counts in fewer bits. */
  ghost predicate Shortest(counts: seq<nat>, sizes: seq<nat>) {
    |sizes| == |counts| &&
    forall other: seq<nat>, m: nat ::
      Feasible(counts, other, m) ==> WeightedLength(counts, sizes) <= WeightedLength(counts, other)
  }

  /** Any prefix code saves at most `over / per` bits for each symbol sent. */
  ghost predicate NearlyShortest(counts: seq<nat>, sizes: seq<nat>, over: nat, per: nat) {
    |sizes| == |counts| &&
    forall other: seq<nat>, m: nat ::
      Feasible(counts, other, m) ==>
        per * (WeightedLength(counts, sizes) - WeightedLength(counts, other)) <= over * Sum(counts)
  }

  ghost function Price(sizes: seq<nat>): SymFreq -> nat {
    (r: SymFreq) => if r.sym < |sizes| then r.key * sizes[r.sym] else 0
  }

  ghost function Room(sizes: seq<nat>, m: nat): SymFreq -> nat {
    (r: SymFreq) => if r.sym < |sizes| && sizes[r.sym] <= m then Pow2(m - sizes[r.sym]) else 0
  }

  lemma {:induction false} TotalPrice(s: seq<SymFreq>, sizes: seq<nat>)
    requires InTable(s, |sizes|)
    ensures WeightedLength(Keys(s), LengthsIn(s, sizes)) == Total(s, Price(sizes))
  {
    if s != [] {
      TotalPrice(s[1..], sizes);
      assert Keys(s)[1..] == Keys(s[1..]) && LengthsIn(s, sizes)[1..] == LengthsIn(s[1..], sizes);
    }
  }

  lemma {:induction false} TotalRoom(s: seq<SymFreq>, sizes: seq<nat>, m: nat)
    requires InTable(s, |sizes|) && Bounded(LengthsIn(s, sizes), m)
    ensures KraftSum(LengthsIn(s, sizes), m) == Total(s, Room(sizes, m))
  {
    hide Pow2;
    if s != [] {
      var t := LengthsIn(s, sizes);
      assert t[1..] == LengthsIn(s[1..], sizes);
      assert forall k :: 0 <= k < |t| - 1 ==> t[1..][k] == t[k + 1];
      TotalRoom(s[1..], sizes, m);
      assert t[0] == sizes[s[0].sym] <= m;
    }
  }

  lemma CostOne(w: nat, z: nat)
    ensures WeightedLength([w], [z]) == w * z
  {
    assert [w][1..] == [] && [z][1..] == [];
  }

  /** Neither cost nor room depends on the order of the symbols. */
  lemma CostPermuted(s: seq<SymFreq>, t: seq<SymFreq>, sizes: seq<nat>)
    requires multiset(s) == multiset(t) && InTable(s, |sizes|) && InTable(t, |sizes|)
    ensures WeightedLength(Keys(s), LengthsIn(s, sizes)) == WeightedLength(Keys(t), LengthsIn(t, sizes))
  {
    hide *;
    TotalPrice(s, sizes);
    TotalPrice(t, sizes);
    TotalPermuted(s, t, Price(sizes));
  }

  lemma RoomPermuted(s: seq<SymFreq>, t: seq<SymFreq>, sizes: seq<nat>, m: nat)
    requires multiset(s) == multiset(t) && InTable(s, |sizes|) && InTable(t, |sizes|)
    requires Bounded(LengthsIn(s, sizes), m)
    ensures Bounded(LengthsIn(t, sizes), m)
    ensures KraftSum(LengthsIn(s, sizes), m) == KraftSum(LengthsIn(t, sizes), m)
  {
    hide *;
    BoundedPermuted(s, t, sizes, m);
    TotalRoom(s, sizes, m);
    TotalRoom(t, sizes, m);
    TotalPermuted(s, t, Room(sizes, m));
  }

  lemma BoundedPermuted(s: seq<SymFreq>, t: seq<SymFreq>, sizes: seq<nat>, m: nat)
    requires multiset(s) == multiset(t) && InTable(s, |sizes|) && InTable(t, |sizes|)
    requires Bounded(LengthsIn(s, sizes), m)
    ensures Bounded(LengthsIn(t, sizes), m)
  {
    forall k | 0 <= k < |t| ensures LengthsIn(t, sizes)[k] <= m {
      assert t[k] in multiset(s);
      var i :| 0 <= i < |s| && s[i] == t[k];
      assert LengthsIn(s, sizes)[i] <= m;
    }
  }

  /** Symbols that do not occur cost nothing. */
  lemma {:induction false} CostOfUsed(counts: seq<nat>, sizes: seq<nat>, k: nat)
    requires k <= |counts| == |sizes|
    ensures InTable(UsedList(counts, k), |sizes|)
    ensures WeightedLength(Keys(UsedList(counts, k)), LengthsIn(UsedList(counts, k), sizes))
      == WeightedLength(counts[..k], sizes[..k])
  {
    hide WeightedLength;
    UsedListed(counts, k);
    if k == 0 {
      assert Keys([]) == counts[..0] && LengthsIn([], sizes) == sizes[..0];
    } else {
      CostOfUsed(counts, sizes, k - 1);
      var w, z, s := counts[k - 1], sizes[k - 1], UsedList(counts, k - 1);
      assert counts[..k] == counts[..k - 1] + [w] && sizes[..k] == sizes[..k - 1] + [z];
      WeightedConcat(counts[..k - 1], [w], sizes[..k - 1], [z]);
      CostOne(w, z);
      if w > 0 {
        var t := s + [SymFreq(w, k - 1)];
        assert Keys(t) == Keys(s) + [w] && LengthsIn(t, sizes) == LengthsIn(s, sizes) + [z];
        WeightedConcat(Keys(s), [w], LengthsIn(s, sizes), [z]);
      } else {
        assert UsedList(counts, k) == s;
      }
    }
  }

  /** An optimum over the sorted symbols is one over the whole table. */
  lemma OptimalIsShortest(counts: seq<nat>, s: seq<SymFreq>, sizes: seq<nat>)
    requires |sizes| == |counts| && multiset(s) == multiset(UsedList(counts, |counts|)) && InTable(s, |counts|)
    requires Optimal(Keys(s), LengthsIn(s, sizes))
    ensures Shortest(counts, sizes)
  {
    hide WeightedLength, KraftSum, UsedList, Optimal;
    var used := UsedList(counts, |counts|);
    SortedCost(counts, s, sizes);
    forall other: seq<nat>, m: nat | Feasible(counts, other, m)
      ensures WeightedLength(counts, sizes) <= WeightedLength(counts, other)
    {
      SortedCost(counts, s, other);
      RoomPermuted(used, s, other, m);
      OptimalAt(Keys(s), LengthsIn(s, sizes), LengthsIn(s, other), m);
    }
  }

  /** The same for lengths that are nearly optimal. */
  lemma NearIsNearlyShortest(counts: seq<nat>, s: seq<SymFreq>, lens: seq<nat>, sizes: seq<nat>, over: nat, per: nat)
    requires |sizes| == |counts| && multiset(s) == multiset(UsedList(counts, |counts|)) && InTable(s, |counts|)
    requires |lens| == |s| && Optimal(Keys(s), lens)
    requires per * (WeightedLength(Keys(s), LengthsIn(s, sizes)) - WeightedLength(Keys(s), lens)) <= over * Sum(counts)
    ensures NearlyShortest(counts, sizes, over, per)
  {
    hide WeightedLength, KraftSum, UsedList, Optimal, Sum;
    var used := UsedList(counts, |counts|);
    SortedCost(counts, s, sizes);
    forall other: seq<nat>, m: nat | Feasible(counts, other, m)
      ensures per * (WeightedLength(counts, sizes) - WeightedLength(counts, other)) <= over * Sum(counts)
    {
      SortedCost(counts, s, other);
      RoomPermuted(used, s, other, m);
      OptimalAt(Keys(s), lens, LengthsIn(s, other), m);
      MulOrder(per, WeightedLength(counts, sizes) - WeightedLength(counts, other),
               WeightedLength(counts, sizes) - WeightedLength(Keys(s), lens));
    }
  }

  lemma SortedCost(counts: seq<nat>, s: seq<SymFreq>, sizes: seq<nat>)
    requires |sizes| == |counts| && multiset(s) == multiset(UsedList(counts, |counts|)) && InTable(s, |counts|)
    ensures WeightedLength(Keys(s), LengthsIn(s, sizes)) == WeightedLength(counts, sizes)
  {
    hide WeightedLength, KraftSum, UsedList, Pow2;
    var used := UsedList(counts, |counts|);
    CostOfUsed(counts, sizes, |counts|);
    assert counts[..|counts|] == counts && sizes[..|sizes|] == sizes;
    CostPermuted(used, s, sizes);
  }

  // ---- Counts determine falling lengths.

  lemma {:induction false} CountPositive(sizes: seq<nat>, x: nat)
    requires x < |sizes|
    ensures Count(sizes, sizes[x]) > 0
  {
    RankAscends(sizes, x, |sizes|);
    assert sizes[..|sizes|] == sizes;
  }

  lemma {:induction false} CountedIsThere(sizes: seq<nat>, len: nat) returns (x: nat)
    requires Count(sizes, len) > 0
    ensures x < |sizes| && sizes[x] == len
  {
    x := |sizes| - 1;
    if sizes[x] != len { x := CountedIsThere(sizes[..x], len); }
  }

  /** Two falling sequences with the same number of each length are the same. */
  lemma {:induction false} SameCounts(a: seq<nat>, b: seq<nat>, d: nat)
    requires Falling(a, d) && Falling(b, d) && |a| == |b|
    requires forall len :: 1 <= len <= d ==> Count(a, len) == Count(b, len)
    ensures a == b
    decreases |a|
  {
    hide Count;
    if a != [] {
      var n := |a| - 1;
      CountPositive(a, n);
      CountPositive(b, n);
      var i := CountedIsThere(b, a[n]);
      var j := CountedIsThere(a, b[n]);
      forall len | 1 <= len <= d ensures Count(a[..n], len) == Count(b[..n], len) {
        CountLast(a, len);
        CountLast(b, len);
      }
      SameCounts(a[..n], b[..n], d);
      assert a == a[..n] + [a[n]] && b == b[..n] + [b[n]];
    }
  }

}
