/** From symbol counts to code lengths and codes: the encoder's table for one block. */
module HuffmanTable {
  import opened Kraft
  import opened MergeBound
  import opened MergeLevels
  import opened MinimumRedundancy
  import opened RadixSort
  import opened LengthLimit
  import opened UsedSymbols
  import opened LimitCost
  import LightPrefix
  import opened Bits
  import opened Canonical

  // ---- Counting lengths.

  /** `c[len]` counts the lengths `len`, from 1 to 32. */
  ghost predicate Tally(c: seq<int>, lens: seq<nat>) {
    |c| == 33 && c[0] == 0 && forall len :: 1 <= len <= 32 ==> c[len] == Count(lens, len)
  }

  ghost predicate Between1And32(lens: seq<nat>) {
    forall i :: 0 <= i < |lens| ==> 1 <= lens[i] <= 32
  }

  /** Counts add up to the number of codes, and to their Kraft sum. */
  lemma {:induction false} TallySums(c: seq<int>, lens: seq<nat>)
    requires Tally(c, lens) && Between1And32(lens)
    ensures Codes(c, 32) == |lens|
    ensures Bounded(lens, 32) && Fill(c, 32, 32) == KraftSum(lens, 32)
    decreases |lens|
  {
    hide Count, Codes, Fill, KraftSum;
    if lens == [] {
      NoneCounted(c, 32, 32);
      assert KraftSum([], 32) == 0 by { KraftNone(32); }
    } else {
      var n := |lens| - 1;
      var x := lens[n];
      var d := c[x := c[x] - 1];
      forall len: nat ensures Count(lens, len) == Count(lens[..n], len) + (if x == len then 1 else 0) {
        CountLast(lens, len);
      }
      TallySums(d, lens[..n]);
      CodesUpdate(c, x, c[x] - 1, 32);
      FillUpdate(c, 32, x, c[x] - 1, 32);
      assert lens == lens[..n] + [x];
      KraftConcat(lens[..n], [x], 32);
      KraftOne(x, 32);
      MinusOne(c[x], Pow2(32 - x));
    }
  }

  lemma MinusOne(x: int, p: int)
    ensures (x - 1 - x) * p == -p
  {
  }

  /** A whole code is whole at scale 32. */
  lemma WholeAt32(lens: seq<nat>, n: nat)
    requires Bounded(lens, n) && Bounded(lens, 32) && KraftSum(lens, n) == Pow2(n)
    ensures KraftSum(lens, 32) == Pow2(32)
  {
    hide KraftSum, Pow2;
    if n <= 32 {
      KraftRescale(lens, 32, n);
      Pow2Add(32 - n, n);
    } else {
      KraftRescale(lens, n, 32);
      Pow2Add(n - 32, 32);
      MulCancel(Pow2(n - 32), KraftSum(lens, 32), Pow2(32));
    }
  }

  lemma MulCancel(a: nat, b: int, c: int)
    requires a >= 1 && a * b == a * c
    ensures b == c
  {
    if b < c { MulOrder(a, b + 1, c); MulDistributes(a, b, 1); }
    if c < b { MulOrder(a, c + 1, b); MulDistributes(a, c, 1); }
  }

  method TallyLengths(syms: array<SymFreq>) returns (numCodes: array<int>)
    requires Between1And32(Keys(syms[..]))
    ensures fresh(numCodes) && numCodes.Length == 33 && Tally(numCodes[..], Keys(syms[..]))
  {
    numCodes := new int[33](_ => 0);
    ghost var lens := Keys(syms[..]);
    var i := 0;
    while i < syms.Length
      invariant 0 <= i <= syms.Length && Keys(syms[..]) == lens
      invariant Tally(numCodes[..], lens[..i])
    {
      forall len: nat ensures Count(lens[..i + 1], len) == Count(lens[..i], len) + (if lens[i] == len then 1 else 0) {
        CountNext(lens, i, len);
      }
      numCodes[syms[i].key] := numCodes[syms[i].key] + 1;
      i := i + 1;
    }
    assert lens[..syms.Length] == lens;
  }

  // ---- Giving lengths to symbols.

  lemma {:induction false} CountUpdate(sizes: seq<nat>, x: nat, v: nat, len: nat)
    requires x < |sizes|
    ensures Count(sizes[x := v], len)
         == Count(sizes, len) + (if v == len then 1 else 0) - (if sizes[x] == len then 1 else 0)
  {
    var n := |sizes| - 1;
    if x < n {
      assert sizes[x := v][..n] == sizes[..n][x := v];
      CountUpdate(sizes[..n], x, v, len);
    } else {
      assert sizes[x := v][..n] == sizes[..n];
    }
  }

  lemma {:induction false} CountZeros(n: nat, len: nat)
    ensures Count(seq(n, _ => 0), len) == if len == 0 then n else 0
  {
    if n > 0 {
      var s: seq<nat> := seq(n, _ => 0);
      assert s[..n - 1] == seq(n - 1, _ => 0);
      CountZeros(n - 1, len);
    }
  }

  /** Lengths below `i` are all given out, `l` of length `i` are still to come. */
  ghost predicate Dealt(sizes: seq<nat>, c: seq<int>, i: nat, l: int) {
    && |c| == 33 && i <= 32
    && (forall len :: 1 <= len <= 32 ==>
      Count(sizes, len) == if len < i then c[len] else if len == i then c[i] - l else 0)
  }

  /** The heavier the symbol, the earlier it is dealt; `s[j..]` have their lengths, at most `i`. */
  ghost predicate Ranked(sizes: seq<nat>, s: seq<SymFreq>, j: nat, i: nat) {
    && j <= |s|
    && (forall k :: 0 <= k < |s| ==> s[k].sym < |sizes|)
    && (forall k :: j <= k < |s| ==> 1 <= sizes[s[k].sym] <= i)
    && (forall k, m :: j <= k < m < |s| ==> sizes[s[k].sym] >= sizes[s[m].sym])
    && (forall k :: 0 <= k < j ==> sizes[s[k].sym] == 0)
    && (forall x :: 0 <= x < |sizes| && sizes[x] > 0 ==> exists k :: j <= k < |s| && s[k].sym == x)
  }

  lemma DealOne(sizes: seq<nat>, c: seq<int>, i: nat, l: int, s: seq<SymFreq>, j: nat)
    requires Dealt(sizes, c, i, l) && l > 0 && 1 <= i
    requires Ranked(sizes, s, j, i) && Distinct(s) && j > 0
    ensures var x := s[j - 1].sym;
      && x < |sizes| && Dealt(sizes[x := i], c, i, l - 1) && Ranked(sizes[x := i], s, j - 1, i)
  {
    hide Count;
    var x := s[j - 1].sym;
    assert sizes[x] == 0;
    forall len | 1 <= len <= 32
      ensures Count(sizes[x := i], len) == if len < i then c[len] else if len == i then c[i] - (l - 1) else 0
    {
      CountUpdate(sizes, x, i, len);
      assert Count(sizes, len) == if len < i then c[len] else if len == i then c[i] - l else 0;
    }
    RankOne(sizes, s, j, i);
  }

  lemma RankOne(sizes: seq<nat>, s: seq<SymFreq>, j: nat, i: nat)
    requires Ranked(sizes, s, j, i) && Distinct(s) && j > 0 && 1 <= i
    ensures Ranked(sizes[s[j - 1].sym := i], s, j - 1, i)
  {
    var x := s[j - 1].sym;
    var sizes' := sizes[x := i];
    forall y | 0 <= y < |sizes'| && sizes'[y] > 0 ensures exists k :: j - 1 <= k < |s| && s[k].sym == y {
      if y == x {
        assert s[j - 1].sym == y;
      } else {
        var k :| j <= k < |s| && s[k].sym == y;
      }
    }
  }

  lemma RankLater(sizes: seq<nat>, s: seq<SymFreq>, j: nat, i: nat)
    requires Ranked(sizes, s, j, i)
    ensures Ranked(sizes, s, j, i + 1)
  {
  }

  /** The lengths dealt so far, heaviest symbol last, are counted in the same way. */
  lemma DealFront(sizes: seq<nat>, c: seq<int>, i: nat, l: int, s: seq<SymFreq>, j: nat)
    requires Distinct(s) && 0 < j <= |s| && InTable(s, |sizes|) && 1 <= i && l > 0
    requires Dealt(LengthsIn(s[j..], sizes), c, i, l)
    ensures Dealt(LengthsIn(s[j - 1..], sizes[s[j - 1].sym := i]), c, i, l - 1)
  {
    hide Count;
    var d, e := LengthsIn(s[j..], sizes), LengthsIn(s[j - 1..], sizes[s[j - 1].sym := i]);
    assert e == [i] + d;
    forall len: nat ensures Count(e, len) == Count(d, len) + (if len == i then 1 else 0) { CountFront(i, d, len); }
  }

  lemma {:induction false} CountFront(i: nat, d: seq<nat>, len: nat)
    ensures Count([i] + d, len) == Count(d, len) + (if len == i then 1 else 0)
  {
    if d == [] {
      assert [i] + d == [i] && [i][..0] == [];
    } else {
      var n := |d| - 1;
      CountFront(i, d[..n], len);
      assert ([i] + d)[..n + 1] == [i] + d[..n];
    }
  }

  lemma DealNext(sizes: seq<nat>, c: seq<int>, i: nat)
    requires Dealt(sizes, c, i, 0) && i < 32
    ensures Dealt(sizes, c, i + 1, c[i + 1])
  {
    hide Count;
  }

  /** Gives the counted lengths, shortest first, to the symbols from the most frequent down. */
  method DealLengths(syms: array<SymFreq>, numCodes: array<int>, limit: nat, tableLen: nat)
    returns (sizes: array<nat>)
    requires numCodes.Length == 33 && 1 <= limit <= 15 && NonNegative(numCodes[..])
    requires Codes(numCodes[..], limit) == syms.Length && Distinct(syms[..])
    requires forall k :: 0 <= k < syms.Length ==> syms[k].sym < tableLen
    ensures fresh(sizes) && sizes.Length == tableLen
    ensures forall len :: 1 <= len <= limit ==> Count(sizes[..], len) == numCodes[len]
    ensures forall len :: limit < len <= 32 ==> Count(sizes[..], len) == 0
    ensures Ranked(sizes[..], syms[..], 0, limit)
    ensures forall len :: 1 <= len <= limit ==> Count(LengthsIn(syms[..], sizes[..]), len) == numCodes[len]
  {
    hide Count, Codes, Distinct, Dealt, Ranked, LengthsIn;
    sizes := new nat[tableLen](_ => 0);
    ghost var c, s := numCodes[..], syms[..];
    var i, j := 1, syms.Length;
    DealStart(sizes[..], c, s);
    DealStart([], c, []);
    assert LengthsIn(s[j..], sizes[..]) == [];
    CodesNone(c);
    while i <= limit
      invariant 1 <= i <= limit + 1 && 0 <= j <= syms.Length && numCodes[..] == c && syms[..] == s
      invariant sizes.Length == tableLen
      invariant Dealt(sizes[..], c, i, c[i]) && Ranked(sizes[..], s, j, i)
      invariant Dealt(LengthsIn(s[j..], sizes[..]), c, i, c[i])
      invariant j == syms.Length - Codes(c, i - 1)
    {
      var l := numCodes[i];
      CodesStep(c, i);
      CodesMono(c, i, limit);
      while l > 0
        invariant 0 <= l <= c[i] && numCodes[..] == c && syms[..] == s && sizes.Length == tableLen
        invariant j == syms.Length - Codes(c, i) + l && 0 <= j <= syms.Length
        invariant Dealt(sizes[..], c, i, l) && Ranked(sizes[..], s, j, i)
        invariant Dealt(LengthsIn(s[j..], sizes[..]), c, i, l)
      {
        DealFront(sizes[..], c, i, l, s, j);
        DealOne(sizes[..], c, i, l, s, j);
        assert s[j - 1] == syms[j - 1];
        j := j - 1;
        sizes[syms[j].sym] := i;
        l := l - 1;
      }
      DealNext(sizes[..], c, i);
      DealNext(LengthsIn(s[j..], sizes[..]), c, i);
      RankLater(sizes[..], s, j, i);
      i := i + 1;
    }
    RankWithin(sizes[..], c, s, limit);
    assert s[0..] == s;
    DealtUpTo(LengthsIn(s, sizes[..]), c, limit);
  }

  lemma DealtUpTo(sizes: seq<nat>, c: seq<int>, limit: nat)
    requires |c| == 33 && limit < 32 && Dealt(sizes, c, limit + 1, c[limit + 1])
    ensures forall len :: 1 <= len <= limit ==> Count(sizes, len) == c[len]
  {
    hide Count;
  }

  lemma CodesNone(c: seq<int>)
    requires |c| > 0
    ensures Codes(c, 0) == 0
  {
  }

  lemma {:induction false} CodesMono(c: seq<int>, a: nat, b: nat)
    requires NonNegative(c) && a <= b < |c|
    ensures Codes(c, a) <= Codes(c, b)
    decreases b
  {
    if a < b { CodesMono(c, a, b - 1); }
  }

  lemma DealStart(sizes: seq<nat>, c: seq<int>, s: seq<SymFreq>)
    requires forall x :: 0 <= x < |sizes| ==> sizes[x] == 0
    requires |c| == 33 && forall k :: 0 <= k < |s| ==> s[k].sym < |sizes|
    ensures Dealt(sizes, c, 1, c[1]) && Ranked(sizes, s, |s|, 1)
  {
    assert sizes == seq(|sizes|, _ => 0);
    forall len: nat ensures Count(sizes, len) == if len == 0 then |sizes| else 0 { CountZeros(|sizes|, len); }
  }

  /** Once all lengths up to the limit are dealt, none is longer. */
  lemma RankWithin(sizes: seq<nat>, c: seq<int>, s: seq<SymFreq>, limit: nat)
    requires |c| == 33 && limit < 32 && Dealt(sizes, c, limit + 1, c[limit + 1]) && Ranked(sizes, s, 0, limit + 1)
    ensures Ranked(sizes, s, 0, limit)
    ensures forall len :: 1 <= len <= limit ==> Count(sizes, len) == c[len]
    ensures forall len :: limit < len <= 32 ==> Count(sizes, len) == 0
  {
    hide Count;
    forall k | 0 <= k < |s| ensures sizes[s[k].sym] <= limit {
      if sizes[s[k].sym] == limit + 1 {
        CountPositive(sizes, s[k].sym);
      }
    }
  }

  // ---- The dealt lengths form a code.

  lemma {:induction false} FirstIsFill(sizes: seq<nat>, c: seq<int>, len: nat)
    requires len < |c| && forall k :: 1 <= k <= len ==> c[k] == Count(sizes, k)
    ensures First(sizes, len + 1) == 2 * Fill(c, len, len)
  {
    hide Count, Pow2;
    if len > 0 {
      FirstIsFill(sizes, c, len - 1);
      FillRescale(c, len - 1, len, len - 1);
      Pow2Zero();
      Pow2Half(1);
      FirstNext(sizes, len);
    }
  }

  lemma {:induction false} FirstBeyond(sizes: seq<nat>, limit: nat, len: nat)
    requires 1 <= limit <= len && First(sizes, limit + 1) == Pow2(limit + 1)
    requires forall k :: limit < k <= len ==> Count(sizes, k) == 0
    ensures First(sizes, len + 1) == Pow2(len + 1)
    decreases len
  {
    hide Count;
    if limit < len {
      FirstBeyond(sizes, limit, len - 1);
      FirstNext(sizes, len);
    }
  }

  lemma DealtComplete(sizes: seq<nat>, c: seq<int>, limit: nat)
    requires |c| == 33 && 1 <= limit <= 15 && Fill(c, limit, limit) == Pow2(limit)
    requires forall len :: 1 <= len <= limit ==> Count(sizes, len) == c[len]
    requires forall len :: limit < len <= 32 ==> Count(sizes, len) == 0
    ensures Complete(sizes)
  {
    hide Count, Fill, First, Pow2;
    FirstIsFill(sizes, c, limit);
    Pow2Half(limit + 1);
    FirstBeyond(sizes, limit, 15);
    Pow2Table();
  }

  lemma {:induction false} UsedCodes(sizes: seq<nat>, c: seq<int>, limit: nat, len: nat)
    requires |c| == 33 && limit <= 15 && len <= 15
    requires forall k :: 1 <= k <= limit ==> Count(sizes, k) == c[k]
    requires forall k :: limit < k <= 32 ==> Count(sizes, k) == 0
    ensures Used(sizes, len) == Codes(c, if len <= limit then len else limit)
    decreases len
  {
    hide Count;
    if len > 0 { UsedCodes(sizes, c, limit, len - 1); }
  }

  /** Limiting has cost little: with at most two to the `b` symbols, (b - 1) / Fib(limit - b - 3)
      bits for each symbol sent. */
  ghost predicate Thrifty(counts: seq<nat>, limit: nat, sizes: seq<nat>) {
    forall b: nat :: 1 <= b && b + 3 <= limit && |UsedList(counts, |counts|)| <= Pow2(b) ==>
      NearlyShortest(counts, sizes, b - 1, Fib(limit - b - 3))
  }

  /** What a block's code lengths are for the given symbol counts. */
  ghost predicate TableFor(counts: seq<nat>, limit: nat, sizes: seq<nat>) {
    && |sizes| == |counts| && Accepted(sizes)
    && (forall x :: 0 <= x < |sizes| ==> sizes[x] <= limit && (sizes[x] > 0 <==> counts[x] > 0))
    && (forall x, y :: 0 <= x < |sizes| && 0 <= y < |sizes| && 0 < counts[x] < counts[y] ==> sizes[x] >= sizes[y])
    && (|UsedList(counts, |counts|)| >= 2 ==> Complete(sizes))
    && (|UsedList(counts, |counts|)| >= 2 && Sum(counts) < Fib(limit) ==> Shortest(counts, sizes))
    && (|UsedList(counts, |counts|)| >= 2 ==> Thrifty(counts, limit, sizes))
    && (|UsedList(counts, |counts|)| <= 1 ==> forall x :: 0 <= x < |sizes| ==> sizes[x] <= 1)
  }

  lemma RankedSizes(counts: seq<nat>, s: seq<SymFreq>, sizes: seq<nat>, limit: nat, x: nat) returns (k: nat)
    requires |sizes| == |counts| && x < |counts| && Ranked(sizes, s, 0, limit)
    requires multiset(s) == multiset(UsedList(counts, |counts|)) && counts[x] > 0
    ensures k < |s| && s[k] == SymFreq(counts[x], x) && 1 <= sizes[x] <= limit
  {
    UsedAll(counts, |counts|, x);
    assert SymFreq(counts[x], x) in multiset(s);
    k :| 0 <= k < |s| && s[k] == SymFreq(counts[x], x);
  }

  lemma TableShape(counts: seq<nat>, s: seq<SymFreq>, sizes: seq<nat>, limit: nat)
    requires |sizes| == |counts| && Ranked(sizes, s, 0, limit) && ByKey(s) && Listed(counts, s)
    requires multiset(s) == multiset(UsedList(counts, |counts|))
    ensures forall x :: 0 <= x < |sizes| ==> sizes[x] <= limit && (sizes[x] > 0 <==> counts[x] > 0)
    ensures forall x, y :: 0 <= x < |sizes| && 0 <= y < |sizes| && 0 < counts[x] < counts[y] ==> sizes[x] >= sizes[y]
  {
    hide UsedList;
    forall x | 0 <= x < |sizes| ensures sizes[x] <= limit && (sizes[x] > 0 <==> counts[x] > 0) {
      if counts[x] > 0 {
        var k := RankedSizes(counts, s, sizes, limit, x);
      }
    }
    forall x, y | 0 <= x < |sizes| && 0 <= y < |sizes| && 0 < counts[x] < counts[y] ensures sizes[x] >= sizes[y] {
      var k := RankedSizes(counts, s, sizes, limit, x);
      var m := RankedSizes(counts, s, sizes, limit, y);
      assert k < m;
    }
  }

  /** Only the symbols matter for ranking. */
  lemma RankedSyms(sizes: seq<nat>, s: seq<SymFreq>, t: seq<SymFreq>, j: nat, i: nat)
    requires Ranked(sizes, t, j, i) && Syms(s) == Syms(t)
    ensures Ranked(sizes, s, j, i)
  {
    assert |s| == |Syms(s)| == |Syms(t)| == |t|;
    assert forall k :: 0 <= k < |s| ==> s[k].sym == Syms(s)[k] == t[k].sym;
    forall x | 0 <= x < |sizes| && sizes[x] > 0 ensures exists k :: j <= k < |s| && s[k].sym == x {
      var k :| j <= k < |t| && t[k].sym == x;
      assert s[k].sym == x;
    }
  }

  lemma DistinctSyms(s: seq<SymFreq>, t: seq<SymFreq>)
    requires Distinct(s) && Syms(s) == Syms(t)
    ensures Distinct(t)
  {
    assert |s| == |Syms(s)| == |Syms(t)| == |t|;
    assert forall k :: 0 <= k < |s| ==> s[k].sym == Syms(s)[k] == t[k].sym;
  }

  lemma KeysAscend(s: seq<SymFreq>)
    requires ByKey(s)
    ensures Ascending(Keys(s))
  {
  }

  lemma KeysPositive(counts: seq<nat>, s: seq<SymFreq>)
    requires Listed(counts, s)
    ensures Positive(Keys(s))
  {
  }

  lemma {:induction false} KeyAtMostSum(s: seq<nat>, i: nat)
    requires i < |s|
    ensures s[i] <= Sum(s)
  {
    if i > 0 { KeyAtMostSum(s[1..], i - 1); }
  }

  /** Records of the used symbols, lightest first. */
  method SortedUsed(counts: seq<nat>) returns (syms: array<SymFreq>)
    requires |counts| <= 288 && Sum(counts) < 0x10000
    ensures fresh(syms) && syms.Length == |UsedList(counts, |counts|)| <= |counts|
    ensures multiset(syms[..]) == multiset(UsedList(counts, |counts|)) && ByKey(syms[..])
  {
    hide UsedList, Sum, Distinct, ByKey, Listed;
    var used := CollectUsed(counts);
    UsedListed(counts, |counts|);
    UsedSum(counts, |counts|);
    assert counts[..|counts|] == counts;
    var syms0 := new SymFreq[|used|](i requires 0 <= i < |used| => used[i]);
    var syms1 := new SymFreq[|used|](_ => SymFreq(0, 0));
    assert syms0[..] == used;
    assert Keys16(used) by {
      forall i | 0 <= i < |used| ensures used[i].key < 0x10000 { KeyAtMostSum(Keys(used), i); }
    }
    syms := RadixSortSyms(syms0, syms1);
  }

  lemma SortedFacts(counts: seq<nat>, s: seq<SymFreq>)
    requires multiset(s) == multiset(UsedList(counts, |counts|)) && ByKey(s)
    ensures Listed(counts, s) && Distinct(s) && Ascending(Keys(s)) && Positive(Keys(s)) && Sum(Keys(s)) == Sum(counts)
  {
    hide UsedList, Sum, Distinct, ByKey, Listed, Ascending, Positive;
    var used := UsedList(counts, |counts|);
    UsedListed(counts, |counts|);
    UsedSum(counts, |counts|);
    assert counts[..|counts|] == counts;
    SortedListed(counts, used, s);
    TotalPermuted(used, s, Key());
    KeysTotal(used);
    KeysTotal(s);
    KeysAscend(s);
    KeysPositive(counts, s);
  }

  /** Sorted records of the used symbols, with code lengths in place of counts. */
  method LengthsOf(counts: seq<nat>) returns (syms: array<SymFreq>, ghost sorted: seq<SymFreq>)
    requires |counts| <= 288 && Sum(counts) < 0x10000
    ensures fresh(syms) && Syms(syms[..]) == Syms(sorted)
    ensures multiset(sorted) == multiset(UsedList(counts, |counts|)) && ByKey(sorted) && Listed(counts, sorted)
      && Distinct(sorted)
    ensures syms.Length == |UsedList(counts, |counts|)| <= |counts|
    ensures syms.Length == 1 ==> Keys(syms[..]) == [1]
    ensures syms.Length >= 2 ==> MinimumRedundancyLengths(Keys(sorted), Keys(syms[..]))
    ensures Positive(Keys(sorted)) && Sum(Keys(sorted)) == Sum(counts)
  {
    hide UsedList, Sum, MinimumRedundancyLengths, Distinct, ByKey, Ascending, Listed, Positive;
    syms := SortedUsed(counts);
    sorted := syms[..];
    SortedFacts(counts, sorted);
    CalculateMinimumRedundancy(syms);
  }

  lemma MinimumWithin32(w: seq<nat>, lens: seq<nat>)
    requires MinimumRedundancyLengths(w, lens) && Positive(w) && Sum(w) < 0x10000
    ensures Between1And32(lens) && Bounded(lens, 32) && KraftSum(lens, 32) == Pow2(32)
    ensures |lens| == |w| && Optimal(w, lens) && LightPrefix.Whole(lens, 32)
  {
    hide KraftSum, Optimal, Pow2, Sum, Fib;
    FibTable();
    assert Falling(lens, 22);
    WholeAt32(lens, |w|);
  }

  lemma ShallowEnough(w: seq<nat>, lens: seq<nat>, limit: nat)
    requires MinimumRedundancyLengths(w, lens) && Positive(w) && Sum(w) < Fib(limit)
    ensures lens != [] ==> lens[0] <= limit
  {
    hide KraftSum, Optimal, Pow2, Sum, Fib;
    assert Falling(lens, limit);
  }

  /** The first length is the longest. */
  lemma NotOver(w: seq<nat>, lens: seq<nat>, limit: nat)
    requires MinimumRedundancyLengths(w, lens) && lens != [] && lens[0] <= limit
    ensures Falling(lens, limit)
  {
    hide KraftSum, Optimal, Pow2, Sum, Fib;
  }

  /** Without lengths beyond the limit there are no codes beyond it. */
  lemma {:induction false} NoneBeyond(c: seq<int>, lens: seq<nat>, limit: nat, k: nat)
    requires Tally(c, lens) && Falling(lens, limit) && 1 <= limit <= k <= 32
    ensures Codes(c, k) == Codes(c, limit)
    decreases k
  {
    hide Count;
    if limit < k {
      NoneBeyond(c, lens, limit, k - 1);
      if Count(lens, k) > 0 {
        var x := CountedIsThere(lens, k);
      }
    }
  }

  lemma RankedFalls(s: seq<SymFreq>, sizes: seq<nat>, limit: nat)
    requires Ranked(sizes, s, 0, limit)
    ensures InTable(s, |sizes|) && Falling(LengthsIn(s, sizes), limit)
  {
  }

  /** When no length is over the limit, the dealt lengths are the optimal ones. */
  lemma DealtShortest(counts: seq<nat>, s: seq<SymFreq>, lens: seq<nat>, c: seq<int>, sizes: seq<nat>, limit: nat)
    requires |sizes| == |counts| && multiset(s) == multiset(UsedList(counts, |counts|)) && Ranked(sizes, s, 0, limit)
    requires |s| == |lens| && Optimal(Keys(s), lens) && Falling(lens, limit) && Tally(c, lens) && limit <= 15
    requires forall len :: 1 <= len <= limit ==> Count(LengthsIn(s, sizes), len) == c[len]
    ensures Shortest(counts, sizes) && Thrifty(counts, limit, sizes)
  {
    hide UsedList, Optimal, Sum, Fib, Count, KraftSum, Pow2, Shortest, WeightedLength, Ranked, NearlyShortest;
    RankedFalls(s, sizes, limit);
    SameCounts(LengthsIn(s, sizes), lens, limit);
    OptimalIsShortest(counts, s, sizes);
    forall b: nat | 1 <= b && b + 3 <= limit && |UsedList(counts, |counts|)| <= Pow2(b)
      ensures NearlyShortest(counts, sizes, b - 1, Fib(limit - b - 3))
    {
      MulOrder(b - 1, 0, Sum(counts));
      NearIsNearlyShortest(counts, s, lens, sizes, b - 1, Fib(limit - b - 3));
    }
  }

  /** When the limit was enforced, they are nearly so. */
  lemma DealtNear(counts: seq<nat>, s: seq<SymFreq>, lens: seq<nat>, was: seq<int>, c: seq<int>, sizes: seq<nat>,
                  limit: nat, d: nat)
    requires |sizes| == |counts| && multiset(s) == multiset(UsedList(counts, |counts|)) && Ranked(sizes, s, 0, limit)
    requires |s| == |lens| >= 1 && Optimal(Keys(s), lens) && LightPrefix.Whole(lens, 32) && lens[0] > limit
      && Tally(was, lens)
    requires Sum(Keys(s)) == Sum(counts) && limit <= 15 && Kept(was, c, limit, |lens|, d)
    requires forall len :: 1 <= len <= limit ==> Count(LengthsIn(s, sizes), len) == c[len]
    ensures Thrifty(counts, limit, sizes)
  {
    hide UsedList, Optimal, Sum, Fib, Count, KraftSum, Pow2, WeightedLength, Ranked, NearlyShortest, Kept;
    RankedFalls(s, sizes, limit);
    assert |multiset(s)| == |s| && |multiset(UsedList(counts, |counts|))| == |UsedList(counts, |counts|)|;
    forall b: nat | 1 <= b && b + 3 <= limit && |UsedList(counts, |counts|)| <= Pow2(b)
      ensures NearlyShortest(counts, sizes, b - 1, Fib(limit - b - 3))
    {
      KeptShape(was, c, limit, |lens|, d);
      CostOfLimit(Keys(s), lens, LengthsIn(s, sizes), was, c, limit, d, b);
      NearIsNearlyShortest(counts, s, lens, sizes, b - 1, Fib(limit - b - 3));
    }
  }

  lemma KeptShape(was: seq<int>, c: seq<int>, max: nat, n: int, d: nat)
    requires Kept(was, c, max, n, d)
    ensures |was| == |c| == 33
  {
  }

  /** Code lengths for one block, at most `limit` bits. */
  method DynamicSizes(counts: seq<nat>, limit: nat) returns (sizes: array<nat>, numCodes: array<int>)
    requires |counts| <= 288 && Sum(counts) < 0x10000 && 1 <= limit <= 15 && |counts| <= Pow2(limit)
    ensures fresh(sizes) && TableFor(counts, limit, sizes[..])
    ensures numCodes.Length == 33 && forall len :: 1 <= len <= limit ==> numCodes[len] == Count(sizes[..], len)
  {
    hide UsedList, Sum, MinimumRedundancyLengths, Distinct, ByKey, Listed, Count, Codes, Fill, KraftSum, Ranked,
      First, Used, Pow2, Positive, Thrifty, Shortest, Kept, LightPrefix.Whole, Falling;
    ghost var sorted;
    var syms;
    syms, sorted := LengthsOf(counts);
    ghost var lens := Keys(syms[..]);
    if syms.Length >= 2 { MinimumWithin32(Keys(sorted), lens); }
    numCodes := TallyLengths(syms);
    TallySums(numCodes[..], lens);
    TallyNonNegative(numCodes[..], lens);
    ghost var c := numCodes[..];
    ghost var short := syms.Length >= 2 && lens[0] <= limit;
    if syms.Length >= 2 && Sum(counts) < Fib(limit) { ShallowEnough(Keys(sorted), lens, limit); }
    if short {
      NotOver(Keys(sorted), lens, limit);
      NoneBeyond(c, lens, limit, 32);
    }
    ghost var d := EnforceMaxCodeSize(numCodes, syms.Length, limit);
    DealtCount(numCodes[..], lens, limit, syms.Length);
    DistinctSyms(sorted, syms[..]);
    SymsInTable(counts, sorted, syms[..]);
    sizes := DealLengths(syms, numCodes, limit, |counts|);
    RankedSyms(sizes[..], sorted, syms[..], 0, limit);
    assert LengthsIn(sorted, sizes[..]) == LengthsIn(syms[..], sizes[..]);
    if short {
      DealtShortest(counts, sorted, lens, c, sizes[..], limit);
    } else if syms.Length >= 2 {
      DealtNear(counts, sorted, lens, c, numCodes[..], sizes[..], limit, d);
    }
    TableShape(counts, sorted, sizes[..], limit);
    if syms.Length >= 2 {
      DealtComplete(sizes[..], numCodes[..], limit);
    } else {
      UsedCodes(sizes[..], numCodes[..], limit, 15);
      FewSizes(sizes[..], numCodes[..], lens, limit);
    }
  }

  lemma TallyNonNegative(c: seq<int>, lens: seq<nat>)
    requires Tally(c, lens)
    ensures NonNegative(c)
  {
    hide Count;
  }

  lemma SymsInTable(counts: seq<nat>, s: seq<SymFreq>, t: seq<SymFreq>)
    requires Listed(counts, s) && Syms(s) == Syms(t)
    ensures forall k :: 0 <= k < |t| ==> t[k].sym < |counts|
  {
    assert |s| == |Syms(s)| == |Syms(t)| == |t|;
    forall k | 0 <= k < |t| ensures t[k].sym < |counts| {
      assert t[k].sym == Syms(t)[k] == Syms(s)[k] == s[k].sym;
    }
  }

  /** A symbol alone gets one bit. */
  lemma FewSizes(sizes: seq<nat>, c: seq<int>, lens: seq<nat>, limit: nat)
    requires Tally(c, lens) && (lens == [] || lens == [1]) && limit <= 15
    requires forall len :: 1 <= len <= limit ==> c[len] == Count(sizes, len)
    requires forall x :: 0 <= x < |sizes| ==> sizes[x] <= limit
    ensures forall x :: 0 <= x < |sizes| ==> sizes[x] <= 1
  {
    forall x | 0 <= x < |sizes| ensures sizes[x] <= 1 {
      CountPositive(sizes, x);
      if sizes[x] > 1 {
        var k := CountedIsThere(lens, sizes[x]);
      }
    }
  }

  /** After limiting, the counts up to the limit still add up to all codes. */
  lemma DealtCount(c: seq<int>, lens: seq<nat>, limit: nat, n: nat)
    requires |lens| == n && 1 <= limit <= 15
    requires n <= 1 ==> Tally(c, lens) && (n == 1 ==> lens == [1])
    requires n > 1 ==> Balanced(c, limit, n, Pow2(limit))
    ensures |c| == 33 && NonNegative(c) && Codes(c, limit) == n
    ensures n > 1 ==> Fill(c, limit, limit) == Pow2(limit)
  {
    if n <= 1 {
      TallyNonNegative(c, lens);
      FewCodes(c, lens, limit);
    }
  }

  lemma {:induction false} FewCodes(c: seq<int>, lens: seq<nat>, k: nat)
    requires Tally(c, lens) && (lens == [] || lens == [1]) && 1 <= k <= 32
    ensures Codes(c, k) == |lens|
  {
    assert lens == [1] ==> lens[..0] == [];
    assert c[k] == Count(lens, k);
    if k > 1 { FewCodes(c, lens, k - 1); } else { assert Codes(c, 0) == 0; }
  }

  // ---- Codes.

  /** `codes[x]` is the word of symbol `x`, ready for a stream that sends low bits first. */
  ghost predicate CodesFor(sizes: seq<nat>, codes: seq<nat>, n: nat) {
    && |codes| == |sizes| && n <= |sizes|
    && (forall x :: 0 <= x < n && sizes[x] > 0 ==>
          codes[x] < Pow2(sizes[x]) && LsbBits(codes[x], sizes[x]) == Word(sizes, x))
  }

  method FirstCodes(sizes: seq<nat>, numCodes: array<int>, limit: nat) returns (nextCode: array<nat>)
    requires numCodes.Length == 33 && 1 <= limit <= 15
    requires forall len :: 1 <= len <= limit ==> numCodes[len] == Count(sizes, len)
    ensures fresh(nextCode) && nextCode.Length == 33
    ensures forall len :: 1 <= len <= limit ==> nextCode[len] == First(sizes, len)
  {
    hide Count;
    nextCode := new nat[33](_ => 0);
    var j: nat, i := 0, 2;
    while i <= limit
      invariant 2 <= i <= limit + 1 || i == 2
      invariant nextCode.Length == 33 && (i - 1 <= limit ==> j == First(sizes, i - 1))
      invariant forall len :: 1 <= len < i && len <= limit ==> nextCode[len] == First(sizes, len)
    {
      j := (j + numCodes[i - 1]) * 2;
      nextCode[i] := j;
      i := i + 1;
    }
  }

  ghost predicate NextCodes(sizes: seq<nat>, limit: nat, nextCode: seq<nat>, n: nat) {
    |nextCode| == 33 && limit <= 15 && n <= |sizes| &&
    forall len :: 1 <= len <= limit ==> nextCode[len] == First(sizes, len) + Count(sizes[..n], len)
  }

  lemma NextCodesStart(sizes: seq<nat>, limit: nat, nextCode: seq<nat>)
    requires |nextCode| == 33 && limit <= 15 && forall len :: 1 <= len <= limit ==> nextCode[len] == First(sizes, len)
    ensures NextCodes(sizes, limit, nextCode, 0)
  {
    hide First;
  }

  lemma NextCodesStep(sizes: seq<nat>, limit: nat, nextCode: seq<nat>, n: nat)
    requires limit <= 15 && n < |sizes| && sizes[n] <= limit && NextCodes(sizes, limit, nextCode, n)
    ensures sizes[n] == 0 ==> NextCodes(sizes, limit, nextCode, n + 1)
    ensures sizes[n] > 0 ==> nextCode[sizes[n]] == Code(sizes, n)
    ensures sizes[n] > 0 ==> NextCodes(sizes, limit, nextCode[sizes[n] := nextCode[sizes[n]] + 1], n + 1)
  {
    hide First, Count;
    forall len | 1 <= len <= limit
      ensures Count(sizes[..n + 1], len)
        == Count(sizes[..n], len) + (if sizes[n] == len then 1 else 0)
    {
      CountNext(sizes, n, len);
    }
  }

  /** Gives every coded symbol its bit-reversed canonical code. */
  method AssignCodes(sizes: seq<nat>, numCodes: array<int>, limit: nat) returns (codes: array<nat>)
    requires numCodes.Length == 33 && 1 <= limit <= 15 && Accepted(sizes)
    requires forall len :: 1 <= len <= limit ==> numCodes[len] == Count(sizes, len)
    requires forall x :: 0 <= x < |sizes| ==> sizes[x] <= limit
    ensures fresh(codes) && CodesFor(sizes, codes[..], |sizes|)
  {
    hide Count, First, NextCodes, Word, LsbBits, Pow2, Fits, Accepted;
    AcceptedFits(sizes);
    var nextCode := FirstCodes(sizes, numCodes, limit);
    NextCodesStart(sizes, limit, nextCode[..]);
    codes := new nat[|sizes|](_ => 0);
    var i := 0;
    while i < |sizes|
      invariant 0 <= i <= |sizes| && codes.Length == |sizes| && nextCode.Length == 33
      invariant NextCodes(sizes, limit, nextCode[..], i) && CodesFor(sizes, codes[..], i)
    {
      NextCodesStep(sizes, limit, nextCode[..], i);
      var size := sizes[i];
      if size != 0 {
        CodeFits(sizes, i);
        var code := nextCode[size];
        nextCode[size] := code + 1;
        var rev := ReverseBits(code, size);
        WordIs(sizes, i);
        codes[i] := rev;
      }
      i := i + 1;
    }
  }

  lemma WordIs(sizes: seq<nat>, i: nat)
    requires i < |sizes|
    ensures Word(sizes, i) == MsbBits(Code(sizes, i), sizes[i])
  {
  }

  /** Lengths and codes for one block from its symbol counts. */
  method OptimizeHuffmanTable(counts: seq<nat>, limit: nat) returns (sizes: array<nat>, codes: array<nat>)
    requires |counts| <= 288 && Sum(counts) < 0x10000 && 1 <= limit <= 15 && |counts| <= Pow2(limit)
    ensures TableFor(counts, limit, sizes[..]) && CodesFor(sizes[..], codes[..], |counts|)
  {
    hide UsedList, Sum, Count, Pow2, CodesFor;
    var numCodes;
    sizes, numCodes := DynamicSizes(counts, limit);
    codes := AssignCodes(sizes[..], numCodes, limit);
  }
}
