/** Two-pass radix sort of (key, symbol) records by a 16-bit key. */
module RadixSort {
  import opened MinimumRedundancy

  /** The byte of the key a pass sorts by. */
  function Digit(x: SymFreq, pass: nat): (d: nat)
    ensures d < 256
  {
    if pass == 0 then x.key % 256 else x.key / 256 % 256
  }

  /** The records of `s` with digit `v`, in order. */
  ghost function Select(s: seq<SymFreq>, pass: nat, v: nat): seq<SymFreq> {
    if s == [] then []
    else Select(s[..|s| - 1], pass, v) + (if Digit(s[|s| - 1], pass) == v then [s[|s| - 1]] else [])
  }

  /** The records with digits below `v`, by digit, each digit in order. */
  ghost function Upto(s: seq<SymFreq>, pass: nat, v: nat): seq<SymFreq> {
    if v == 0 then [] else Upto(s, pass, v - 1) + Select(s, pass, v - 1)
  }

  lemma SelectNext(s: seq<SymFreq>, pass: nat, v: nat, i: nat)
    requires i < |s|
    ensures Select(s[..i + 1], pass, v) == Select(s[..i], pass, v) + (if Digit(s[i], pass) == v then [s[i]] else [])
  {
    assert s[..i + 1][..i] == s[..i];
  }

  lemma {:induction false} SelectPrefix(s: seq<SymFreq>, pass: nat, v: nat, i: nat)
    requires i <= |s|
    ensures |Select(s[..i], pass, v)| <= |Select(s, pass, v)|
    decreases |s|
  {
    if i < |s| {
      assert s[..|s| - 1][..i] == s[..i];
      SelectPrefix(s[..|s| - 1], pass, v, i);
    } else {
      assert s[..i] == s;
    }
  }

  lemma {:induction false} UptoMono(s: seq<SymFreq>, pass: nat, a: nat, b: nat)
    requires a <= b
    ensures |Upto(s, pass, a)| <= |Upto(s, pass, b)|
    ensures a < b ==> |Upto(s, pass, a)| + |Select(s, pass, a)| <= |Upto(s, pass, b)|
    decreases b
  {
    hide Select;
    if a < b { UptoMono(s, pass, a, b - 1); }
  }

  lemma {:induction false} UptoContents(t: seq<SymFreq>, x: SymFreq, pass: nat, v: nat)
    ensures multiset(Upto(t + [x], pass, v))
      == multiset(Upto(t, pass, v)) + (if Digit(x, pass) < v then multiset{x} else multiset{})
    decreases v
  {
    hide Digit, Select;
    if v > 0 {
      UptoContents(t, x, pass, v - 1);
      SelectContents(t, x, pass, v - 1);
    }
  }

  lemma SelectContents(t: seq<SymFreq>, x: SymFreq, pass: nat, v: nat)
    ensures multiset(Select(t + [x], pass, v))
      == multiset(Select(t, pass, v)) + (if Digit(x, pass) == v then multiset{x} else multiset{})
  {
    hide Digit;
    assert (t + [x])[..|t|] == t;
  }

  /** A pass rearranges. */
  lemma {:induction false} PassPermutes(s: seq<SymFreq>, pass: nat)
    ensures multiset(Upto(s, pass, 256)) == multiset(s)
  {
    hide Select, Upto, Digit;
    if s == [] {
      UptoEmpty(pass, 256);
    } else {
      var t, x := s[..|s| - 1], s[|s| - 1];
      assert s == t + [x];
      UptoContents(t, x, pass, 256);
      PassPermutes(t, pass);
    }
  }

  lemma {:induction false} UptoEmpty(pass: nat, v: nat)
    ensures Upto([], pass, v) == []
  {
    if v > 0 { UptoEmpty(pass, v - 1); }
  }

  lemma PassLength(s: seq<SymFreq>, pass: nat)
    ensures |Upto(s, pass, 256)| == |s|
  {
    hide Upto;
    PassPermutes(s, pass);
    assert |multiset(s)| == |s| && |multiset(Upto(s, pass, 256))| == |Upto(s, pass, 256)|;
  }

  /** How often a digit occurs depends only on the contents. */
  lemma {:induction false} SelectCount(s: seq<SymFreq>, pass: nat, v: nat, x: SymFreq)
    ensures multiset(Select(s, pass, v))[x] == if Digit(x, pass) == v then multiset(s)[x] else 0
  {
    hide Digit;
    if s != [] {
      var t, y := s[..|s| - 1], s[|s| - 1];
      SelectCount(t, pass, v, x);
      assert s == t + [y];
      assert multiset(s) == multiset(t) + multiset{y};
    }
  }

  lemma SameCount(s: seq<SymFreq>, t: seq<SymFreq>, pass: nat, v: nat)
    requires multiset(s) == multiset(t)
    ensures |Select(s, pass, v)| == |Select(t, pass, v)|
  {
    hide Select, Digit;
    forall x ensures multiset(Select(s, pass, v))[x] == multiset(Select(t, pass, v))[x] {
      SelectCount(s, pass, v, x);
      SelectCount(t, pass, v, x);
    }
    assert multiset(Select(s, pass, v)) == multiset(Select(t, pass, v));
    assert |multiset(Select(s, pass, v))| == |Select(s, pass, v)|;
    assert |multiset(Select(t, pass, v))| == |Select(t, pass, v)|;
  }

  // ---- Sortedness.

  ghost predicate ByLow(s: seq<SymFreq>) {
    forall i, j :: 0 <= i < j < |s| ==> Digit(s[i], 0) <= Digit(s[j], 0)
  }

  /** By high digit, then by low digit. */
  ghost predicate ByBoth(s: seq<SymFreq>) {
    forall i, j :: 0 <= i < j < |s| ==>
      Digit(s[i], 1) < Digit(s[j], 1) || (Digit(s[i], 1) == Digit(s[j], 1) && Digit(s[i], 0) <= Digit(s[j], 0))
  }

  lemma {:induction false} SelectDigit(s: seq<SymFreq>, pass: nat, v: nat)
    ensures forall i :: 0 <= i < |Select(s, pass, v)| ==> Digit(Select(s, pass, v)[i], pass) == v
    ensures forall i :: 0 <= i < |Select(s, pass, v)| ==> Select(s, pass, v)[i] in s
  {
    if s != [] { SelectDigit(s[..|s| - 1], pass, v); }
  }

  lemma {:induction false} UptoDigit(s: seq<SymFreq>, pass: nat, v: nat)
    ensures forall i :: 0 <= i < |Upto(s, pass, v)| ==> Digit(Upto(s, pass, v)[i], pass) < v
    decreases v
  {
    hide Select, Digit;
    if v > 0 {
      UptoDigit(s, pass, v - 1);
      SelectDigit(s, pass, v - 1);
    }
  }

  lemma {:induction false} LowPassSorts(s: seq<SymFreq>, v: nat)
    ensures ByLow(Upto(s, 0, v))
  {
    hide Select, Digit;
    if v > 0 {
      LowPassSorts(s, v - 1);
      UptoDigit(s, 0, v - 1);
      SelectDigit(s, 0, v - 1);
    }
  }

  lemma {:induction false} SelectKeepsOrder(s: seq<SymFreq>, v: nat)
    requires ByLow(s)
    ensures ByLow(Select(s, 1, v))
  {
    hide Digit;
    if s != [] {
      SelectKeepsOrder(s[..|s| - 1], v);
      SelectDigit(s[..|s| - 1], 1, v);
    }
  }

  lemma {:induction false} HighPassSorts(s: seq<SymFreq>, v: nat)
    requires ByLow(s)
    ensures ByBoth(Upto(s, 1, v))
    decreases v
  {
    hide Select, Digit;
    if v > 0 {
      HighPassSorts(s, v - 1);
      UptoDigit(s, 1, v - 1);
      SelectDigit(s, 1, v - 1);
      SelectKeepsOrder(s, v - 1);
    }
  }

  ghost predicate ByKey(s: seq<SymFreq>) {
    forall i, j :: 0 <= i < j < |s| ==> s[i].key <= s[j].key
  }

  ghost predicate Keys16(s: seq<SymFreq>) {
    forall i :: 0 <= i < |s| ==> s[i].key < 0x10000
  }

  lemma BothIsKey(s: seq<SymFreq>)
    requires ByBoth(s) && Keys16(s)
    ensures ByKey(s)
  {
    forall i, j | 0 <= i < j < |s| ensures s[i].key <= s[j].key {
      KeySplit(s[i]);
      KeySplit(s[j]);
    }
  }

  lemma KeySplit(x: SymFreq)
    requires x.key < 0x10000
    ensures x.key == 256 * Digit(x, 1) + Digit(x, 0)
  {
  }

  // ---- Stability.

  /** The records of `s` with key `key`, in order. */
  ghost function WithKey(s: seq<SymFreq>, key: nat): seq<SymFreq> {
    if s == [] then []
    else WithKey(s[..|s| - 1], key) + (if s[|s| - 1].key == key then [s[|s| - 1]] else [])
  }

  /** Records with the same key are in the same order. */
  ghost predicate SameTies(s: seq<SymFreq>, t: seq<SymFreq>) {
    forall key: nat :: WithKey(s, key) == WithKey(t, key)
  }

  lemma {:induction false} WithKeyConcat(a: seq<SymFreq>, b: seq<SymFreq>, key: nat)
    ensures WithKey(a + b, key) == WithKey(a, key) + WithKey(b, key)
    decreases |b|
  {
    if b == [] {
      assert a + b == a;
    } else {
      WithKeyConcat(a, b[..|b| - 1], key);
      assert (a + b)[..|a + b| - 1] == a + b[..|b| - 1];
    }
  }

  /** Records with one key share their digits. */
  lemma {:induction false} SelectKeepsTies(s: seq<SymFreq>, pass: nat, v: nat, key: nat)
    ensures WithKey(Select(s, pass, v), key) == if Digit(SymFreq(key, 0), pass) == v then WithKey(s, key) else []
  {
    if s != [] {
      var n := |s| - 1;
      SelectKeepsTies(s[..n], pass, v, key);
      var x := s[n];
      assert x.key == key ==> Digit(x, pass) == Digit(SymFreq(key, 0), pass);
      if Digit(x, pass) == v {
        WithKeyConcat(Select(s[..n], pass, v), [x], key);
        assert [x][..0] == [];
      } else {
        assert Select(s, pass, v) == Select(s[..n], pass, v);
      }
    }
  }

  lemma {:induction false} UptoKeepsTies(s: seq<SymFreq>, pass: nat, v: nat, key: nat)
    ensures WithKey(Upto(s, pass, v), key) == if Digit(SymFreq(key, 0), pass) < v then WithKey(s, key) else []
    decreases v
  {
    hide Select, Digit;
    if v > 0 {
      UptoKeepsTies(s, pass, v - 1, key);
      WithKeyConcat(Upto(s, pass, v - 1), Select(s, pass, v - 1), key);
      SelectKeepsTies(s, pass, v - 1, key);
    }
  }

  /** A pass keeps the order of records with the same key. */
  lemma PassKeepsTies(s: seq<SymFreq>, pass: nat)
    ensures SameTies(s, Upto(s, pass, 256))
  {
    hide WithKey, Upto, Digit;
    forall key: nat ensures WithKey(s, key) == WithKey(Upto(s, pass, 256), key) {
      UptoKeepsTies(s, pass, 256, key);
    }
  }

  // ---- The sort.

  /** `hist[v]` counts digit `v` of the given pass. */
  ghost predicate Histogram(hist: seq<nat>, s: seq<SymFreq>, pass: nat) {
    |hist| == 256 && forall v :: 0 <= v < 256 ==> hist[v] == |Select(s, pass, v)|
  }

  method Histograms(syms: array<SymFreq>) returns (low: array<nat>, high: array<nat>)
    ensures fresh(low) && fresh(high) && low.Length == 256 && high.Length == 256
    ensures Histogram(low[..], syms[..], 0) && Histogram(high[..], syms[..], 1)
  {
    hide Digit;
    low, high := new nat[256](_ => 0), new nat[256](_ => 0);
    var i := 0;
    while i < syms.Length
      invariant 0 <= i <= syms.Length && low != high
      invariant Histogram(low[..], syms[..i], 0) && Histogram(high[..], syms[..i], 1)
    {
      forall v: nat, pass: nat | true
        ensures Select(syms[..i + 1], pass, v)
          == Select(syms[..i], pass, v) + (if Digit(syms[i], pass) == v then [syms[i]] else [])
      {
        SelectNext(syms[..], pass, v, i);
        assert syms[..][..i + 1] == syms[..i + 1] && syms[..][..i] == syms[..i];
      }
      var d0, d1 := Digit(syms[i], 0), Digit(syms[i], 1);
      low[d0] := low[d0] + 1;
      high[d1] := high[d1] + 1;
      i := i + 1;
    }
    assert syms[..syms.Length] == syms[..];
  }

  method Offsets(hist: array<nat>, ghost s: seq<SymFreq>, ghost pass: nat) returns (offsets: array<nat>)
    requires hist.Length == 256 && Histogram(hist[..], s, pass)
    ensures fresh(offsets) && offsets.Length == 256
    ensures forall v :: 0 <= v < 256 ==> offsets[v] == |Upto(s, pass, v)|
  {
    hide Select;
    offsets := new nat[256](_ => 0);
    var cur, i := 0, 0;
    while i < 256
      invariant 0 <= i <= 256 && cur == |Upto(s, pass, i)|
      invariant forall v :: 0 <= v < i ==> offsets[v] == |Upto(s, pass, v)|
    {
      offsets[i] := cur;
      cur := cur + hist[i];
      i := i + 1;
    }
  }

  /** The first `i` records are in place: each digit's records follow its base. */
  ghost predicate Scattered(dst: seq<SymFreq>, offsets: seq<nat>, s: seq<SymFreq>, pass: nat, i: nat) {
    && |offsets| == 256 && i <= |s| == |dst|
    && (forall v :: 0 <= v < 256 ==> InBucket(dst, offsets[v], s, pass, i, v))
  }

  ghost predicate InBucket(dst: seq<SymFreq>, offset: nat, s: seq<SymFreq>, pass: nat, i: nat, v: nat)
    requires i <= |s|
  {
    var base, part := |Upto(s, pass, v)|, Select(s[..i], pass, v);
    offset == base + |part| <= |dst| && dst[base..offset] == part
  }

  lemma Room(s: seq<SymFreq>, pass: nat, i: nat, v: nat)
    requires i < |s| && v < 256 && Digit(s[i], pass) == v
    ensures |Upto(s, pass, v)| + |Select(s[..i], pass, v)| < |Upto(s, pass, v + 1)| <= |s|
  {
    hide Digit;
    SelectNext(s, pass, v, i);
    SelectPrefix(s, pass, v, i + 1);
    UptoMono(s, pass, v + 1, 256);
    PassLength(s, pass);
  }

  /** Placing record `i` touches its own digit's bucket only. */
  lemma ScatterOne(dst: seq<SymFreq>, offsets: seq<nat>, s: seq<SymFreq>, pass: nat, i: nat)
    requires Scattered(dst, offsets, s, pass, i) && i < |s|
    ensures var d := Digit(s[i], pass);
      && offsets[d] < |dst|
      && Scattered(dst[offsets[d] := s[i]], offsets[d := offsets[d] + 1], s, pass, i + 1)
  {
    hide Select, Upto, Digit, InBucket;
    var d := Digit(s[i], pass);
    assert InBucket(dst, offsets[d], s, pass, i, d);
    BucketFree(dst, offsets[d], s, pass, i, d);
    var dst', offsets' := dst[offsets[d] := s[i]], offsets[d := offsets[d] + 1];
    forall v | 0 <= v < 256 ensures InBucket(dst', offsets'[v], s, pass, i + 1, v) {
      assert InBucket(dst, offsets[v], s, pass, i, v);
      BucketNext(dst, offsets[d], offsets[v], s, pass, i, v);
    }
  }

  lemma BucketFree(dst: seq<SymFreq>, offset: nat, s: seq<SymFreq>, pass: nat, i: nat, d: nat)
    requires i < |s| == |dst| && d < 256 && InBucket(dst, offset, s, pass, i, d) && Digit(s[i], pass) == d
    ensures |Upto(s, pass, d)| <= offset < |Upto(s, pass, d + 1)| <= |dst|
  {
    hide Select, Upto, Digit;
    Room(s, pass, i, d);
  }

  lemma BucketNext(dst: seq<SymFreq>, at: nat, offset: nat, s: seq<SymFreq>, pass: nat, i: nat, v: nat)
    requires i < |s| == |dst| && v < 256 && InBucket(dst, offset, s, pass, i, v)
    requires var d := Digit(s[i], pass);
      |Upto(s, pass, d)| <= at < |Upto(s, pass, d + 1)| <= |dst| && (v == d ==> at == offset)
    ensures InBucket(dst[at := s[i]], if v == Digit(s[i], pass) then offset + 1 else offset, s, pass, i + 1, v)
  {
    hide Select, Upto, Digit;
    var d := Digit(s[i], pass);
    SelectNext(s, pass, v, i);
    var base, dst' := |Upto(s, pass, v)|, dst[at := s[i]];
    if v == d {
      assert dst'[base..offset + 1] == dst[base..offset] + [s[i]];
    } else {
      if v < d { UptoMono(s, pass, v + 1, d); } else { UptoMono(s, pass, d + 1, v); }
      SelectPrefix(s, pass, v, i);
      UptoNext(s, pass, v);
      assert dst'[base..offset] == dst[base..offset];
    }
  }

  lemma UptoNext(s: seq<SymFreq>, pass: nat, v: nat)
    ensures |Upto(s, pass, v + 1)| == |Upto(s, pass, v)| + |Select(s, pass, v)|
  {
    hide Select;
  }

  lemma {:induction false} ScatteredAll(dst: seq<SymFreq>, offsets: seq<nat>, s: seq<SymFreq>, pass: nat, v: nat)
    requires Scattered(dst, offsets, s, pass, |s|) && v <= 256
    ensures |Upto(s, pass, v)| <= |dst| && dst[..|Upto(s, pass, v)|] == Upto(s, pass, v)
  {
    hide Select, Digit;
    if v > 0 {
      ScatteredAll(dst, offsets, s, pass, v - 1);
      assert InBucket(dst, offsets[v - 1], s, pass, |s|, v - 1);
      assert s[..|s|] == s;
      var base := |Upto(s, pass, v - 1)|;
      assert dst[..offsets[v - 1]] == dst[..base] + dst[base..offsets[v - 1]];
    }
  }

  /** One pass: `dst` receives `src` stably ordered by one byte of the key. */
  method Pass(src: array<SymFreq>, dst: array<SymFreq>, hist: array<nat>, pass: nat)
    requires src != dst && src.Length == dst.Length && hist.Length == 256
    requires Histogram(hist[..], src[..], pass)
    modifies dst
    ensures dst[..] == Upto(src[..], pass, 256)
  {
    hide Select, Digit, Upto, Scattered;
    ghost var s := src[..];
    var offsets := Offsets(hist, s, pass);
    ScatterStart(dst[..], offsets[..], s, pass);
    var i := 0;
    while i < src.Length
      invariant 0 <= i <= src.Length && src[..] == s && offsets.Length == 256
      invariant Scattered(dst[..], offsets[..], s, pass, i)
      modifies dst, offsets
    {
      var d := Digit(src[i], pass);
      ScatterOne(dst[..], offsets[..], s, pass, i);
      dst[offsets[d]] := src[i];
      offsets[d] := offsets[d] + 1;
      i := i + 1;
    }
    ScatteredAll(dst[..], offsets[..], s, pass, 256);
    PassLength(s, pass);
    assert dst[..][..dst.Length] == dst[..];
  }

  lemma ScatterStart(dst: seq<SymFreq>, offsets: seq<nat>, s: seq<SymFreq>, pass: nat)
    requires |dst| == |s| && |offsets| == 256 && forall v :: 0 <= v < 256 ==> offsets[v] == |Upto(s, pass, v)|
    ensures Scattered(dst, offsets, s, pass, 0)
  {
    hide Upto, Digit;
    PassLength(s, pass);
    forall v | 0 <= v < 256 ensures InBucket(dst, offsets[v], s, pass, 0, v) {
      UptoMono(s, pass, v, 256);
      assert s[..0] == [];
    }
  }

  lemma {:induction false} AllZeroHigh(s: seq<SymFreq>)
    requires |Select(s, 1, 0)| == |s| && Keys16(s)
    ensures forall i :: 0 <= i < |s| ==> s[i].key < 256
  {
    if s != [] {
      SelectPrefix(s[..|s| - 1], 1, 0, |s| - 1);
      SelectShort(s[..|s| - 1], 1, 0);
      AllZeroHigh(s[..|s| - 1]);
    }
  }

  lemma {:induction false} SelectShort(s: seq<SymFreq>, pass: nat, v: nat)
    ensures |Select(s, pass, v)| <= |s|
  {
    if s != [] { SelectShort(s[..|s| - 1], pass, v); }
  }

  /** Sorts by key; `sorted` is whichever of the two buffers holds the result. */
  method RadixSortSyms(syms0: array<SymFreq>, syms1: array<SymFreq>) returns (sorted: array<SymFreq>)
    requires syms0 != syms1 && syms0.Length == syms1.Length && Keys16(syms0[..])
    modifies syms0, syms1
    ensures sorted == syms0 || sorted == syms1
    ensures ByKey(sorted[..]) && multiset(sorted[..]) == multiset(old(syms0[..]))
    ensures SameTies(old(syms0[..]), sorted[..])
  {
    hide Select, Digit, Upto, WithKey;
    ghost var s := syms0[..];
    var low, high := Histograms(syms0);
    var totalPasses := if high[0] == syms0.Length then 1 else 2;
    Pass(syms0, syms1, low, 0);
    PassPermutes(s, 0);
    PassKeepsTies(s, 0);
    LowPassSorts(s, 256);
    ghost var t := syms1[..];
    if totalPasses == 1 {
      AllZeroHigh(s);
      SmallKeys(s, t);
      return syms1;
    }
    forall v | 0 <= v < 256 ensures |Select(t, 1, v)| == high[v] { SameCount(s, t, 1, v); }
    Pass(syms1, syms0, high, 1);
    PassPermutes(t, 1);
    PassKeepsTies(t, 1);
    HighPassSorts(t, 256);
    KeysKept(s, syms0[..]);
    BothIsKey(syms0[..]);
    return syms0;
  }

  lemma KeysKept(s: seq<SymFreq>, t: seq<SymFreq>)
    requires multiset(s) == multiset(t) && Keys16(s)
    ensures Keys16(t)
  {
    forall i | 0 <= i < |t| ensures t[i].key < 0x10000 {
      assert t[i] in multiset(t);
      assert t[i] in s;
    }
  }

  lemma SmallKeys(s: seq<SymFreq>, t: seq<SymFreq>)
    requires multiset(s) == multiset(t) && ByLow(t) && forall i :: 0 <= i < |s| ==> s[i].key < 256
    ensures ByKey(t)
  {
    forall i | 0 <= i < |t| ensures t[i].key < 256 {
      assert t[i] in multiset(t);
      assert t[i] in s;
    }
    forall i, j | 0 <= i < j < |t| ensures t[i].key <= t[j].key {
      assert Digit(t[i], 0) == t[i].key && Digit(t[j], 0) == t[j].key;
    }
  }
}
