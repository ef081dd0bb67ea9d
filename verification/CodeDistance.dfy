/** How far apart code words are: with n error words, two different blocks differ in at least
    n + 1 places once their error words are appended. */
module CodeDistance {
  import opened GaloisField
  import opened PolyDivision
  import opened ErrorBlock
  import opened Syndromes

  /** The places of `p` that are not zero. */
  ghost function Weight(p: Poly): nat {
    if p == [] then 0 else Weight(p[..|p| - 1]) + if p[|p| - 1] != 0 then 1 else 0
  }

  /** The places where `u` and `v` differ. */
  ghost function Distance(u: Poly, v: Poly): nat
    requires |u| == |v|
  {
    if u == [] then 0 else Distance(u[..|u| - 1], v[..|v| - 1]) + if u[|u| - 1] != v[|v| - 1] then 1 else 0
  }

  lemma {:induction false} DistanceIsWeight(u: Poly, v: Poly)
    requires |u| == |v|
    ensures Distance(u, v) == Weight(AddPoly(u, v))
    decreases |u|
  {
    hide Add;
    if u != [] {
      var m := |u| - 1;
      DistanceIsWeight(u[..m], v[..m]);
      assert AddPoly(u, v)[..m] == AddPoly(u[..m], v[..m]);
      AddZero(u[m]);
      if Add(u[m], v[m]) == 0 { SameWhenZero(u[m], v[m]); }
    }
  }

  /** The coefficient beside each power of x is multiplied by two to that power. */
  ghost function Tilt(p: Poly): (r: Poly)
    ensures |r| == |p| && forall i :: 0 <= i < |p| ==> r[i] == Scale(|p| - 1 - i, p[i])
  {
    seq(|p|, i requires 0 <= i < |p| => Scale(|p| - 1 - i, p[i]))
  }

  /** Tilting moves the evaluation on to the next power of two. */
  lemma {:induction false} EvalTilt(p: Poly, s: nat)
    ensures Eval(Tilt(p), s) == Eval(p, s + 1)
    decreases p
  {
    hide Add, Scale;
    if p != [] {
      var m := |p| - 1;
      var q, r := p[..m], Tilt(p[..m]);
      EvalTilt(q, s);
      forall i | 0 <= i < m ensures Tilt(p)[i] == ScaleAll(1, r)[i] { ScaleScale(1, m - 1 - i, p[i]); }
      assert Tilt(p)[..m] == ScaleAll(1, r);
      ScaleNone(p[m]);
      EvalScales(1, r, s);
      ScaleScale(s, 1, Eval(r, s));
    }
  }

  /** The word that has the roots of `p` but the last, and a zero more, at power `x`. */
  ghost function Without(p: Poly, x: nat): (r: Poly)
    ensures |r| == |p| && forall i :: 0 <= i < |p| ==> r[i] == Add(Scale(|p| - 1 - i, p[i]), Scale(x, p[i]))
  {
    AddPoly(Tilt(p), ScaleAll(x, p))
  }

  lemma WithoutVanishes(p: Poly, x: nat, s: nat)
    requires Eval(p, s) == 0 && Eval(p, s + 1) == 0
    ensures Eval(Without(p, x), s) == 0
  {
    hide Add, Scale, Eval, AddPoly, Tilt, ScaleAll;
    EvalTilt(p, s);
    EvalScales(x, p, s);
    EvalAdds(Tilt(p), ScaleAll(x, p), s);
    ScaleZero(x);
    AddZero(0);
  }

  /** Two words have zeros at the same places, except that `q` has one at `i` as well. */
  ghost predicate OneLess(p: Poly, q: Poly, i: nat) {
    |p| == |q| && i < |p| && p[i] != 0 && q[i] == 0 && forall k :: 0 <= k < |p| && k != i ==> (p[k] == 0 <==> q[k] == 0)
  }

  lemma WithoutIsLess(p: Poly, i: nat)
    requires |p| <= 255 && i < |p| && p[i] != 0
    ensures OneLess(p, Without(p, |p| - 1 - i), i)
  {
    hide Add, Scale;
    var x := |p| - 1 - i;
    AddZero(Scale(x, p[i]));
    forall k | 0 <= k < |p| && k != i ensures p[k] == 0 <==> Without(p, x)[k] == 0 {
      var e := |p| - 1 - k;
      if p[k] == 0 {
        ScaleZero(e);
        ScaleZero(x);
        AddZero(0);
      } else if Add(Scale(e, p[k]), Scale(x, p[k])) == 0 {
        SameWhenZero(Scale(e, p[k]), Scale(x, p[k]));
        if e < x { NoZeroDivisors(e, x, p[k]); } else { NoZeroDivisors(x, e, p[k]); }
      }
    }
  }

  lemma {:induction false} SameWeight(p: Poly, q: Poly)
    requires |p| == |q| && forall k :: 0 <= k < |p| ==> (p[k] == 0 <==> q[k] == 0)
    ensures Weight(p) == Weight(q)
    decreases |p|
  {
    if p != [] { SameWeight(p[..|p| - 1], q[..|q| - 1]); }
  }

  lemma {:induction false} LessWeight(p: Poly, q: Poly, i: nat)
    requires OneLess(p, q, i)
    ensures Weight(p) == Weight(q) + 1
    decreases |p|
  {
    var m := |p| - 1;
    if i < m { LessWeight(p[..m], q[..m], i); } else { SameWeight(p[..m], q[..m]); }
  }

  lemma {:induction false} NoWeight(p: Poly)
    requires Weight(p) == 0
    ensures p == Zeros(|p|)
    decreases |p|
  {
    if p != [] {
      NoWeight(p[..|p| - 1]);
      assert p == p[..|p| - 1] + [0];
    }
  }

  lemma {:induction false} SomeWeight(p: Poly) returns (i: nat)
    requires Weight(p) > 0
    ensures i < |p| && p[i] != 0
  {
    i := |p| - 1;
    if p[i] == 0 { i := SomeWeight(p[..i]); }
  }

  lemma {:induction false} EvalZeros(n: nat, s: nat)
    ensures Eval(Zeros(n), s) == 0
  {
    hide Scale, Add;
    if n > 0 {
      assert Zeros(n)[..n - 1] == Zeros(n - 1);
      EvalZeros(n - 1, s);
      ScaleZero(s);
      AddZero(0);
    }
  }

  /** A word with a single place that is not zero does not vanish at one. */
  lemma {:induction false} SingleStays(p: Poly, i: nat)
    requires i < |p| && p[i] != 0 && forall k :: 0 <= k < |p| && k != i ==> p[k] == 0
    ensures Eval(p, 0) == p[i]
    decreases |p|
  {
    hide Scale, Add;
    var m := |p| - 1;
    ScaleNone(Eval(p[..m], 0));
    AddZero(p[i]);
    if i < m {
      SingleStays(p[..m], i);
    } else {
      assert p[..m] == Zeros(m);
      EvalZeros(m, 0);
    }
  }

  /** A word of at most 255 places that vanishes at 1, 2, ..., two to the (k - 1) and is not zero
      has more than k places that are not zero. */
  lemma {:induction false} MoreThanRoots(p: Poly, k: nat)
    requires |p| <= 255 && Weight(p) > 0 && forall s: nat :: s < k ==> Eval(p, s) == 0
    ensures Weight(p) > k
    decreases k
  {
    hide Eval, Weight, Without;
    if k > 0 {
      var i := SomeWeight(p);
      var q := Without(p, |p| - 1 - i);
      WithoutIsLess(p, i);
      LessWeight(p, q, i);
      assert Eval(p, 0) == 0;
      if Weight(q) == 0 {
        NoWeight(q);
        SingleStays(p, i);
        assert false;
      } else {
        forall s: nat | s < k - 1 ensures Eval(q, s) == 0 { WithoutVanishes(p, |p| - 1 - i, s); }
        MoreThanRoots(q, k - 1);
      }
    }
  }

  /** Two different blocks of the same length, each with its error words, at most 255 words in
      all, differ in at least n + 1 places. */
  lemma CodeWordsApart(n: nat, a: Poly, b: Poly)
    requires HasGenerator(n) && |a| == |b| && a != b && |a| + n <= 255
    ensures |ErrorWords(a, Generator(n))| == |ErrorWords(b, Generator(n))| == n
    ensures Distance(a + ErrorWords(a, Generator(n)), b + ErrorWords(b, Generator(n))) >= n + 1
  {
    hide Eval, Weight, Distance, HasGenerator, ErrorWords, Generator, Add;
    var u, v := a + ErrorWords(a, Generator(n)), b + ErrorWords(b, Generator(n));
    GeneratorSize(n);
    var p := AddPoly(u, v);
    forall s: nat | s < n ensures Eval(p, s) == 0 {
      CodeWordVanishes(n, s, a);
      CodeWordVanishes(n, s, b);
      EvalAdds(u, v, s);
      AddZero(0);
    }
    DistanceIsWeight(u, v);
    if Weight(p) == 0 {
      NoWeight(p);
      forall i | 0 <= i < |a| ensures a[i] == b[i] {
        assert p[i] == 0 && u[i] == a[i] && v[i] == b[i];
        SameWhenZero(a[i], b[i]);
      }
      assert false;
    } else {
      MoreThanRoots(p, n);
    }
  }

  lemma GeneratorSize(n: nat)
    requires HasGenerator(n)
    ensures |Generator(n)| == n
  {
  }
}
