/** Arithmetic in the field of 256 elements, with multiplication by powers of two. */
module GaloisField {
  import opened Kraft
  import opened Bitwise

  type Element = x: nat | x < 256

  function Add(a: Element, b: Element): (r: Element) {
    EightBits(a, b);
    Xor(a, b)
  }

  lemma EightBits(a: nat, b: nat)
    requires a < 256 && b < 256
    ensures Xor(a, b) < 256
  {
    assert Pow2(8) == 256 by { assert Pow2(4) == 16; }
    XorBound(a, b, 8);
  }

  /** Twice `a`, reduced by the polynomial 0x11D. */
  function Double(a: Element): (r: Element) {
    if a >= 128 then Add(2 * a - 256, 29) else 2 * a
  }

  /** `a` times two to the `k`. */
  function Scale(k: nat, a: Element): (r: Element)
    decreases k
  {
    if k == 0 then a else Double(Scale(k - 1, a))
  }

  lemma AddZero(a: Element)
    ensures Add(a, 0) == a && Add(0, a) == a && Add(a, a) == 0
  {
    XorZero(a);
    XorSelf(a);
  }

  lemma AddCommutes(a: Element, b: Element)
    ensures Add(a, b) == Add(b, a)
  {
    XorCommutes(a, b);
  }

  lemma AddAssociates(a: Element, b: Element, c: Element)
    ensures Add(Add(a, b), c) == Add(a, Add(b, c))
  {
    XorAssociates(a, b, c);
  }

  lemma AddExchange(a: Element, b: Element, c: Element, d: Element)
    ensures Add(Add(a, b), Add(c, d)) == Add(Add(a, c), Add(b, d))
  {
    XorExchange(a, b, c, d);
  }

  /** Adding twice cancels. */
  lemma AddCancels(a: Element, b: Element)
    ensures Add(Add(a, b), b) == a && Add(b, Add(b, a)) == a
  {
    hide Add;
    AddAssociates(a, b, b);
    AddAssociates(b, b, a);
    AddZero(b);
    AddZero(a);
  }

  lemma DoubleLow(a: nat, b: nat)
    requires a < 128 && b < 128
    ensures Xor(2 * a, 2 * b) == 2 * Xor(a, b) && Xor(a, b) < 128
  {
    hide Xor;
    assert Pow2(7) == 128 by { assert Pow2(4) == 16; }
    XorStep(2 * a, 2 * b);
    XorBound(a, b, 7);
  }

  lemma TopBit(a: Element, b: Element)
    ensures var lo := Xor(a % 128, b % 128);
      lo < 128 && Add(a, b) == if (a >= 128) == (b >= 128) then lo else lo + 128
  {
    hide Xor, Pow2;
    assert Pow2(7) == 128 by { SevenBits(); }
    var x, y, s, t := a % 128, b % 128, a / 128, b / 128;
    XorSplit(x, s, y, t, 7);
    XorBound(x, y, 7);
    XorSmall();
    assert s <= 1 && t <= 1;
  }

  lemma SevenBits()
    ensures Pow2(7) == 128
  {
    assert Pow2(4) == 16;
  }

  lemma XorSmall()
    ensures Xor(0, 0) == 0 && Xor(0, 1) == 1 && Xor(1, 0) == 1 && Xor(1, 1) == 0
  {
    XorZero(1);
    XorSelf(1);
  }

  lemma DoubleIs(a: Element)
    ensures Double(a) == if a >= 128 then Add(2 * (a % 128), 29) else 2 * (a % 128)
  {
    hide Add;
  }

  lemma AddDoubles(a: nat, b: nat)
    requires a < 128 && b < 128
    ensures Xor(a, b) < 128 && Add(2 * a, 2 * b) == 2 * Xor(a, b)
  {
    hide Xor;
    DoubleLow(a, b);
  }

  /** Doubling distributes over addition. */
  lemma DoubleAdds(a: Element, b: Element)
    ensures Double(Add(a, b)) == Add(Double(a), Double(b))
  {
    hide Add, Xor, Double;
    var x, y: nat := a % 128, b % 128;
    TopBit(a, b);
    AddDoubles(x, y);
    DoubleHalves(2 * x, 2 * y);
    DoubleIs(a);
    DoubleIs(b);
    DoubleIs(Add(a, b));
  }

  lemma DoubleHalves(x: Element, y: Element)
    ensures Add(Add(x, 29), Add(y, 29)) == Add(x, y)
    ensures Add(x, Add(y, 29)) == Add(Add(x, y), 29) == Add(Add(x, 29), y)
  {
    hide Add;
    AddExchange(x, 29, y, 29);
    AddZero(29);
    AddZero(Add(x, y));
    AddAssociates(x, y, 29);
    AddCommutes(y, 29);
    AddAssociates(x, 29, y);
  }

  lemma {:induction false} ScaleAdds(k: nat, a: Element, b: Element)
    ensures Scale(k, Add(a, b)) == Add(Scale(k, a), Scale(k, b))
    decreases k
  {
    hide Add, Double;
    if k > 0 {
      ScaleAdds(k - 1, a, b);
      DoubleAdds(Scale(k - 1, a), Scale(k - 1, b));
    }
  }

  lemma {:induction false} ScaleZero(k: nat)
    ensures Scale(k, 0) == 0
    decreases k
  {
    if k > 0 { ScaleZero(k - 1); }
  }

  lemma {:induction false} ScaleScale(j: nat, k: nat, a: Element)
    ensures Scale(j, Scale(k, a)) == Scale(j + k, a)
    decreases j
  {
    if j > 0 { ScaleScale(j - 1, k, a); }
  }
}

/** Division of polynomials over the field by a monic generator whose other coefficients are
    given as exponents; the highest power comes first. */
module PolyDivision {
  import opened GaloisField

  type Poly = seq<Element>

  function Zeros(n: nat): (p: Poly)
    ensures |p| == n && forall i :: 0 <= i < n ==> p[i] == 0
  {
    seq(n, _ => 0)
  }

  function AddPoly(p: Poly, q: Poly): (r: Poly)
    requires |p| == |q|
    ensures |r| == |p| && forall i :: 0 <= i < |p| ==> r[i] == Add(p[i], q[i])
  {
    seq(|p|, i requires 0 <= i < |p| => Add(p[i], q[i]))
  }

  /** `c` times the generator, without the leading coefficient. */
  function Term(g: seq<nat>, c: Element): (r: Poly)
    ensures |r| == |g| && forall i :: 0 <= i < |g| ==> r[i] == Scale(g[i], c)
  {
    seq(|g|, i requires 0 <= i < |g| => Scale(g[i], c))
  }

  /** One step: the leading coefficient goes, and that much of the generator with it. */
  function Reduce(p: Poly, g: seq<nat>): (r: Poly)
    requires |p| > |g|
    ensures |r| == |p| - 1
  {
    AddPoly(p[1..|g| + 1], Term(g, p[0])) + p[|g| + 1..]
  }

  function Remainder(p: Poly, g: seq<nat>): (r: Poly)
    ensures |p| >= |g| ==> |r| == |g|
    decreases |p|
  {
    if |p| <= |g| then p else Remainder(Reduce(p, g), g)
  }

  /** The error words of a block. */
  function ErrorWords(block: Poly, g: seq<nat>): (r: Poly)
    ensures |r| == |g|
  {
    Remainder(block + Zeros(|g|), g)
  }

  /** `q` times the generator. */
  ghost function Multiple(q: Poly, g: seq<nat>): (r: Poly)
    ensures |r| == |q| + |g|
  {
    if q == [] then Zeros(|g|)
    else AddPoly([q[0]] + (Term(g, q[0]) + Zeros(|q| - 1)), [0] + Multiple(q[1..], g))
  }

  ghost function Quotient(p: Poly, g: seq<nat>): (q: Poly)
    requires |p| >= |g|
    ensures |q| == |p| - |g|
    decreases |p|
  {
    if |p| == |g| then [] else [p[0]] + Quotient(Reduce(p, g), g)
  }

  // ---- Polynomials add like their coefficients.

  lemma AddPolyZero(p: Poly)
    ensures AddPoly(p, Zeros(|p|)) == p && AddPoly(Zeros(|p|), p) == p && AddPoly(p, p) == Zeros(|p|)
  {
    hide Add;
    forall i | 0 <= i < |p| ensures Add(p[i], 0) == p[i] && Add(0, p[i]) == p[i] && Add(p[i], p[i]) == 0 {
      AddZero(p[i]);
    }
  }

  lemma AddPolyAssociates(p: Poly, q: Poly, r: Poly)
    requires |p| == |q| == |r|
    ensures AddPoly(AddPoly(p, q), r) == AddPoly(p, AddPoly(q, r))
  {
    hide Add;
    forall i | 0 <= i < |p| ensures Add(Add(p[i], q[i]), r[i]) == Add(p[i], Add(q[i], r[i])) {
      AddAssociates(p[i], q[i], r[i]);
    }
  }

  lemma AddPolyExchange(a: Poly, b: Poly, c: Poly, d: Poly)
    requires |a| == |b| == |c| == |d|
    ensures AddPoly(AddPoly(a, b), AddPoly(c, d)) == AddPoly(AddPoly(a, c), AddPoly(b, d))
  {
    hide Add;
    forall i | 0 <= i < |a| ensures Add(Add(a[i], b[i]), Add(c[i], d[i])) == Add(Add(a[i], c[i]), Add(b[i], d[i])) {
      AddExchange(a[i], b[i], c[i], d[i]);
    }
  }

  lemma AddPolyConcat(a: Poly, b: Poly, c: Poly, d: Poly)
    requires |a| == |c| && |b| == |d|
    ensures AddPoly(a + b, c + d) == AddPoly(a, c) + AddPoly(b, d)
  {
    hide Add;
  }

  lemma TermAdds(g: seq<nat>, a: Element, b: Element)
    ensures Term(g, Add(a, b)) == AddPoly(Term(g, a), Term(g, b))
  {
    hide Add, Scale;
    forall i | 0 <= i < |g| ensures Scale(g[i], Add(a, b)) == Add(Scale(g[i], a), Scale(g[i], b)) {
      ScaleAdds(g[i], a, b);
    }
  }

  // ---- Division.

  /** The polynomial one step later differs by the generator's multiple that was taken off. */
  lemma ReduceBack(p: Poly, g: seq<nat>)
    requires |p| > |g|
    ensures AddPoly([p[0]] + (Term(g, p[0]) + Zeros(|p| - |g| - 1)), [0] + Reduce(p, g)) == p
  {
    hide Add, Scale;
    var c, t, n := p[0], Term(g, p[0]), |p| - |g| - 1;
    var head, tail := p[1..|g| + 1], p[|g| + 1..];
    AddPolyConcat([c], t + Zeros(n), [0], Reduce(p, g));
    AddPolyConcat(t, Zeros(n), AddPoly(head, t), tail);
    AddZero(c);
    AddPolyZero(tail);
    AddBack(t, head);
    assert p == [c] + (head + tail);
  }

  lemma AddBack(t: Poly, head: Poly)
    requires |t| == |head|
    ensures AddPoly(t, AddPoly(head, t)) == head
  {
    hide Add;
    forall i | 0 <= i < |t| ensures Add(t[i], Add(head[i], t[i])) == head[i] {
      AddCommutes(head[i], t[i]);
      AddCancels(head[i], t[i]);
    }
  }

  lemma MultipleStep(c: Element, q: Poly, g: seq<nat>)
    ensures Multiple([c] + q, g) == AddPoly([c] + (Term(g, c) + Zeros(|q|)), [0] + Multiple(q, g))
  {
    hide AddPoly, Term;
    assert ([c] + q)[1..] == q;
  }

  /** Every polynomial is its quotient times the generator, plus its remainder. */
  lemma {:induction false} Division(p: Poly, g: seq<nat>)
    requires |p| >= |g|
    ensures AddPoly(Multiple(Quotient(p, g), g), Zeros(|p| - |g|) + Remainder(p, g)) == p
    decreases |p|
  {
    hide Reduce, AddPoly, Term, Multiple;
    if |p| == |g| {
      NoMultiple(g);
      AddPolyZero(p);
      assert Zeros(0) + p == p;
    } else {
      var r, q := Reduce(p, g), Quotient(Reduce(p, g), g);
      var taken := [p[0]] + (Term(g, p[0]) + Zeros(|q|));
      var rest := Zeros(|q|) + Remainder(r, g);
      Division(r, g);
      MultipleStep(p[0], q, g);
      assert Zeros(|p| - |g|) + Remainder(p, g) == [0] + rest;
      AddPolyAssociates(taken, [0] + Multiple(q, g), [0] + rest);
      AddPolyConcat([0], Multiple(q, g), [0], rest);
      OneZero();
      ReduceBack(p, g);
    }
  }

  lemma NoMultiple(g: seq<nat>)
    ensures Multiple([], g) == Zeros(|g|)
  {
  }

  lemma OneZero()
    ensures AddPoly([0], [0]) == [0]
  {
    AddZero(0);
    assert AddPoly([0], [0])[0] == 0;
  }

  /** Data and error words together are a multiple of the generator. */
  lemma Divisible(block: Poly, g: seq<nat>)
    ensures block + ErrorWords(block, g) == Multiple(Quotient(block + Zeros(|g|), g), g)
  {
    hide AddPoly, Multiple, Quotient, Remainder;
    var p := block + Zeros(|g|);
    var m, e := Multiple(Quotient(p, g), g), Zeros(|block|) + ErrorWords(block, g);
    Division(p, g);
    AddPolyAssociates(m, e, e);
    AddPolyZero(e);
    AddPolyZero(m);
    AddPolyConcat(block, Zeros(|g|), Zeros(|block|), ErrorWords(block, g));
    AddPolyZero(block);
    AddPolyZero(ErrorWords(block, g));
  }

  // ---- The error words add like the data.

  lemma ReduceAdds(p: Poly, q: Poly, g: seq<nat>)
    requires |p| == |q| > |g|
    ensures Reduce(AddPoly(p, q), g) == AddPoly(Reduce(p, g), Reduce(q, g))
  {
    hide Add, Scale;
    var n := |g| + 1;
    var a, b, c, d := p[1..n], q[1..n], p[n..], q[n..];
    TermAdds(g, p[0], q[0]);
    AddPolyExchange(a, b, Term(g, p[0]), Term(g, q[0]));
    AddPolyConcat(AddPoly(a, Term(g, p[0])), c, AddPoly(b, Term(g, q[0])), d);
    assert AddPoly(p, q)[1..n] == AddPoly(a, b) && AddPoly(p, q)[n..] == AddPoly(c, d);
  }

  lemma {:induction false} RemainderAdds(p: Poly, q: Poly, g: seq<nat>)
    requires |p| == |q| >= |g|
    ensures Remainder(AddPoly(p, q), g) == AddPoly(Remainder(p, g), Remainder(q, g))
    decreases |p|
  {
    hide Reduce, AddPoly;
    if |p| > |g| {
      ReduceAdds(p, q, g);
      RemainderAdds(Reduce(p, g), Reduce(q, g), g);
    }
  }

  lemma ErrorWordsAdd(a: Poly, b: Poly, g: seq<nat>)
    requires |a| == |b|
    ensures ErrorWords(AddPoly(a, b), g) == AddPoly(ErrorWords(a, g), ErrorWords(b, g))
  {
    hide AddPoly, Remainder;
    var z := Zeros(|g|);
    RemainderAdds(a + z, b + z, g);
    AddPolyConcat(a, z, b, z);
    AddPolyZero(z);
  }

  // ---- The error words are the only ones that work.

  lemma {:induction false} LowMultiple(q: Poly, g: seq<nat>)
    requires forall i :: 0 <= i < |q| ==> Multiple(q, g)[i] == 0
    ensures Multiple(q, g) == Zeros(|q| + |g|)
  {
    hide Add;
    if q != [] {
      var m := Multiple(q[1..], g);
      assert Multiple(q, g)[0] == Add(q[0], 0);
      AddZero(q[0]);
      forall i | 0 <= i < |g| ensures Term(g, 0)[i] == 0 { ScaleZero(g[i]); }
      AddPolyZero([0] + m);
      assert [q[0]] + (Term(g, q[0]) + Zeros(|q| - 1)) == Zeros(|q| + |g|);
      assert Multiple(q, g) == [0] + m;
      forall i | 0 <= i < |q| - 1 ensures m[i] == 0 { assert Multiple(q, g)[i + 1] == m[i]; }
      LowMultiple(q[1..], g);
    }
  }

  lemma {:induction false} MultipleAdds(p: Poly, q: Poly, g: seq<nat>)
    requires |p| == |q|
    ensures Multiple(AddPoly(p, q), g) == AddPoly(Multiple(p, g), Multiple(q, g))
  {
    hide AddPoly, Term, Multiple;
    if p == [] {
      NoMultiple(g);
      AddPolyZero(Zeros(|g|));
      AddNone();
    } else {
      var c, d, p', q' := p[0], q[0], p[1..], q[1..];
      var a, b := [c] + (Term(g, c) + Zeros(|p'|)), [d] + (Term(g, d) + Zeros(|p'|));
      MultipleAdds(p', q', g);
      AddPolyFirst(p, q);
      MultipleStep(c, p', g);
      MultipleStep(d, q', g);
      MultipleStep(Add(c, d), AddPoly(p', q'), g);
      assert p == [c] + p' && q == [d] + q';
      FirstRowAdds(g, c, d, |p'|);
      AddPolyConcat([0], Multiple(p', g), [0], Multiple(q', g));
      OneZero();
      AddPolyExchange(a, b, [0] + Multiple(p', g), [0] + Multiple(q', g));
    }
  }

  lemma AddNone()
    ensures AddPoly([], []) == []
  {
  }

  lemma AddPolyFirst(p: Poly, q: Poly)
    requires |p| == |q| > 0
    ensures AddPoly(p, q) == [Add(p[0], q[0])] + AddPoly(p[1..], q[1..])
  {
    hide Add;
  }

  lemma FirstRowAdds(g: seq<nat>, c: Element, d: Element, n: nat)
    ensures AddPoly([c] + (Term(g, c) + Zeros(n)), [d] + (Term(g, d) + Zeros(n)))
      == [Add(c, d)] + (Term(g, Add(c, d)) + Zeros(n))
  {
    hide Add, AddPoly, Term;
    TermAdds(g, c, d);
    AddPolyZero(Zeros(n));
    AddPolyConcat(Term(g, c), Zeros(n), Term(g, d), Zeros(n));
    AddPolyConcat([c], Term(g, c) + Zeros(n), [d], Term(g, d) + Zeros(n));
    AddOne(c, d);
  }

  lemma AddOne(c: Element, d: Element)
    ensures AddPoly([c], [d]) == [Add(c, d)]
  {
    hide Add;
  }

  /** Two endings that both make the block a multiple of the generator are equal. */
  lemma OnlyErrorWords(block: Poly, e: Poly, f: Poly, p: Poly, q: Poly, g: seq<nat>)
    requires |e| == |f| == |g| && |p| == |q| == |block|
    requires block + e == Multiple(p, g) && block + f == Multiple(q, g)
    ensures e == f
  {
    hide Add, Multiple;
    var m := AddPoly(block + e, block + f);
    MultipleAdds(p, q, g);
    AddPolyConcat(block, e, block, f);
    AddPolyZero(block);
    LowMultiple(AddPoly(p, q), g);
    assert m[|block|..] == AddPoly(e, f);
    forall i | 0 <= i < |e| ensures e[i] == f[i] {
      assert AddPoly(e, f)[i] == 0;
      AddCancels(e[i], f[i]);
      AddZero(f[i]);
    }
  }
}
