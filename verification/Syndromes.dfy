/** The tabulated generators vanish at 1, 2, ..., two to the (n - 1), and so does every block
    followed by its error words. */
module Syndromes {
  import opened Bitwise
  import opened GaloisField
  import opened GaloisTables
  import opened PolyDivision
  import opened ErrorBlock

  // ---- The tables satisfy the recurrence of Gaussian binomial coefficients.

  /** The exponent of two to the `j` plus one. */
  function PlusOne(i: nat): nat {
    match i
    case 0 => 0 case 1 => 25 case 2 => 50 case 3 => 223 case 4 => 100 case 5 => 138 case 6 => 191 case 7 => 112
    case 8 => 200 case 9 => 120 case 10 => 21 case 11 => 245 case 12 => 127 case 13 => 99 case 14 => 224 case 15 => 33
    case 16 => 145 case 17 => 68 case 18 => 240 case 19 => 92 case 20 => 42 case 21 => 10 case 22 => 235 case 23 => 196
    case 24 => 254 case 25 => 1 case 26 => 198 case 27 => 104 case 28 => 193 case 29 => 181 case _ => 66
  }

  lemma PlusOneIs(j: nat)
    requires 1 <= j <= 30
    ensures PlusOne(j) < 255 && Xor(GaloisLog(j), 1) == GaloisLog(PlusOne(j))
  {
    hide Xor;
    FlipLast(GaloisLog(j));
  }

  lemma FlipLast(x: nat)
    ensures Xor(x, 1) == if x % 2 == 0 then x + 1 else x - 1
  {
    hide Xor;
    XorOdd(x, 0);
    XorZero(x / 2);
  }

  /** The exponent of coefficient `i`, the leading one included. */
  function Exponent(n: nat, i: nat): nat {
    if i == 0 then 0 else Coefficient(n, i - 1)
  }

  lemma Recurrence7(i: nat)
    requires i < 7
    ensures (Generator7(i) + PlusOne(i + 1)) % 255
      == ((if i == 0 then 0 else Generator7(i - 1)) + i + PlusOne(7 - i)) % 255
  {
  }

  lemma Recurrence10(i: nat)
    requires i < 10
    ensures (Generator10(i) + PlusOne(i + 1)) % 255
      == ((if i == 0 then 0 else Generator10(i - 1)) + i + PlusOne(10 - i)) % 255
  {
  }

  lemma Recurrence13(i: nat)
    requires i < 13
    ensures (Generator13(i) + PlusOne(i + 1)) % 255
      == ((if i == 0 then 0 else Generator13(i - 1)) + i + PlusOne(13 - i)) % 255
  {
  }

  lemma Recurrence15(i: nat)
    requires i < 15
    ensures (Generator15(i) + PlusOne(i + 1)) % 255
      == ((if i == 0 then 0 else Generator15(i - 1)) + i + PlusOne(15 - i)) % 255
  {
  }

  lemma Recurrence16(i: nat)
    requires i < 16
    ensures (Generator16(i) + PlusOne(i + 1)) % 255
      == ((if i == 0 then 0 else Generator16(i - 1)) + i + PlusOne(16 - i)) % 255
  {
  }

  lemma Recurrence17(i: nat)
    requires i < 17
    ensures (Generator17(i) + PlusOne(i + 1)) % 255
      == ((if i == 0 then 0 else Generator17(i - 1)) + i + PlusOne(17 - i)) % 255
  {
  }

  lemma Recurrence18(i: nat)
    requires i < 18
    ensures (Generator18(i) + PlusOne(i + 1)) % 255
      == ((if i == 0 then 0 else Generator18(i - 1)) + i + PlusOne(18 - i)) % 255
  {
  }

  lemma Recurrence20(i: nat)
    requires i < 20
    ensures (Generator20(i) + PlusOne(i + 1)) % 255
      == ((if i == 0 then 0 else Generator20(i - 1)) + i + PlusOne(20 - i)) % 255
  {
  }

  lemma Recurrence22(i: nat)
    requires i < 22
    ensures (Generator22(i) + PlusOne(i + 1)) % 255
      == ((if i == 0 then 0 else Generator22(i - 1)) + i + PlusOne(22 - i)) % 255
  {
  }

  lemma Recurrence24(i: nat)
    requires i < 24
    ensures (Generator24(i) + PlusOne(i + 1)) % 255
      == ((if i == 0 then 0 else Generator24(i - 1)) + i + PlusOne(24 - i)) % 255
  {
  }

  lemma Recurrence26(i: nat)
    requires i < 26
    ensures (Generator26(i) + PlusOne(i + 1)) % 255
      == ((if i == 0 then 0 else Generator26(i - 1)) + i + PlusOne(26 - i)) % 255
  {
  }

  lemma Recurrence28(i: nat)
    requires i < 28
    ensures (Generator28(i) + PlusOne(i + 1)) % 255
      == ((if i == 0 then 0 else Generator28(i - 1)) + i + PlusOne(28 - i)) % 255
  {
  }

  lemma Recurrence30(i: nat)
    requires i < 30
    ensures (Generator30(i) + PlusOne(i + 1)) % 255
      == ((if i == 0 then 0 else Generator30(i - 1)) + i + PlusOne(30 - i)) % 255
  {
  }

  /** The recurrence, for every generator. */
  lemma Recurrence(n: nat, i: nat)
    requires HasGenerator(n) && i < n
    ensures n <= 30 && (Exponent(n, i + 1) + PlusOne(i + 1)) % 255 == (Exponent(n, i) + i + PlusOne(n - i)) % 255
  {
    hide PlusOne, Generator7, Generator10, Generator13, Generator15, Generator16, Generator17, Generator18,
      Generator20, Generator22, Generator24, Generator26, Generator28, Generator30;
    match n
    case 7 => Recurrence7(i);
    case 10 => Recurrence10(i);
    case 13 => Recurrence13(i);
    case 15 => Recurrence15(i);
    case 16 => Recurrence16(i);
    case 17 => Recurrence17(i);
    case 18 => Recurrence18(i);
    case 20 => Recurrence20(i);
    case 22 => Recurrence22(i);
    case 24 => Recurrence24(i);
    case 26 => Recurrence26(i);
    case 28 => Recurrence28(i);
    case _ => Recurrence30(i);
  }

  // ---- Powers of two.

  function Pow(x: nat): Element {
    Scale(x, 1)
  }

  lemma PowScale(a: nat, x: nat)
    ensures Scale(a, Pow(x)) == Pow(a + x)
  {
    hide Scale;
    ScaleScale(a, x, 1);
  }

  lemma {:induction false} PowReduced(x: nat)
    ensures Pow(x) == Pow(x % 255)
  {
    hide Scale;
    if x >= 255 {
      PowReduced(x - 255);
      ScaleScale(255, x - 255, 1);
      Period(Scale(x - 255, 1));
      assert (x - 255) % 255 == x % 255;
    }
  }

  lemma SamePow(x: nat, y: nat)
    requires x % 255 == y % 255
    ensures Pow(x) == Pow(y)
  {
    hide Pow;
    PowReduced(x);
    PowReduced(y);
  }

  /** Two to the (j + x) plus two to the x. */
  lemma PlusOnePow(j: nat, x: nat)
    requires 1 <= j <= 30
    ensures Add(Pow(j + x), Pow(x)) == Pow(PlusOne(j) + x)
  {
    hide Scale, GaloisLog, PlusOne;
    PlusOneIs(j);
    LogIsPower(j);
    LogIsPower(PlusOne(j));
    ScaleAdds(x, Scale(j, 1), 1);
    ScaleScale(x, j, 1);
    ScaleScale(x, PlusOne(j), 1);
  }

  /** Two has order 255: no smaller power is one. */
  lemma OrderOfTwo(d: nat)
    requires 1 <= d < 255
    ensures Pow(d) != 1
  {
    hide Scale, Log0, Log1, Log2, Log3, Log4, Log5, Log6, Log7, Log8, Log9, Log10, Log11, Log12, Log13, Log14, Log15;
    LogIsPower(d);
    match d / 16
    case 0 => Log0NotOne(d % 16);
    case 1 => Log1NotOne(d % 16);
    case 2 => Log2NotOne(d % 16);
    case 3 => Log3NotOne(d % 16);
    case 4 => Log4NotOne(d % 16);
    case 5 => Log5NotOne(d % 16);
    case 6 => Log6NotOne(d % 16);
    case 7 => Log7NotOne(d % 16);
    case 8 => Log8NotOne(d % 16);
    case 9 => Log9NotOne(d % 16);
    case 10 => Log10NotOne(d % 16);
    case 11 => Log11NotOne(d % 16);
    case 12 => Log12NotOne(d % 16);
    case 13 => Log13NotOne(d % 16);
    case 14 => Log14NotOne(d % 16);
    case _ => Log15NotOne(d % 16);
  }

  lemma Log0NotOne(k: nat)
    requires 1 <= k < 16
    ensures Log0(k) != 1
  {
  }

  lemma Log1NotOne(k: nat)
    requires k < 16
    ensures Log1(k) != 1
  {
  }

  lemma Log2NotOne(k: nat)
    requires k < 16
    ensures Log2(k) != 1
  {
  }

  lemma Log3NotOne(k: nat)
    requires k < 16
    ensures Log3(k) != 1
  {
  }

  lemma Log4NotOne(k: nat)
    requires k < 16
    ensures Log4(k) != 1
  {
  }

  lemma Log5NotOne(k: nat)
    requires k < 16
    ensures Log5(k) != 1
  {
  }

  lemma Log6NotOne(k: nat)
    requires k < 16
    ensures Log6(k) != 1
  {
  }

  lemma Log7NotOne(k: nat)
    requires k < 16
    ensures Log7(k) != 1
  {
  }

  lemma Log8NotOne(k: nat)
    requires k < 16
    ensures Log8(k) != 1
  {
  }

  lemma Log9NotOne(k: nat)
    requires k < 16
    ensures Log9(k) != 1
  {
  }

  lemma Log10NotOne(k: nat)
    requires k < 16
    ensures Log10(k) != 1
  {
  }

  lemma Log11NotOne(k: nat)
    requires k < 16
    ensures Log11(k) != 1
  {
  }

  lemma Log12NotOne(k: nat)
    requires k < 16
    ensures Log12(k) != 1
  {
  }

  lemma Log13NotOne(k: nat)
    requires k < 16
    ensures Log13(k) != 1
  {
  }

  lemma Log14NotOne(k: nat)
    requires k < 16
    ensures Log14(k) != 1
  {
  }

  lemma Log15NotOne(k: nat)
    requires k < 15
    ensures Log15(k) != 1
  {
  }

  /** Scaling by different powers of two gives the same only for zero. */
  lemma NoZeroDivisors(a: nat, b: nat, v: Element)
    requires a < b < 255 && Scale(a, v) == Scale(b, v)
    ensures v == 0
  {
    hide Scale, Pow, GaloisLog, GaloisAntilog;
    if v != 0 {
      var j := GaloisAntilog(v);
      AntilogInverts(v);
      LogIsPower(j);
      PowIs(j);
      PowScale(a, j);
      PowScale(b, j);
      OnlyOnce(a + j, b - a);
    }
  }

  lemma PowIs(j: nat)
    ensures Pow(j) == Scale(j, 1)
  {
  }

  lemma OnlyOnce(x: nat, d: nat)
    requires 1 <= d < 255
    ensures Pow(x) != Pow(x + d)
  {
    hide Scale, Pow;
    if Pow(x) == Pow(x + d) {
      var y := 255 * (x + 1) - x;
      PowScale(y, x);
      PowScale(y, x + d);
      SamePow(y + x, 0);
      SamePow(y + (x + d), d);
      PowZero();
      OrderOfTwo(d);
    }
  }

  lemma PowZero()
    ensures Pow(0) == 1
  {
  }

  // ---- The generator at a power of two.

  /** Exponent of the power of x beside coefficient `i`, at x two to the `s`. */
  function Rise(n: nat, s: nat, i: nat): nat
    requires i <= n
  {
    Product(s, n - i)
  }

  function Product(a: nat, b: nat): nat {
    a * b
  }

  /** The first `m` terms of the generator at two to the `s`. */
  ghost function Terms(n: nat, s: nat, m: nat): Element
    requires m <= n + 1
    decreases m
  {
    if m == 0 then 0 else Add(Terms(n, s, m - 1), Pow(Exponent(n, m - 1) + Rise(n, s, m - 1)))
  }

  /** The same with coefficient `i` multiplied by two to the `i`. */
  ghost function Tilted(n: nat, s: nat, m: nat): Element
    requires m <= n + 1
    decreases m
  {
    if m == 0 then 0 else Add(Tilted(n, s, m - 1), Pow(Exponent(n, m - 1) + (m - 1) + Rise(n, s, m - 1)))
  }

  /** Tilting is evaluating one power lower, up to a factor. */
  lemma {:induction false} TiltedIs(n: nat, s: nat, m: nat)
    requires m <= n + 1 && s >= 1
    ensures Tilted(n, s, m) == Scale(n, Terms(n, s - 1, m))
    decreases m
  {
    hide Add, Scale, Pow, Exponent, Rise;
    if m == 0 {
      ScaleZero(n);
    } else {
      var i: nat := m - 1;
      TiltedIs(n, s, m - 1);
      var t := Exponent(n, i) + Rise(n, s - 1, i);
      ScaleAdds(n, Terms(n, s - 1, m - 1), Pow(t));
      PowScale(n, t);
      OneLower(s, n, i);
    }
  }

  lemma OneLower(s: nat, n: nat, i: nat)
    requires s >= 1 && i <= n
    ensures n + Rise(n, s - 1, i) == i + Rise(n, s, i)
  {
    LessOne(s, n - i);
  }

  lemma LessOne(a: int, b: int)
    ensures (a - 1) * b == a * b - b
  {
  }

  /** What the recurrence says of neighbouring terms. */
  lemma Neighbours(n: nat, s: nat, i: nat)
    requires HasGenerator(n) && i < n
    ensures Add(Pow(s + (Exponent(n, i + 1) + (i + 1) + Rise(n, s, i + 1))),
                Pow(s + (Exponent(n, i + 1) + Rise(n, s, i + 1))))
         == Add(Pow(n + (Exponent(n, i) + Rise(n, s, i))), Pow(Exponent(n, i) + i + Rise(n, s, i)))
  {
    hide Add, Pow, Exponent, PlusOne, HasGenerator, Rise;
    Recurrence(n, i);
    var e, f, x := Exponent(n, i), Exponent(n, i + 1), Rise(n, s, i);
    StepBack(s, n, i);
    PlusOnePow(i + 1, f + x);
    PlusOnePow(n - i, e + i + x);
    SamePow(PlusOne(i + 1) + (f + x), PlusOne(n - i) + (e + i + x)) by {
      SameRest(f + PlusOne(i + 1), e + i + PlusOne(n - i), x);
    }
  }

  lemma StepBack(s: nat, n: nat, i: nat)
    requires i < n
    ensures s + Rise(n, s, i + 1) == Rise(n, s, i)
  {
    LessOne(n - i, s);
  }

  lemma SameRest(a: nat, b: nat, x: nat)
    requires a % 255 == b % 255
    ensures (a + x) % 255 == (b + x) % 255
  {
  }

  /** One side of the functional equation, term by term. */
  ghost function Left(n: nat, s: nat, m: nat): Element
    requires m <= n + 1
  {
    Add(Scale(s, Tilted(n, s, m)), Scale(s, Terms(n, s, m)))
  }

  ghost function Right(n: nat, s: nat, m: nat): Element
    requires m <= n + 1
  {
    Add(Scale(n, Terms(n, s, m)), Tilted(n, s, m))
  }

  lemma LeftNext(n: nat, s: nat, m: nat)
    requires m <= n
    ensures Left(n, s, m + 1)
      == Add(Left(n, s, m),
             Add(Pow(s + (Exponent(n, m) + m + Rise(n, s, m))), Pow(s + (Exponent(n, m) + Rise(n, s, m)))))
  {
    hide Add, Scale, Pow, Exponent, Rise;
    var t, u := Exponent(n, m) + m + Rise(n, s, m), Exponent(n, m) + Rise(n, s, m);
    ScaleAdds(s, Tilted(n, s, m), Pow(t));
    ScaleAdds(s, Terms(n, s, m), Pow(u));
    PowScale(s, t);
    PowScale(s, u);
    AddExchange(Scale(s, Tilted(n, s, m)), Pow(s + t), Scale(s, Terms(n, s, m)), Pow(s + u));
  }

  lemma RightNext(n: nat, s: nat, m: nat)
    requires m <= n
    ensures Right(n, s, m + 1)
      == Add(Right(n, s, m), Add(Pow(n + (Exponent(n, m) + Rise(n, s, m))), Pow(Exponent(n, m) + m + Rise(n, s, m))))
  {
    hide Add, Scale, Pow, Exponent, Rise;
    var t, u := Exponent(n, m) + m + Rise(n, s, m), Exponent(n, m) + Rise(n, s, m);
    ScaleAdds(n, Terms(n, s, m), Pow(u));
    PowScale(n, u);
    AddExchange(Scale(n, Terms(n, s, m)), Pow(n + u), Tilted(n, s, m), Pow(t));
  }

  lemma {:induction false} Shifted(n: nat, s: nat, m: nat)
    requires HasGenerator(n) && m <= n
    ensures Left(n, s, m + 1) == Right(n, s, m)
    decreases m
  {
    hide Add, Pow, Exponent, HasGenerator, Left, Right, Rise;
    if m == 0 {
      LeftNext(n, s, 0);
      NoTerms(n, s);
      Halved(Pow(s + (Exponent(n, 0) + 0 + Rise(n, s, 0))));
    } else {
      Shifted(n, s, m - 1);
      LeftNext(n, s, m);
      RightNext(n, s, m - 1);
      Neighbours(n, s, m - 1);
    }
  }

  lemma Halved(a: Element)
    ensures Add(0, Add(a, a)) == 0
  {
    hide Add;
    AddZero(a);
    AddZero(0);
  }

  lemma NoTerms(n: nat, s: nat)
    ensures Left(n, s, 0) == 0 && Right(n, s, 0) == 0 && Exponent(n, 0) == 0
  {
    ScaleZero(s);
    ScaleZero(n);
    AddZero(0);
  }

  /** The functional equation: both sides agree over all terms. */
  lemma FunctionalEquation(n: nat, s: nat)
    requires HasGenerator(n)
    ensures Left(n, s, n + 1) == Right(n, s, n + 1)
  {
    hide Add, Pow, Exponent, HasGenerator, Left, Right, Rise;
    Shifted(n, s, n);
    RightNext(n, s, n);
    AddZero(Right(n, s, n));
    SwapSum(n, Exponent(n, n) + Rise(n, s, n));
    AddZero(Pow(Exponent(n, n) + n + Rise(n, s, n)));
  }

  lemma SwapSum(a: nat, b: nat)
    ensures a + b == b + a
  {
  }

  /** The generator vanishes at two to the `s` for every s below n. */
  lemma {:induction false} GeneratorVanishes(n: nat, s: nat)
    requires HasGenerator(n) && s < n
    ensures Terms(n, s, n + 1) == 0
    decreases s
  {
    hide Add, Scale, Pow, Exponent, Terms, Tilted;
    var f, h := Terms(n, s, n + 1), Tilted(n, s, n + 1);
    FunctionalEquation(n, s);
    Sizes(n);
    if s == 0 {
      ScaleNone(h);
      ScaleNone(f);
      Untangle(h, f, Scale(n, f), h);
      AddZero(h);
      SameWhenZero(f, Scale(n, f));
      NoZeroDivisors(0, n, f);
    } else {
      GeneratorVanishes(n, s - 1);
      TiltedIs(n, s, n + 1);
      ScaleZero(n);
      ScaleZero(s);
      AddZero(Scale(s, f));
      AddZero(Scale(n, f));
      NoZeroDivisors(s, n, f);
    }
  }

  lemma Sizes(n: nat)
    requires HasGenerator(n)
    ensures 7 <= n <= 30
  {
  }

  lemma ScaleNone(a: Element)
    ensures Scale(0, a) == a
  {
  }

  /** From h + f = g + h to f + g = h + h. */
  lemma Untangle(h: Element, f: Element, g: Element, k: Element)
    requires Add(h, f) == Add(g, k) && h == k
    ensures Add(f, g) == Add(h, h)
  {
    hide Add;
    AddCommutes(h, f);
    AddCancels(f, h);
    AddCancels(g, h);
    AddZero(h);
    AddZero(f);
  }

  lemma SameWhenZero(a: Element, b: Element)
    requires Add(a, b) == 0
    ensures a == b
  {
    hide Add;
    AddCancels(a, b);
    AddZero(b);
  }

  // ---- Code words at a power of two.

  /** The polynomial `p` at two to the `s`, by Horner's rule. */
  ghost function Eval(p: Poly, s: nat): Element
    decreases p
  {
    if p == [] then 0 else Add(Scale(s, Eval(p[..|p| - 1], s)), p[|p| - 1])
  }

  lemma {:induction false} EvalAdds(p: Poly, q: Poly, s: nat)
    requires |p| == |q|
    ensures Eval(AddPoly(p, q), s) == Add(Eval(p, s), Eval(q, s))
    decreases p
  {
    hide Add, Scale;
    if p == [] {
      AddZero(0);
    } else {
      var m := |p| - 1;
      EvalAdds(p[..m], q[..m], s);
      assert AddPoly(p, q)[..m] == AddPoly(p[..m], q[..m]);
      ScaleAdds(s, Eval(p[..m], s), Eval(q[..m], s));
      AddExchange(Scale(s, Eval(p[..m], s)), Scale(s, Eval(q[..m], s)), p[m], q[m]);
    }
  }

  /** A leading zero does not matter. */
  lemma {:induction false} EvalLeadingZero(p: Poly, s: nat)
    ensures Eval([0] + p, s) == Eval(p, s)
    decreases p
  {
    hide Add, Scale;
    if p == [] {
      assert ([0] + p)[..0] == [] && ([0] + p)[0] == 0;
      ScaleZero(s);
      AddZero(0);
    } else {
      var m := |p| - 1;
      EvalLeadingZero(p[..m], s);
      assert ([0] + p)[..m + 1] == [0] + p[..m];
    }
  }

  /** A polynomial that vanishes still does with zeros behind it. */
  lemma {:induction false} EvalTrailingZeros(p: Poly, s: nat, m: nat)
    requires Eval(p, s) == 0
    ensures Eval(p + Zeros(m), s) == 0
    decreases m
  {
    hide Add, Scale;
    if m == 0 {
      assert p + Zeros(0) == p;
    } else {
      EvalTrailingZeros(p, s, m - 1);
      assert (p + Zeros(m))[..|p| + m - 1] == p + Zeros(m - 1);
      ScaleZero(s);
      AddZero(0);
    }
  }

  ghost function ScaleAll(j: nat, p: Poly): (r: Poly)
    ensures |r| == |p| && forall i :: 0 <= i < |p| ==> r[i] == Scale(j, p[i])
  {
    seq(|p|, i requires 0 <= i < |p| => Scale(j, p[i]))
  }

  lemma {:induction false} EvalScales(j: nat, p: Poly, s: nat)
    ensures Eval(ScaleAll(j, p), s) == Scale(j, Eval(p, s))
    decreases p
  {
    hide Add, Scale;
    if p == [] {
      ScaleZero(j);
    } else {
      var m := |p| - 1;
      EvalScales(j, p[..m], s);
      assert ScaleAll(j, p)[..m] == ScaleAll(j, p[..m]);
      ScaleScale(s, j, Eval(p[..m], s));
      ScaleScale(j, s, Eval(p[..m], s));
      ScaleAdds(j, Scale(s, Eval(p[..m], s)), p[m]);
    }
  }

  /** The generator with its leading coefficient, times `c`. */
  ghost function Whole(g: seq<nat>, c: Element): Poly {
    [c] + Term(g, c)
  }

  lemma WholeAt(n: nat, i: nat)
    requires i <= n
    ensures Whole(Generator(n), 1)[i] == Pow(Exponent(n, i))
  {
    hide Scale, Coefficient;
    if i == 0 { ScaleNone(1); }
  }

  /** Horner's rule and the sum of terms agree. */
  lemma {:induction false} EvalIsTerms(n: nat, s: nat, m: nat)
    requires m <= n + 1
    ensures m <= n ==> Scale(s, Scale(Rise(n, s, m), Eval(Whole(Generator(n), 1)[..m], s))) == Terms(n, s, m)
    ensures m == n + 1 ==> Eval(Whole(Generator(n), 1)[..m], s) == Terms(n, s, m)
    decreases m
  {
    hide Add, Scale, Pow, Exponent, Rise, Generator, Whole;
    var w := Whole(Generator(n), 1);
    WholeLength(n);
    if m == 0 {
      ScaleZero(Rise(n, s, 0));
      ScaleZero(s);
    } else {
      var i: nat := m - 1;
      EvalIsTerms(n, s, i);
      WholeAt(n, i);
      assert w[..m][..i] == w[..i] && w[..m][i] == w[i];
      var e, x := Eval(w[..i], s), Pow(Exponent(n, i));
      assert Eval(w[..m], s) == Add(Scale(s, e), x);
      if m == n + 1 {
        RiseEnd(n, s);
        ScaleNone(e);
      } else {
        StepBack(s, n, i);
      }
      TermJoins(n, s, i, e);
    }
  }

  lemma WholeLength(n: nat)
    ensures |Whole(Generator(n), 1)| == n + 1
  {
  }

  lemma RiseEnd(n: nat, s: nat)
    ensures Rise(n, s, n) == 0
  {
  }

  /** Taking one more coefficient, before and after raising. */
  lemma TermJoins(n: nat, s: nat, i: nat, e: Element)
    requires i <= n
    ensures var x := Pow(Exponent(n, i));
      && (i < n ==>
        Scale(s, Scale(Rise(n, s, i + 1), Add(Scale(s, e), x)))
        == Add(Scale(s, Scale(Rise(n, s, i), e)), Pow(Exponent(n, i) + Rise(n, s, i))))
      && (i == n ==> Pow(Exponent(n, i) + Rise(n, s, i)) == x)
  {
    hide Add, Scale, Pow, Exponent, Rise;
    var x := Pow(Exponent(n, i));
    if i < n {
      var r, t := Rise(n, s, i + 1), Rise(n, s, i);
      StepBack(s, n, i);
      ScaleScale(s, r, Add(Scale(s, e), x));
      ScaleAdds(t, Scale(s, e), x);
      ScaleScale(t, s, e);
      ScaleScale(s, t, e);
      PowScale(t, Exponent(n, i));
    } else {
      RiseEnd(n, s);
    }
  }

  /** Every multiple of the generator by one element vanishes. */
  lemma WholeVanishes(n: nat, s: nat, c: Element)
    requires HasGenerator(n) && s < n
    ensures Eval(Whole(Generator(n), c), s) == 0
  {
    hide Add, Scale, Pow, GaloisLog, GaloisAntilog, Coefficient, Eval, HasGenerator;
    var g := Generator(n);
    GeneratorVanishes(n, s);
    EvalIsTerms(n, s, n + 1);
    assert Whole(g, 1)[..n + 1] == Whole(g, 1);
    if c == 0 {
      forall i | 0 <= i < n ensures Term(g, 0)[i] == 0 { ScaleZero(g[i]); }
      assert Whole(g, 0) == [] + Zeros(n + 1);
      EvalNone(s);
      EvalTrailingZeros([], s, n + 1);
    } else {
      var j := GaloisAntilog(c);
      AntilogInverts(c);
      LogIsPower(j);
      forall i | 0 <= i < n ensures Scale(g[i], c) == Scale(j, Scale(g[i], 1)) {
        ScaleScale(g[i], j, 1);
        ScaleScale(j, g[i], 1);
      }
      assert Whole(g, c) == ScaleAll(j, Whole(g, 1));
      EvalScales(j, Whole(g, 1), s);
      ScaleZero(j);
    }
  }

  lemma EvalNone(s: nat)
    ensures Eval([], s) == 0
  {
  }

  lemma {:induction false} MultipleVanishes(n: nat, s: nat, q: Poly)
    requires HasGenerator(n) && s < n
    ensures Eval(Multiple(q, Generator(n)), s) == 0
    decreases q
  {
    hide Add, Scale, Coefficient, Eval, HasGenerator, AddPoly, Term, Multiple;
    var g := Generator(n);
    if q == [] {
      NoMultiple(g);
      EvalNone(s);
      EvalTrailingZeros([], s, n);
      assert [] + Zeros(n) == Zeros(n);
    } else {
      var c, rest := q[0], q[1..];
      assert q == [c] + rest;
      MultipleStep(c, rest, g);
      MultipleVanishes(n, s, rest);
      WholeVanishes(n, s, c);
      EvalTrailingZeros(Whole(g, c), s, |rest|);
      assert [c] + (Term(g, c) + Zeros(|rest|)) == Whole(g, c) + Zeros(|rest|);
      EvalLeadingZero(Multiple(rest, g), s);
      EvalAdds([c] + (Term(g, c) + Zeros(|rest|)), [0] + Multiple(rest, g), s);
      AddZero(0);
    }
  }

  /** A block followed by its error words vanishes at 1, 2, 4, ..., two to the (n - 1). */
  lemma CodeWordVanishes(n: nat, s: nat, block: Poly)
    requires HasGenerator(n) && s < n
    ensures Eval(block + ErrorWords(block, Generator(n)), s) == 0
  {
    hide Eval, ErrorWords, Multiple, Quotient, HasGenerator, Generator;
    var g := Generator(n);
    Divisible(block, g);
    MultipleVanishes(n, s, Quotient(block + Zeros(|g|), g));
  }
}
