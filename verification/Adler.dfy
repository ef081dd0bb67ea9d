/** The Adler-32 checksum (section 2.2 of RFC 1950), with the modulo put off for 5552 bytes. */
module Adler {
  import opened Values

  const BASE := 65521
  const BLOCK := 5552
  const U32 := 0x1_0000_0000

  /** One more byte: two sums, both reduced. */
  ghost function Step(p: (nat, nat), c: Byte): (r: (nat, nat))
    ensures r.0 < BASE && r.1 < BASE
  {
    var s := (p.0 + c as nat) % BASE;
    (s, (p.1 + s) % BASE)
  }

  /** The definition: the sums reduced after every byte. */
  ghost function Bytewise(a: nat, b: nat, data: seq<Byte>): (r: (nat, nat))
    ensures data != [] ==> r.0 < BASE && r.1 < BASE
    decreases data
  {
    if data == [] then (a, b) else Step(Bytewise(a, b, data[..|data| - 1]), data[|data| - 1])
  }

  /** The same sums without reduction. */
  ghost function Low(a: nat, data: seq<Byte>): nat
    decreases data
  {
    if data == [] then a else Low(a, data[..|data| - 1]) + data[|data| - 1] as nat
  }

  ghost function High(a: nat, b: nat, data: seq<Byte>): nat
    decreases data
  {
    if data == [] then b else High(a, b, data[..|data| - 1]) + Low(a, data)
  }

  lemma {:induction false} Reduces(a: nat, b: nat, data: seq<Byte>)
    ensures Bytewise(a, b, data).0 % BASE == Low(a, data) % BASE
      && Bytewise(a, b, data).1 % BASE == High(a, b, data) % BASE
    decreases data
  {
    if data != [] {
      var n := |data| - 1;
      Reduces(a, b, data[..n]);
      var p := Bytewise(a, b, data[..n]);
      SameMod(p.0, Low(a, data[..n]), data[n], data[n]);
      SameMod(p.1, High(a, b, data[..n]), (p.0 + data[n] as nat) % BASE, Low(a, data));
    }
  }

  lemma SameMod(x: nat, y: nat, c: nat, d: nat)
    requires x % BASE == y % BASE && c % BASE == d % BASE
    ensures (x + c) % BASE == (y + d) % BASE && (x + c) % BASE % BASE == (x + c) % BASE
  {
  }

  /** The definition in two parts. */
  lemma {:induction false} BytewiseConcat(a: nat, b: nat, x: seq<Byte>, y: seq<Byte>)
    ensures Bytewise(a, b, x + y) == Bytewise(Bytewise(a, b, x).0, Bytewise(a, b, x).1, y)
    decreases |y|
  {
    hide Step;
    if y == [] {
      assert x + y == x;
    } else {
      var n := |y| - 1;
      BytewiseConcat(a, b, x, y[..n]);
      assert (x + y)[..|x| + n] == x + y[..n];
    }
  }

  /** How far the sums can grow over a block. */
  lemma {:induction false} Bounds(a: nat, b: nat, data: seq<Byte>)
    ensures Low(a, data) <= a + 255 * |data|
    ensures 2 * High(a, b, data) <= 2 * b + 2 * (|data| * a) + 255 * (|data| * (|data| + 1))
    decreases data
  {
    if data != [] {
      var n := |data| - 1;
      Bounds(a, b, data[..n]);
      Squares(n, a);
    }
  }

  lemma Squares(n: nat, a: nat)
    ensures (n + 1) * (n + 2) == n * (n + 1) + 2 * (n + 1) && (n + 1) * a == n * a + a
  {
  }

  lemma NoOverflow(a: nat, b: nat, data: seq<Byte>)
    requires a <= 0xFFFF && b <= 0xFFFF && |data| <= BLOCK
    ensures Low(a, data) < U32 && High(a, b, data) < U32
  {
    Bounds(a, b, data);
    var n := |data|;
    assert n * a <= 5552 * 65535 by { Product(n, 5552, a, 65535); }
    assert n * (n + 1) <= 5552 * 5553 by { Product(n, 5552, n + 1, 5553); }
  }

  lemma Product(x: nat, x': nat, y: nat, y': nat)
    requires x <= x' && y <= y'
    ensures x * y <= x' * y'
  {
    assert x * y <= x' * y;
    assert x' * y <= x' * y';
  }

  /** Adds the bytes from `i` to `end` in 32-bit registers; the sums never wrap. */
  method AddBytes(s1: nat, s2: nat, data: seq<Byte>, start: nat, i: nat, end: nat, ghost a: nat, ghost b: nat)
    returns (r1: nat, r2: nat)
    requires start <= i <= end <= |data| && end - start <= BLOCK && a <= 0xFFFF && b <= 0xFFFF
    requires s1 == Low(a, data[start..i]) && s2 == High(a, b, data[start..i])
    ensures r1 == Low(a, data[start..end]) && r2 == High(a, b, data[start..end]) && r1 < U32 && r2 < U32
  {
    hide Low, High;
    r1, r2 := s1, s2;
    var k := i;
    NoOverflow(a, b, data[start..k]);
    while k < end
      invariant i <= k <= end && r1 == Low(a, data[start..k]) && r2 == High(a, b, data[start..k]) && r1 < U32
        && r2 < U32
    {
      NextByte(a, b, data, start, k);
      NoOverflow(a, b, data[start..k + 1]);
      r1 := (r1 + data[k] as nat) % U32;
      r2 := (r2 + r1) % U32;
      k := k + 1;
    }
  }

  lemma NextByte(a: nat, b: nat, data: seq<Byte>, start: nat, k: nat)
    requires start <= k < |data|
    ensures Low(a, data[start..k + 1]) == Low(a, data[start..k]) + data[k] as nat
    ensures High(a, b, data[start..k + 1]) == High(a, b, data[start..k]) + Low(a, data[start..k + 1])
  {
    assert data[start..k + 1][..k - start] == data[start..k] && data[start..k + 1][k - start] == data[k];
  }

  /** One block: eight bytes at a time, then the rest, then the modulo. */
  method Block(a: nat, b: nat, data: seq<Byte>, start: nat, end: nat) returns (s1: nat, s2: nat)
    requires start <= end <= |data| && end - start <= BLOCK && a <= 0xFFFF && b <= 0xFFFF
    ensures s1 < BASE && s2 < BASE
    ensures s1 == Bytewise(a, b, data[start..end]).0 % BASE && s2 == Bytewise(a, b, data[start..end]).1 % BASE
  {
    hide Low, High, Bytewise;
    s1, s2 := a, b;
    var i := start;
    NoSums(a, b, data[start..start]);
    while i + 7 < end
      invariant start <= i <= end && s1 == Low(a, data[start..i]) && s2 == High(a, b, data[start..i])
    {
      s1, s2 := AddBytes(s1, s2, data, start, i, i + 8, a, b);
      i := i + 8;
    }
    s1, s2 := AddBytes(s1, s2, data, start, i, end, a, b);
    Reduces(a, b, data[start..end]);
    s1, s2 := s1 % BASE, s2 % BASE;
  }

  lemma NoSums(a: nat, b: nat, data: seq<Byte>)
    requires data == []
    ensures Low(a, data) == a && High(a, b, data) == b && Bytewise(a, b, data) == (a, b)
  {
  }

  /** The checksum of `data` after a checksum `adler`; of nothing at all, the initial value. */
  method Adler32(adler: nat, present: bool, data: seq<Byte>) returns (r: nat)
    requires adler < U32
    ensures !present ==> r == 1
    ensures present && data == [] ==> r == adler
    ensures present ==> r == Joined(Bytewise(adler % 0x10000, adler / 0x10000, data))
  {
    hide Bytewise;
    var a: nat, b: nat := adler % 0x10000, adler / 0x10000;
    if !present { return 1; }
    var s1: nat, s2: nat, done: nat := a, b, 0;
    NoSums(a, b, data[..0]);
    assert data[0..] == data;
    var blockLen: nat := |data| % BLOCK;
    while done < |data|
      invariant 0 <= done <= |data| && s1 <= 0xFFFF && s2 <= 0xFFFF && blockLen <= BLOCK
      invariant done < |data| ==> blockLen <= |data| - done && (|data| - done - blockLen) % BLOCK == 0
      invariant Bytewise(s1, s2, data[done..]) == Bytewise(a, b, data)
      decreases |data| - done, BLOCK - blockLen
    {
      var end := done + blockLen;
      BytewiseConcat(s1, s2, data[done..end], data[end..]);
      assert data[done..] == data[done..end] + data[end..];
      ghost var p := Bytewise(s1, s2, data[done..end]);
      BlockTaken(s1, s2, data[done..end], data[end..]);
      s1, s2 := Block(s1, s2, data, done, end);
      Remaining(|data| - done, blockLen);
      done := end;
      blockLen := BLOCK;
    }
    assert data[done..] == [];
    NoSums(s1, s2, data[done..]);
    r := (s2 * 0x10000 + s1) % U32;
  }

  lemma Remaining(left: nat, block: nat)
    requires block <= left && (left - block) % BLOCK == 0
    ensures left - block == 0 || left - block >= BLOCK
    ensures left - block >= BLOCK ==> (left - block - BLOCK) % BLOCK == 0
  {
  }

  /** Reducing the sums before more bytes changes nothing. */
  lemma {:induction false} ReducedStart(a: nat, b: nat, data: seq<Byte>)
    requires data != []
    ensures Bytewise(a % BASE, b % BASE, data) == Bytewise(a, b, data)
    decreases data
  {
    hide Step;
    var n := |data| - 1;
    if n == 0 {
      assert data[..0] == [];
      StepReduced(a, b, data[0]);
    } else {
      ReducedStart(a, b, data[..n]);
    }
  }

  lemma StepReduced(a: nat, b: nat, c: Byte)
    ensures Step((a % BASE, b % BASE), c) == Step((a, b), c)
  {
    SameMod(a % BASE, a, c, c);
    var s := (a + c as nat) % BASE;
    SameMod(b % BASE, b, s, s);
  }

  /** Going on from the reduced sums of a block. */
  lemma BlockTaken(a: nat, b: nat, block: seq<Byte>, rest: seq<Byte>)
    requires block + rest != []
    ensures var p := Bytewise(a, b, block);
      Bytewise(p.0 % BASE, p.1 % BASE, rest) == Bytewise(p.0, p.1, rest)
  {
    hide Bytewise;
    var p := Bytewise(a, b, block);
    if rest == [] {
      NoSums(p.0, p.1, rest);
      NoSums(p.0 % BASE, p.1 % BASE, rest);
    } else {
      ReducedStart(p.0, p.1, rest);
    }
  }

  ghost function Joined(s: (nat, nat)): nat {
    s.1 * 0x10000 + s.0
  }

  /** Checksums chain: of `y` after `x` as of both together. */
  lemma Chains(adler: nat, x: seq<Byte>, y: seq<Byte>)
    requires adler < U32
    ensures var first := Joined(Bytewise(adler % 0x10000, adler / 0x10000, x));
      && first < U32
      && Joined(Bytewise(first % 0x10000, first / 0x10000, y))
        == Joined(Bytewise(adler % 0x10000, adler / 0x10000, x + y))
  {
    BytewiseConcat(adler % 0x10000, adler / 0x10000, x, y);
    var p := Bytewise(adler % 0x10000, adler / 0x10000, x);
    Halves(p.0, p.1);
  }

  lemma Halves(a: nat, b: nat)
    requires a <= 0xFFFF && b <= 0xFFFF
    ensures b * 0x10000 + a < U32 && (b * 0x10000 + a) % 0x10000 == a && (b * 0x10000 + a) / 0x10000 == b
  {
  }

  // ---- Why these numbers.

  ghost predicate NoDivisor(n: nat, k: nat) {
    k < 2 || (n % k != 0 && NoDivisor(n, k - 1))
  }

  lemma {:induction false} NoneDivides(n: nat, k: nat, d: nat)
    requires NoDivisor(n, k) && 2 <= d <= k
    ensures n % d != 0
  {
    if d < k { NoneDivides(n, k - 1, d); }
  }

  /** The modulus is a prime. */
  lemma BaseIsPrime(d: nat)
    requires 2 <= d < BASE
    ensures BASE % d != 0
  {
    NoSmallDivisor();
    if d <= 255 {
      NoneDivides(BASE, 255, d);
    } else if BASE % d == 0 {
      var q := BASE / d;
      assert BASE == d * q;
      if q >= 256 { Product(256, d, 256, q); }
      assert 2 <= q <= 255;
      NoneDivides(BASE, 255, q);
      Divides(BASE, d, q);
    }
  }

  lemma NoneTo60()
    ensures NoDivisor(65521, 60)
  {
    assert NoDivisor(65521, 15);
    assert NoDivisor(65521, 30);
    assert NoDivisor(65521, 45);
  }

  lemma NoneTo120()
    ensures NoDivisor(65521, 120)
  {
    NoneTo60();
    assert NoDivisor(65521, 75);
    assert NoDivisor(65521, 90);
    assert NoDivisor(65521, 105);
  }

  lemma NoneTo180()
    ensures NoDivisor(65521, 180)
  {
    NoneTo120();
    assert NoDivisor(65521, 135);
    assert NoDivisor(65521, 150);
    assert NoDivisor(65521, 165);
  }

  lemma NoSmallDivisor()
    ensures NoDivisor(65521, 255)
  {
    NoneTo180();
    assert NoDivisor(65521, 195);
    assert NoDivisor(65521, 210);
    assert NoDivisor(65521, 225);
    assert NoDivisor(65521, 240);
  }

  lemma Divides(x: nat, d: nat, q: nat)
    requires x == d * q && q > 0
    ensures x % q == 0
  {
    var e, r := x / q, x % q;
    assert x == q * e + r;
    Difference(d, e, q);
    if d > e { AtLeast(q, d - e); } else if e > d { AtLeast(q, e - d); }
  }

  lemma Difference(d: int, e: int, q: nat)
    ensures d * q - q * e == q * (d - e) == -(q * (e - d))
  {
  }

  lemma AtLeast(q: nat, k: nat)
    requires k >= 1
    ensures q * k >= q
  {
  }

  /** It is the largest below two to the sixteenth. */
  lemma LargestPrime(n: nat) returns (d: nat)
    requires BASE < n < 0x10000
    ensures 2 <= d < n && n % d == 0
  {
    d := if n % 2 == 0 then 2 else if n % 3 == 0 then 3 else if n == 65525 then 5 else if n == 65527 then 7
         else if n == 65531 then 19 else 13;
  }

  ghost function Full(n: nat): (s: seq<Byte>)
    ensures |s| == n
  {
    seq(n, _ => 255)
  }

  lemma {:induction false} FullSums(a: nat, b: nat, n: nat)
    ensures Low(a, Full(n)) == a + 255 * n
    ensures 2 * High(a, b, Full(n)) == 2 * b + 2 * (n * a) + 255 * (n * (n + 1))
    decreases n
  {
    if n > 0 {
      FullSums(a, b, n - 1);
      assert Full(n)[..n - 1] == Full(n - 1);
      Squares(n - 1, a);
    }
  }

  /** One more byte in a block could make a sum wrap. */
  lemma LongestBlock()
    ensures High(BASE - 1, BASE - 1, Full(BLOCK + 1)) >= U32
  {
    FullSums(BASE - 1, BASE - 1, BLOCK + 1);
  }

  /** The checksum of the nine letters of a well-known example. */
  lemma KnownChecksum()
    ensures Joined(Bytewise(1, 0, [87, 105, 107, 105, 112, 101, 100, 105, 97])) == 0x11E60398
  {
    hide Bytewise, Step;
    var data: seq<Byte> := [87, 105, 107, 105, 112, 101, 100, 105, 97];
    NoSums(1, 0, data[..0]);
    OneMore(data, 0, 1, 0);
    OneMore(data, 1, 88, 88);
    OneMore(data, 2, 193, 281);
    OneMore(data, 3, 300, 581);
    OneMore(data, 4, 405, 986);
    OneMore(data, 5, 517, 1503);
    OneMore(data, 6, 618, 2121);
    OneMore(data, 7, 718, 2839);
    OneMore(data, 8, 823, 3662);
    assert data[..9] == data;
  }

  lemma OneMore(data: seq<Byte>, n: nat, a: nat, b: nat)
    requires n < |data| && Bytewise(1, 0, data[..n]) == (a, b) && a + data[n] as nat + b < BASE
    ensures Bytewise(1, 0, data[..n + 1]) == (a + data[n] as nat, b + a + data[n] as nat)
  {
    assert data[..n + 1][..n] == data[..n];
  }
}
