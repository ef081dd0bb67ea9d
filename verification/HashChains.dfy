/** The hash chains of the dictionary: every position entered at the head of the chain of its three bytes. */
module HashChains {
  import opened Values
  import opened Kraft
  import opened Bitwise
  import opened LzCodes
  import opened Dictionary

  const HASH_SIZE := 32768

  /** The hash of three bytes. */
  function Hash3(a: Byte, b: Byte, c: Byte): (r: nat)
    ensures r < HASH_SIZE
  {
    Xor(Xor(a as int * 1024, b as int * 32), c) % HASH_SIZE
  }

  /** The hash rolled on by one byte. */
  function HashStep(hash: nat, c: Byte): (r: nat)
    ensures r < HASH_SIZE
  {
    Xor(hash * 32, c) % HASH_SIZE
  }

  /** The low bits are those of the low bits. */
  lemma XorLow(a: nat, b: nat, k: nat) returns (q: nat)
    ensures Xor(a, b) == Xor(a % Pow2(k), b % Pow2(k)) + q * Pow2(k) && Xor(a % Pow2(k), b % Pow2(k)) < Pow2(k)
  {
    hide Xor, Pow2;
    var m := Pow2(k);
    Parts(a, m);
    Parts(b, m);
    XorSplit(a % m, a / m, b % m, b / m, k);
    XorBound(a % m, b % m, k);
    q := Xor(a / m, b / m);
  }

  lemma Parts(a: nat, m: nat)
    requires m > 0
    ensures a % m + (a / m) * m == a && a % m < m
  {
  }

  lemma LowFifteen(a: nat, b: nat)
    ensures Xor(a, b) % 32768 == Xor(a % 32768, b % 32768)
  {
    hide Xor, Pow2;
    Powers();
    var q := XorLow(a, b, 15);
  }

  lemma LowTen(a: nat, b: nat)
    ensures Xor(a, b) % 1024 == Xor(a % 1024, b % 1024)
  {
    hide Xor, Pow2;
    Powers();
    var q := XorLow(a, b, 10);
  }

  lemma Powers()
    ensures Pow2(5) == 32 && Pow2(10) == 1024 && Pow2(15) == 32768
  {
    assert Pow2(3) == 8 && Pow2(5) == 32 && Pow2(7) == 128 && Pow2(9) == 512;
    assert Pow2(11) == 2048 && Pow2(13) == 8192;
  }

  /** Shifting both sides shifts the result. */
  lemma XorShift(a: nat, b: nat)
    ensures Xor(a * 32, b * 32) == Xor(a, b) * 32
  {
    hide Xor, Pow2;
    Powers();
    XorZero(0);
    XorSplit(0, a, 0, b, 5);
  }

  /** The two bytes before the first are hashed alike. */
  lemma FirstStep(a: Byte, b: Byte, c: Byte)
    ensures HashStep(Xor(a as int * 32, b), c) == Hash3(a, b, c)
  {
    hide Xor;
    XorShift(a as int * 32, b);
  }

  /** Only the ten low bits of a hash survive the next step. */
  lemma TenSurvive(x: nat, y: nat, c: Byte)
    requires x % 1024 == y % 1024
    ensures HashStep(x, c) == HashStep(y, c)
  {
    hide Xor;
    LowFifteen(x * 32, c);
    LowFifteen(y * 32, c);
    TimesLow(x);
    TimesLow(y);
  }

  lemma TimesLow(x: nat)
    ensures (x * 32) % 32768 == (x % 1024) * 32
  {
  }

  /** Rolling the hash of three bytes on gives the hash of the next three. */
  lemma RollingHash(a: Byte, b: Byte, c: Byte, d: Byte)
    ensures HashStep(Hash3(a, b, c), d) == Hash3(b, c, d)
  {
    hide Xor, HashStep;
    FirstGone(a, b as int * 32, c);
    var x := Xor(Xor(a as int * 1024, b as int * 32), c);
    TenOfFifteen(x);
    TenSurvive(x % 32768, Xor(b as int * 32, c), d);
    FirstStep(b, c, d);
  }

  lemma TenOfFifteen(x: nat)
    ensures x % 32768 % 1024 == x % 1024
  {
  }

  lemma FirstGone(a: Byte, y: nat, c: Byte)
    ensures Xor(Xor(a as int * 1024, y), c) % 1024 == Xor(y, c) % 1024
  {
    hide Xor;
    LowTen(Xor(a as int * 1024, y), c);
    LowTen(y, c);
    LowTen(a as int * 1024, y);
    XorZero(y % 1024);
    assert (a as int * 1024) % 1024 == 0;
  }

  ghost function HashAt(h: seq<Byte>, x: nat): (r: nat)
    requires x + 3 <= |h|
    ensures r < HASH_SIZE
  {
    Hash3(h[x], h[x + 1], h[x + 2])
  }

  ghost predicate Shorts16(s: seq<nat>) {
    forall i :: 0 <= i < |s| ==> s[i] < 0x10000
  }

  /** For every place the place before it with the same hash, and for every hash the newest place. */
  datatype Chains = Chains(next: seq<nat>, hash: seq<nat>) {
    ghost predicate Valid() {
      |next| == DICT_SIZE && |hash| == HASH_SIZE && Shorts16(next) && Shorts16(hash)
    }

    /** Position `x` put before the others of its hash `v`. */
    ghost function Enter(x: nat, v: nat): (t: Chains)
      requires Valid() && v < HASH_SIZE
      ensures t.Valid()
    {
      Chains(next[x % DICT_SIZE := hash[v]], hash[v := x % 0x10000])
    }
  }

  /** The positions from `from` to `end` entered one after the other. */
  ghost function Entered(t: Chains, h: seq<Byte>, from: nat, end: int): (r: Chains)
    requires t.Valid() && (from < end ==> end + 2 <= |h|)
    ensures r.Valid()
    decreases end
  {
    if end <= from then t else Entered(t, h, from, end - 1).Enter(end - 1, HashAt(h, end - 1))
  }

  lemma {:induction false} EnteredLater(t: Chains, h: seq<Byte>, h': seq<Byte>, from: nat, end: int)
    requires t.Valid() && (from < end ==> end + 2 <= |h|) && h <= h'
    ensures Entered(t, h, from, end) == Entered(t, h', from, end)
    decreases end
  {
    hide Hash3;
    if end > from { EnteredLater(t, h, h', from, end - 1); }
  }

  /** The newest position before `end` with hash `v`, or -1. */
  ghost function Newest(h: seq<Byte>, from: nat, end: int, v: nat): (x: int)
    requires from < end ==> end + 2 <= |h|
    ensures x == -1 || (from <= x < end && HashAt(h, x) == v)
    ensures forall y :: from <= y < end && x < y ==> HashAt(h, y) != v
    decreases end
  {
    if end <= from then -1
    else if HashAt(h, end - 1) == v then end - 1
    else Newest(h, from, end - 1, v)
  }

  /** The head of a chain is its newest position. */
  lemma {:induction false} HeadIsNewest(t: Chains, h: seq<Byte>, from: nat, end: int, v: nat)
    requires t.Valid() && (from < end ==> end + 2 <= |h|) && v < HASH_SIZE
    ensures var x := Newest(h, from, end, v);
      Entered(t, h, from, end).hash[v] == if x >= 0 then x % 0x10000 else t.hash[v]
    decreases end
  {
    hide HashAt;
    if end > from { HeadIsNewest(t, h, from, end - 1, v); }
  }

  /** A position's link stays what the head of its chain was, until its place is used again. */
  lemma {:induction false} LinkStays(t: Chains, h: seq<Byte>, from: nat, end: int, x: nat)
    requires t.Valid() && from <= x < end <= x + DICT_SIZE && end + 2 <= |h|
    ensures Entered(t, h, from, end).next[x % DICT_SIZE] == Entered(t, h, from, x).hash[HashAt(h, x)]
    decreases end
  {
    hide HashAt;
    if end > x + 1 {
      LinkStays(t, h, from, end - 1, x);
      ModApart(x, end - 1);
    }
  }

  /** A position's link leads to the newest earlier position of its hash. */
  lemma LinksBack(t: Chains, h: seq<Byte>, from: nat, end: int, x: nat)
    requires t.Valid() && from <= x < end <= x + DICT_SIZE && end + 2 <= |h|
    ensures var y := Newest(h, from, x, HashAt(h, x));
      Entered(t, h, from, end).next[x % DICT_SIZE] == if y >= 0 then y % 0x10000 else t.hash[HashAt(h, x)]
  {
    hide HashAt, Entered;
    LinkStays(t, h, from, end, x);
    HeadIsNewest(t, h, from, x, HashAt(h, x));
  }
}
