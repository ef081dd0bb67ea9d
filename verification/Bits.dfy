/** Bit strings of numbers, least or most significant bit first. */
module Bits {
  import opened Kraft

  /** The low `n` bits of `x`, least significant first: the order of the bit stream. */
  function LsbBits(x: nat, n: nat): (s: seq<bool>)
    ensures |s| == n
    decreases n
  {
    if n == 0 then [] else [x % 2 == 1] + LsbBits(x / 2, n - 1)
  }

  /** The low `n` bits of `x`, most significant first: the order Huffman codes are written in. */
  function MsbBits(x: nat, n: nat): (s: seq<bool>)
    ensures |s| == n
    decreases n
  {
    if n == 0 then [] else MsbBits(x / 2, n - 1) + [x % 2 == 1]
  }

  function Bit(b: bool): nat {
    if b then 1 else 0
  }

  function LsbValue(s: seq<bool>): nat {
    if s == [] then 0 else Bit(s[0]) + 2 * LsbValue(s[1..])
  }

  function MsbValue(s: seq<bool>): nat {
    if s == [] then 0 else 2 * MsbValue(s[..|s| - 1]) + Bit(s[|s| - 1])
  }

  lemma {:induction false} LsbValueBound(s: seq<bool>)
    ensures LsbValue(s) < Pow2(|s|)
  {
    if s != [] {
      LsbValueBound(s[1..]);
    }
  }

  lemma {:induction false} LsbRoundTrip(s: seq<bool>)
    ensures LsbBits(LsbValue(s), |s|) == s
  {
    if s != [] {
      LsbRoundTrip(s[1..]);
    }
  }

  lemma {:induction false} LsbBitsValue(x: nat, n: nat)
    requires x < Pow2(n)
    ensures LsbValue(LsbBits(x, n)) == x
    decreases n
  {
    if n > 0 {
      LsbBitsValue(x / 2, n - 1);
      assert LsbBits(x, n)[1..] == LsbBits(x / 2, n - 1);
    }
  }

  lemma {:induction false} MsbValueBound(s: seq<bool>)
    ensures MsbValue(s) < Pow2(|s|)
  {
    if s != [] {
      MsbValueBound(s[..|s| - 1]);
    }
  }

  lemma {:induction false} MsbBitsValue(x: nat, n: nat)
    requires x < Pow2(n)
    ensures MsbValue(MsbBits(x, n)) == x
    decreases n
  {
    if n > 0 {
      MsbBitsValue(x / 2, n - 1);
      assert MsbBits(x, n)[..n - 1] == MsbBits(x / 2, n - 1);
    }
  }

  lemma {:induction false} MsbRoundTrip(s: seq<bool>)
    ensures MsbBits(MsbValue(s), |s|) == s
  {
    if s != [] {
      MsbRoundTrip(s[..|s| - 1]);
    }
  }

  /** `x` without its low `k` bits. */
  function Shift(x: nat, k: nat): nat
    decreases k
  {
    if k == 0 then x else Shift(x / 2, k - 1)
  }

  lemma {:induction false} ShiftMono(x: nat, y: nat, k: nat)
    requires x <= y
    ensures Shift(x, k) <= Shift(y, k)
    decreases k
  {
    if k > 0 {
      ShiftMono(x / 2, y / 2, k - 1);
    }
  }

  lemma {:induction false} ShiftFits(x: nat, n: nat, k: nat)
    requires k <= n && x < Pow2(n)
    ensures Shift(x, k) < Pow2(n - k)
    decreases k
  {
    if k > 0 {
      ShiftFits(x / 2, n - 1, k - 1);
    }
  }

  lemma {:induction false} MsbPrefix(x: nat, n: nat, k: nat)
    requires k <= n
    ensures MsbBits(x, n)[..k] == MsbBits(Shift(x, n - k), k)
    decreases n
  {
    if k < n {
      MsbPrefix(x / 2, n - 1, k);
      assert MsbBits(x, n)[..k] == MsbBits(x / 2, n - 1)[..k];
    }
  }

  lemma {:induction false} LsbPrefix(x: nat, n: nat, k: nat)
    requires k <= n
    ensures LsbBits(x, n)[..k] == LsbBits(x, k)
    decreases n
  {
    if k > 0 {
      LsbPrefix(x / 2, n - 1, k - 1);
      assert LsbBits(x, n)[..k] == [x % 2 == 1] + LsbBits(x / 2, n - 1)[..k - 1];
    }
  }

  lemma {:induction false} LsbSuffix(x: nat, n: nat, k: nat)
    requires k <= n
    ensures LsbBits(x, n)[k..] == LsbBits(Shift(x, k), n - k)
    decreases n
  {
    if k > 0 {
      LsbSuffix(x / 2, n - 1, k - 1);
      assert LsbBits(x, n)[k..] == LsbBits(x / 2, n - 1)[k - 1..];
    }
  }

  lemma LsbBitAt(x: nat, n: nat, k: nat)
    requires k < n
    ensures LsbBits(x, n)[k] == (Shift(x, k) % 2 == 1)
  {
    LsbSuffix(x, n, k);
    assert LsbBits(x, n)[k..][0] == LsbBits(x, n)[k];
  }

  /** Adding a multiple of `Pow2(k)` changes none of the low `k` bits. */
  lemma {:induction false} LsbAddHigh(x: nat, k: nat, q: nat)
    ensures LsbBits(x + q * Pow2(k), k) == LsbBits(x, k)
    decreases k
  {
    if k > 0 {
      AddHigh(x, q, Pow2(k - 1));
      LsbAddHigh(x / 2, k - 1, q);
    }
  }

  lemma AddHigh(x: nat, q: nat, p: nat)
    ensures x + q * (2 * p) >= 0 && (x + q * (2 * p)) % 2 == x % 2 && (x + q * (2 * p)) / 2 == x / 2 + q * p
  {
    assert q * (2 * p) == 2 * (q * p);
  }

  /** Two numbers with the same low `k` bits are congruent. */
  lemma {:induction false} SameLow(x: nat, y: nat, k: nat) returns (q: int)
    requires LsbBits(x, k) == LsbBits(y, k)
    ensures x == y + q * Pow2(k)
    decreases k
  {
    if k == 0 {
      q := x - y;
    } else {
      assert LsbBits(x, k)[0] == LsbBits(y, k)[0];
      assert LsbBits(x, k)[1..] == LsbBits(x / 2, k - 1);
      assert LsbBits(y, k)[1..] == LsbBits(y / 2, k - 1);
      q := SameLow(x / 2, y / 2, k - 1);
      var p := Pow2(k - 1);
      assert q * (2 * p) == 2 * (q * p);
    }
  }

  // ---- Regrouping concatenations.

  lemma Regroup(a: seq<bool>, b: seq<bool>, c: seq<bool>)
    ensures (a + b) + c == a + (b + c)
  {
  }

  lemma Regroup4(a: seq<bool>, b: seq<bool>, c: seq<bool>, d: seq<bool>)
    ensures ((a + b) + c) + d == a + ((b + c) + d)
    ensures ((a + b) + c) + d == a + (b + (c + d))
  {
  }

  lemma Regroup5(a: seq<bool>, b: seq<bool>, c: seq<bool>, d: seq<bool>, e: seq<bool>)
    ensures ((a + b) + (c + d)) + e == a + (b + (c + (d + e)))
  {
    Regroup(a + b, c + d, e);
    Regroup(c, d, e);
    Regroup(a, b, c + (d + e));
  }

  /** The reversal loop of both coders: the low `n` bits of `code`, in reverse, above `rev`. */
  method ReverseBits(code: nat, n: nat) returns (rev: nat)
    requires code < Pow2(n)
    ensures rev < Pow2(n) && LsbBits(rev, n) == MsbBits(code, n)
  {
    rev := 0;
    var l: nat, c: nat := n, code;
    ghost var done: seq<bool> := [];
    while l > 0
      invariant 0 <= l <= n && |done| == n - l
      invariant c < Pow2(l) && MsbBits(code, n) == MsbBits(c, l) + done
      invariant rev == LsbValue(done)
    {
      assert MsbBits(c, l) == MsbBits(c / 2, l - 1) + [c % 2 == 1];
      done := [c % 2 == 1] + done;
      rev := rev * 2 + c % 2;
      assert done[1..] + [] == done[1..];
      c, l := c / 2, l - 1;
    }
    LsbValueBound(done);
    LsbRoundTrip(done);
    assert MsbBits(c, 0) + done == done;
  }
}
