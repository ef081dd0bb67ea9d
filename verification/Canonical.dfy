/** Canonical Huffman codes (section 3.2.2 of RFC 1951): codes of one length are
    consecutive, in symbol order, after all shorter codes. */
module Canonical {
  import opened Kraft
  import opened Bits

  /** How many symbols have code length `len`. */
  function Count(sizes: seq<nat>, len: nat): nat {
    if sizes == [] then 0
    else Count(sizes[..|sizes| - 1], len) + (if sizes[|sizes| - 1] == len then 1 else 0)
  }

  lemma CountLast(sizes: seq<nat>, len: nat)
    requires sizes != []
    ensures Count(sizes, len) == Count(sizes[..|sizes| - 1], len) + (if sizes[|sizes| - 1] == len then 1 else 0)
  {
  }

  /** The first code of length `len`. */
  function First(sizes: seq<nat>, len: nat): nat {
    if len <= 1 then 0 else 2 * (First(sizes, len - 1) + Count(sizes, len - 1))
  }

  /** The number past the last code of length `len`. */
  function End(sizes: seq<nat>, len: nat): nat {
    First(sizes, len) + Count(sizes, len)
  }

  /** The code of symbol `i`, as a number of `sizes[i]` bits. */
  function Code(sizes: seq<nat>, i: nat): nat
    requires i < |sizes|
  {
    First(sizes, sizes[i]) + Count(sizes[..i], sizes[i])
  }

  /** The code of symbol `i` in stream order. */
  function Word(sizes: seq<nat>, i: nat): (w: seq<bool>)
    requires i < |sizes|
    ensures |w| == sizes[i]
  {
    MsbBits(Code(sizes, i), sizes[i])
  }

  /** Code lengths of at most 15 bits for at most 288 symbols. */
  predicate Lengths(sizes: seq<nat>) {
    |sizes| <= 288 && forall i :: 0 <= i < |sizes| ==> sizes[i] <= 15
  }

  /** Number of coded symbols of length `len` or less. */
  function Used(sizes: seq<nat>, len: nat): nat {
    if len == 0 then 0 else Used(sizes, len - 1) + Count(sizes, len)
  }

  /** The code uses up all bit strings. */
  predicate Complete(sizes: seq<nat>) {
    First(sizes, 16) == 65536
  }

  /** What the decoder accepts: a complete code, or at most one coded symbol. */
  predicate Accepted(sizes: seq<nat>) {
    Lengths(sizes) && (Complete(sizes) || Used(sizes, 15) <= 1)
  }

  /** Every length's codes fit in that many bits. */
  ghost predicate Fits(sizes: seq<nat>) {
    forall len :: 1 <= len <= 15 ==> End(sizes, len) <= Pow2(len)
  }

  lemma {:induction false} CountPrefix(sizes: seq<nat>, i: nat, len: nat)
    requires i <= |sizes|
    ensures Count(sizes[..i], len) <= Count(sizes, len)
    decreases |sizes|
  {
    if i < |sizes| {
      var s := sizes[..|sizes| - 1];
      assert s[..i] == sizes[..i];
      CountPrefix(s, i, len);
    } else {
      assert sizes[..i] == sizes;
    }
  }

  lemma CountNext(sizes: seq<nat>, i: nat, len: nat)
    requires i < |sizes|
    ensures Count(sizes[..i + 1], len) == Count(sizes[..i], len) + (if sizes[i] == len then 1 else 0)
  {
    assert sizes[..i + 1][..i] == sizes[..i];
  }

  /** Symbols of one length get different ranks. */
  lemma RankAscends(sizes: seq<nat>, i: nat, j: nat)
    requires i < j <= |sizes|
    ensures Count(sizes[..i], sizes[i]) < Count(sizes[..j], sizes[i])
  {
    CountNext(sizes, i, sizes[i]);
    assert sizes[..j][..i + 1] == sizes[..i + 1];
    CountPrefix(sizes[..j], i + 1, sizes[i]);
  }

  lemma CodeRange(sizes: seq<nat>, i: nat)
    requires i < |sizes|
    ensures First(sizes, sizes[i]) <= Code(sizes, i) < End(sizes, sizes[i])
  {
    hide First;
    RankAscends(sizes, i, |sizes|);
    assert sizes[..|sizes|] == sizes;
  }

  /** A rank below the count belongs to some symbol. */
  lemma {:induction false} RankTaken(sizes: seq<nat>, len: nat, rank: nat) returns (i: nat)
    requires rank < Count(sizes, len)
    ensures i < |sizes| && sizes[i] == len && Count(sizes[..i], len) == rank
  {
    var n := |sizes| - 1;
    if sizes[n] == len && Count(sizes[..n], len) == rank {
      i := n;
    } else {
      i := RankTaken(sizes[..n], len, rank);
      assert sizes[..n][..i] == sizes[..i];
    }
  }

  /** An overfull length overfills every longer one. */
  lemma {:induction false} OverflowGrows(sizes: seq<nat>, len: nat, last: nat)
    requires 1 <= len <= last && End(sizes, len) > Pow2(len)
    ensures First(sizes, last + 1) > Pow2(last + 1)
    decreases last - len
  {
    if len < last {
      assert First(sizes, len + 1) > Pow2(len + 1);
      OverflowGrows(sizes, len + 1, last);
    }
  }

  lemma {:induction false} FewFit(sizes: seq<nat>, len: nat)
    requires len >= 1 && Used(sizes, len) <= 1
    ensures End(sizes, len) <= Pow2(len)
    ensures Used(sizes, len) == 0 ==> End(sizes, len) == 0
  {
    hide Count;
    if len > 1 {
      FewFit(sizes, len - 1);
    } else {
      assert Used(sizes, 1) == Used(sizes, 0) + Count(sizes, 1);
    }
  }

  lemma {:induction false} UsedMono(sizes: seq<nat>, a: nat, b: nat)
    requires a <= b
    ensures Used(sizes, a) <= Used(sizes, b)
    decreases b
  {
    if a < b {
      UsedMono(sizes, a, b - 1);
    }
  }

  lemma Pow2Table()
    ensures Pow2(9) == 512 && Pow2(10) == 1024 && Pow2(15) == 32768 && Pow2(16) == 65536
  {
    assert Pow2(3) == 8 && Pow2(6) == 64;
    assert Pow2(12) == 4096;
  }

  lemma AcceptedFits(sizes: seq<nat>)
    requires Accepted(sizes)
    ensures Fits(sizes)
  {
    hide Count, First, Used, Pow2, End;
    forall len | 1 <= len <= 15 ensures End(sizes, len) <= Pow2(len) {
      if Used(sizes, 15) <= 1 {
        UsedMono(sizes, len, 15);
        FewFit(sizes, len);
      } else if End(sizes, len) > Pow2(len) {
        OverflowGrows(sizes, len, 15);
        Pow2Table();
        assert false;
      }
    }
  }

  lemma CodeFits(sizes: seq<nat>, i: nat)
    requires Fits(sizes) && i < |sizes| && 1 <= sizes[i] <= 15
    ensures Code(sizes, i) < Pow2(sizes[i])
  {
    CodeRange(sizes, i);
  }

  /** Codes longer than `len` start past all codes of length `len`. */
  lemma {:induction false} LongerCodesAfter(sizes: seq<nat>, len: nat, longer: nat)
    requires 1 <= len < longer
    ensures Shift(First(sizes, longer), longer - len) >= End(sizes, len)
    decreases longer
  {
    hide Count;
    if longer == len + 1 {
      assert First(sizes, longer) == 2 * End(sizes, len);
      assert Shift(First(sizes, longer), 1) == Shift(First(sizes, longer) / 2, 0);
    } else {
      LongerCodesAfter(sizes, len, longer - 1);
      assert First(sizes, longer) / 2 == End(sizes, longer - 1) >= First(sizes, longer - 1);
      ShiftMono(First(sizes, longer - 1), First(sizes, longer) / 2, longer - 1 - len);
    }
  }

  /** The first `len` bits of a longer word are a number past all codes of length `len`. */
  lemma PrefixAfter(sizes: seq<nat>, j: nat, len: nat)
    requires Fits(sizes) && j < |sizes| && 1 <= len < sizes[j] <= 15
    ensures End(sizes, len) <= MsbValue(Word(sizes, j)[..len]) < Pow2(len)
  {
    hide First, Count, Pow2, MsbBits, End, Code;
    var n := sizes[j];
    CodeRange(sizes, j);
    CodeFits(sizes, j);
    LongerCodesAfter(sizes, len, n);
    ShiftMono(First(sizes, n), Code(sizes, j), n - len);
    MsbPrefix(Code(sizes, j), n, len);
    ShiftFits(Code(sizes, j), n, n - len);
    MsbBitsValue(Shift(Code(sizes, j), n - len), len);
  }

  /** No word is a prefix of another. */
  lemma PrefixFree(sizes: seq<nat>, i: nat, j: nat)
    requires Lengths(sizes) && Fits(sizes) && i < |sizes| && j < |sizes| && i != j
    requires sizes[i] > 0 && sizes[j] > 0
    ensures !(Word(sizes, i) <= Word(sizes, j))
  {
    hide First, Count, Pow2, MsbBits, MsbValue;
    CodeRange(sizes, i);
    CodeRange(sizes, j);
    CodeFits(sizes, i);
    CodeFits(sizes, j);
    if Word(sizes, i) <= Word(sizes, j) {
      var n := sizes[i];
      assert Word(sizes, i) == Word(sizes, j)[..n];
      MsbBitsValue(Code(sizes, i), n);
      if n < sizes[j] {
        PrefixAfter(sizes, j, n);
      } else {
        assert Word(sizes, j)[..n] == Word(sizes, j);
        MsbBitsValue(Code(sizes, j), n);
        if i < j { RankAscends(sizes, i, j); } else { RankAscends(sizes, j, i); }
      }
    }
  }

  /** In a complete code every 15-bit string starts with a word. */
  lemma {:induction false} SomeWordFrom(sizes: seq<nat>, bits: seq<bool>, len: nat) returns (i: nat)
    requires Lengths(sizes) && Complete(sizes) && |bits| == 15 && 1 <= len <= 15
    requires First(sizes, len) <= MsbValue(bits[..len])
    ensures i < |sizes| && sizes[i] > 0 && Word(sizes, i) <= bits
    decreases 15 - len
  {
    hide First, Count, Pow2, MsbBits;
    var v := MsbValue(bits[..len]);
    if v < End(sizes, len) {
      i := RankTaken(sizes, len, v - First(sizes, len));
      MsbRoundTrip(bits[..len]);
    } else {
      FirstNext(sizes, len);
      if len == 15 {
        MsbValueBound(bits[..15]);
        Pow2Table();
        assert false;
      }
      assert bits[..len + 1][..len] == bits[..len];
      assert MsbValue(bits[..len + 1]) >= 2 * v;
      i := SomeWordFrom(sizes, bits, len + 1);
    }
  }

  lemma FirstNext(sizes: seq<nat>, len: nat)
    requires len >= 1
    ensures First(sizes, len + 1) == 2 * End(sizes, len)
  {
    hide Count;
  }

  lemma SomeWord(sizes: seq<nat>, bits: seq<bool>) returns (i: nat)
    requires Lengths(sizes) && Complete(sizes) && |bits| == 15
    ensures i < |sizes| && sizes[i] > 0 && Word(sizes, i) <= bits
  {
    i := SomeWordFrom(sizes, bits, 1);
  }
}
