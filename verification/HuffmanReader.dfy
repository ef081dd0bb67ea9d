/** Decoding the next symbol from a byte stream through the lookup table and overflow tree. */
module HuffmanReader {
  import opened Kraft
  import opened Bits
  import opened Canonical
  import opened NodeBudget
  import opened DecodeTable
  import opened BitStream

  /** The stream starts with the code of symbol `s`. */
  ghost predicate Starts(sizes: seq<nat>, s: nat, bits: seq<bool>) {
    s < |sizes| && sizes[s] > 0 && Word(sizes, s) <= bits
  }

  /** The stream starts with a code. */
  ghost predicate HasWord(sizes: seq<nat>, bits: seq<bool>) {
    exists s: nat :: Starts(sizes, s, bits)
  }

  /** `p` is the beginning of a longer word. */
  ghost predicate Begins(sizes: seq<nat>, p: seq<bool>) {
    exists s :: Owns(sizes, |sizes|, s, p)
  }

  /** Where, from `n` on, the bits stop being the beginning of a word. */
  ghost function Stray(sizes: seq<nat>, bits: seq<bool>, n: nat): (k: nat)
    requires n <= |bits|
    ensures n <= k <= |bits|
    decreases |bits| - n
  {
    if n < |bits| && Begins(sizes, bits[..n]) then Stray(sizes, bits, n + 1) else n
  }

  /** The symbol that the stream gives next, and the bits it takes: the one whose word the stream
      starts with. When there is none, the code is not complete, and the decoder gives symbol 0: for
      no bits, or, below the beginning of a long word, for those up to where the bits leave it.
      `Stuck` when the stream ends too early to tell. */
  ghost function NextOf(sizes: seq<nat>, bits: seq<bool>): (d: Decoded)
    ensures d.Symbol? ==> 0 <= d.sym && (d.sym == 0 || (d.sym < |sizes| && d.len > 0)) && d.len <= |bits|
  {
    if HasWord(sizes, bits) then
      var s: nat :| Starts(sizes, s, bits);
      Symbol(s, sizes[s])
    else if |bits| >= 10 && Begins(sizes, bits[..10]) then
      var n := Stray(sizes, bits, 10);
      if Begins(sizes, bits[..n]) then Stuck else Symbol(0, n)
    else if |bits| >= 15 then Symbol(0, 0)
    else Stuck
  }

  /** The bits at hand hold a whole code. */
  predicate Found(lookup: seq<int>, tree: seq<int>, bits: seq<bool>) {
    var d := Decode(lookup, tree, bits);
    d.Symbol? && 0 < d.len <= |bits|
  }

  lemma {:induction false} WalkExtends(tree: seq<int>, link: int, bits: seq<bool>, all: seq<bool>, d: nat)
    requires bits <= all && Walk(tree, link, bits, d).Symbol?
    ensures Walk(tree, link, all, d) == Walk(tree, link, bits, d)
    decreases |bits| - d
  {
    if link < 0 && d < |bits| {
      var j := -link - 1 + Bit(bits[d]);
      assert all[d] == bits[d];
      WalkExtends(tree, tree[j], bits, all, d + 1);
    }
  }

  /** One step down from a node: to the node below, or to a slot that is no link. */
  lemma NodeStep(sizes: seq<nat>, lookup: seq<int>, tree: seq<int>, at: map<seq<bool>, nat>, bits: seq<bool>, d: nat)
    returns (j: nat)
    requires Holds(sizes, |sizes|, |sizes|, lookup, tree, at) && d < |bits| && bits[..d] in at
    ensures 10 <= d <= 14 && j == -Link(at[bits[..d]]) - 1 + Bit(bits[d]) && j < |tree|
    ensures bits[..d + 1] in at ==> d < 14 && tree[j] == Link(at[bits[..d + 1]])
    ensures bits[..d + 1] !in at ==>
      tree[j] >= 0 && (tree[j] > 0 ==> tree[j] < |sizes| && Word(sizes, tree[j]) == bits[..d + 1])
  {
    hide LongPlaced, ShortPlaced, Inner, Word, LsbBits, Linked, NoStray;
    var p, b, q := bits[..d], bits[d], bits[..d + 1];
    assert q == p + [b] && q[..d] == p && q[d] == b;
    NodeDepth(lookup, tree, at, p);
    j := 2 * at[p] + Bit(b);
    if q in at {
      NodeDepth(lookup, tree, at, q);
      LinkedSlot(lookup, tree, at, q);
    } else {
      VacantSlot(sizes, lookup, tree, at, p, b);
    }
  }

  /** Below a node, 15 bits lead to the end of the walk. */
  lemma {:induction false} WalkEnds(sizes: seq<nat>, lookup: seq<int>, tree: seq<int>, at: map<seq<bool>, nat>,
                                    bits: seq<bool>, d: nat)
    requires Holds(sizes, |sizes|, |sizes|, lookup, tree, at)
    requires |bits| >= 15 && d <= 14 && bits[..d] in at
    ensures var r := Walk(tree, Link(at[bits[..d]]), bits, d);
      r.Symbol? && 11 <= r.len <= 15 && r.sym >= 0
    decreases 15 - d
  {
    hide Holds, Link;
    var j := NodeStep(sizes, lookup, tree, at, bits, d);
    LinkNegative(at[bits[..d]]);
    if bits[..d + 1] in at { WalkEnds(sizes, lookup, tree, at, bits, d + 1); }
  }

  lemma LinkNegative(k: nat)
    ensures Link(k) < 0
  {
  }

  lemma NodeDepth(lookup: seq<int>, tree: seq<int>, at: map<seq<bool>, nat>, p: seq<bool>)
    requires Linked(lookup, tree, at) && p in at
    ensures 10 <= |p| <= 14 && at[p] < |at| <= 288 && |tree| == 576 && |lookup| == 1024
  {
    hide HasSlot, HasLookup;
  }

  lemma VacantSlot(sizes: seq<nat>, lookup: seq<int>, tree: seq<int>, at: map<seq<bool>, nat>, p: seq<bool>, b: bool)
    requires NoStray(sizes, |sizes|, |sizes|, lookup, tree, at) && p in at && p + [b] !in at
    ensures Vacant(sizes, |sizes|, tree, at, p, b)
  {
    hide Inner, ShortAt, LsbBits, Vacant;
  }

  lemma NegativeRoot(sizes: seq<nat>, lookup: seq<int>, tree: seq<int>, at: map<seq<bool>, nat>, r: nat)
    requires Holds(sizes, |sizes|, |sizes|, lookup, tree, at) && r < 1024 && lookup[r] < 0
    ensures LsbBits(r, 10) in at && lookup[r] == Link(at[LsbBits(r, 10)])
  {
    hide LongPlaced, ShortPlaced, Inner, Word, LsbBits, HasSlot, Vacant, ShortAt;
    var p := LsbBits(r, 10);
    assert p in at;
    assert HasLookup(lookup, p, Link(at[p]));
    Pow2Table();
    LsbBitsValue(r, 10);
  }

  /** A positive entry is that of a code the index starts with. */
  lemma PositiveEntry(sizes: seq<nat>, lookup: seq<int>, tree: seq<int>, at: map<seq<bool>, nat>, r: nat)
    returns (s: nat)
    requires Holds(sizes, |sizes|, |sizes|, lookup, tree, at) && r < 1024 && lookup[r] > 0
    ensures s < |sizes| && 1 <= sizes[s] <= 10 && Word(sizes, s) <= LsbBits(r, 10) && lookup[r] == sizes[s] * 512 + s
  {
    hide LongPlaced, Linked, Inner, Word, LsbBits, Vacant;
    assert ShortAt(sizes, |sizes|, LsbBits(r, 10));
    s :| 0 <= s < |sizes| && 1 <= sizes[s] <= 10 && Word(sizes, s) <= LsbBits(r, 10);
  }

  /** A code found in the bits at hand is the one that more bits would give. */
  lemma FoundExtends(sizes: seq<nat>, lookup: seq<int>, tree: seq<int>, bits: seq<bool>, all: seq<bool>)
    requires Built(sizes, lookup, tree) && Found(lookup, tree, bits) && bits <= all
    ensures Decode(lookup, tree, all) == Decode(lookup, tree, bits)
  {
    hide Word, LsbBits, LookupIndex, Fits, Holds, Walk;
    var at :| Holds(sizes, |sizes|, |sizes|, lookup, tree, at);
    IndexPrefix(bits);
    IndexPrefix(all);
    var r := LookupIndex(bits);
    if lookup[r] > 0 {
      var s := PositiveEntry(sizes, lookup, tree, at, r);
      PrefixWithin(Word(sizes, s), LsbBits(r, 10), bits);
      BuiltBounds(sizes, s);
      DecodesWord(sizes, lookup, tree, s, all);
    } else {
      if |bits| <= 10 { WalkShort(tree, lookup[r], bits); }
      SameIndex(bits, all);
      WalkExtends(tree, lookup[r], bits, all, 10);
    }
  }

  lemma BuiltBounds(sizes: seq<nat>, s: nat)
    requires Lengths(sizes) && s < |sizes|
    ensures s < 288 && sizes[s] <= 15
  {
  }

  lemma PrefixWithin(w: seq<bool>, padded: seq<bool>, bits: seq<bool>)
    requires w <= padded && |w| <= |bits| && |padded| == 10
    requires |bits| >= 10 ==> padded == bits[..10]
    requires |bits| < 10 ==> padded[..|bits|] == bits
    ensures w <= bits
  {
  }

  lemma WalkShort(tree: seq<int>, link: int, bits: seq<bool>)
    requires link < 0 && |bits| <= 10
    ensures Walk(tree, link, bits, 10) == Stuck
  {
  }

  lemma SameIndex(bits: seq<bool>, all: seq<bool>)
    requires bits <= all && |bits| >= 10
    ensures LookupIndex(bits) == LookupIndex(all)
  {
    assert all[..10] == bits[..10];
  }

  /** Fifteen bits settle the outcome. */
  lemma Settled(sizes: seq<nat>, lookup: seq<int>, tree: seq<int>, bits: seq<bool>, all: seq<bool>)
    requires Built(sizes, lookup, tree) && |bits| >= 15 && bits <= all
    ensures Decode(lookup, tree, all) == Decode(lookup, tree, bits)
    ensures var d := Decode(lookup, tree, bits); d.Symbol? && d.sym >= 0 && d.len <= 15
  {
    hide Word, LsbBits, LookupIndex, Fits, Holds, Walk;
    var at :| Holds(sizes, |sizes|, |sizes|, lookup, tree, at);
    IndexPrefix(bits);
    SameIndex(bits, all);
    HoldsSize(sizes, lookup, tree, at);
    var r := LookupIndex(bits);
    if lookup[r] < 0 {
      NegativeRoot(sizes, lookup, tree, at, r);
      WalkEnds(sizes, lookup, tree, at, bits, 10);
      WalkExtends(tree, lookup[r], bits, all, 10);
    } else if lookup[r] > 0 {
      var s := PositiveEntry(sizes, lookup, tree, at, r);
      BuiltBounds(sizes, s);
      assert bits[..sizes[s]] == bits[..10][..sizes[s]];
    }
  }

  lemma HoldsSize(sizes: seq<nat>, lookup: seq<int>, tree: seq<int>, at: map<seq<bool>, nat>)
    requires Holds(sizes, |sizes|, |sizes|, lookup, tree, at)
    ensures |lookup| == 1024 && |tree| == 576
  {
  }

  /** Every link met on the way from `link` leads into the tree. */
  ghost predicate Reachable(tree: seq<int>, link: int, bits: seq<bool>, d: nat)
    decreases |bits| - d
  {
    link < 0 && d < |bits| ==>
      var j := -link - 1 + Bit(bits[d]);
      j < |tree| && Reachable(tree, tree[j], bits, d + 1)
  }

  lemma {:induction false} LinksReachable(sizes: seq<nat>, lookup: seq<int>, tree: seq<int>, at: map<seq<bool>, nat>,
                                          bits: seq<bool>, d: nat)
    requires Holds(sizes, |sizes|, |sizes|, lookup, tree, at)
    requires d <= |bits| && bits[..d] in at
    ensures Reachable(tree, Link(at[bits[..d]]), bits, d)
    decreases |bits| - d
  {
    hide Holds, Link;
    if d < |bits| {
      var j := NodeStep(sizes, lookup, tree, at, bits, d);
      LinkNegative(at[bits[..d]]);
      if bits[..d + 1] in at { LinksReachable(sizes, lookup, tree, at, bits, d + 1); }
    }
  }

  lemma RootReachable(sizes: seq<nat>, lookup: seq<int>, tree: seq<int>, bits: seq<bool>)
    requires Built(sizes, lookup, tree) && |bits| >= 10
    ensures |lookup| == 1024 && |tree| == 576 && LookupIndex(bits) < 1024
    ensures lookup[LookupIndex(bits)] < 0 ==> Reachable(tree, lookup[LookupIndex(bits)], bits, 10)
  {
    hide Word, LsbBits, LookupIndex, Fits, Holds, Reachable;
    var at :| Holds(sizes, |sizes|, |sizes|, lookup, tree, at);
    HoldsSize(sizes, lookup, tree, at);
    IndexPrefix(bits);
    var r := LookupIndex(bits);
    if lookup[r] < 0 {
      NegativeRoot(sizes, lookup, tree, at, r);
      LinksReachable(sizes, lookup, tree, at, bits, 10);
    }
  }

  /** The table entry for the bits at hand; missing bits count as zero. */
  lemma RegisterIndex(x: nat, n: nat)
    requires x < Pow2(n)
    ensures Low(x, 10) == LookupIndex(LsbBits(x, n))
  {
    hide LsbBits, LsbValue, Pow2;
    if n >= 10 {
      LsbSplit(x, n, 10);
    } else {
      LsbBitsValue(x, n);
      Pow2Mono(n, 10);
      SmallMod(x, Pow2(10));
    }
  }

  lemma SmallMod(x: nat, m: nat)
    requires x < m
    ensures x % m == x
  {
  }

  lemma BuiltSize(sizes: seq<nat>, lookup: seq<int>, tree: seq<int>)
    requires Built(sizes, lookup, tree)
    ensures |lookup| == 1024 && |tree| == 576
  {
    hide Holds, Fits;
    var at :| Holds(sizes, |sizes|, |sizes|, lookup, tree, at);
    HoldsSize(sizes, lookup, tree, at);
  }

  /** Follows links as far as the bits at hand go. */
  method FollowLinks(lookup: array<int>, tree: array<int>, r: BitReader, link: int) returns (sym: int, len: nat)
    requires r.Valid() && link < 0 && r.numBits > 10
    requires tree.Length == 576 && Reachable(tree[..], link, r.Held(), 10)
    ensures sym >= 0 ==> Walk(tree[..], link, r.Held(), 10) == Symbol(sym, len) && 0 < len <= r.numBits
    ensures sym < 0 ==> Walk(tree[..], link, r.Held(), 10) == Stuck
  {
    hide LsbBits, Pow2, Shift;
    sym, len := link, 10;
    while sym < 0 && len < r.numBits
      invariant 10 <= len <= r.numBits && Reachable(tree[..], sym, r.Held(), len)
      invariant Walk(tree[..], link, r.Held(), 10) == Walk(tree[..], sym, r.Held(), len)
      decreases r.numBits - len
    {
      LsbBitAt(r.bitBuf, r.numBits, len);
      sym := tree[-sym - 1 + Shift(r.bitBuf, len) % 2];
      len := len + 1;
    }
  }

  /** Whether a whole code is in the register. */
  method HasCode(r: BitReader, lookup: array<int>, tree: array<int>, ghost sizes: seq<nat>) returns (found: bool)
    requires r.Valid() && Built(sizes, lookup[..], tree[..])
    ensures found <==> Found(lookup[..], tree[..], r.Held())
  {
    hide LsbBits, Pow2, LookupIndex, Walk, Low, Built, Reachable;
    BuiltSize(sizes, lookup[..], tree[..]);
    RegisterIndex(r.bitBuf, r.numBits);
    IndexPrefix(r.Held());
    var temp := lookup[Low(r.bitBuf, 10)];
    if temp >= 0 {
      var len := temp / 512;
      return len > 0 && r.numBits >= len;
    }
    if r.numBits > 10 {
      RootReachable(sizes, lookup[..], tree[..], r.Held());
      var sym, len := FollowLinks(lookup, tree, r, temp);
      return sym >= 0;
    }
    WalkShort(tree[..], temp, r.Held());
    return false;
  }

  /** Without the last byte the bits hold no whole code. */
  ghost predicate LastNeeded(lookup: seq<int>, tree: seq<int>, bits: seq<bool>) {
    |bits| >= 8 && !Found(lookup, tree, bits[..|bits| - 8])
  }

  /** Reads bytes one at a time until a whole code, or 15 bits, are in the register. */
  method BitBufFill(r: BitReader, lookup: array<int>, tree: array<int>, ghost sizes: seq<nat>) returns (ok: bool)
    requires r.Valid() && r.numBits < 15 && Built(sizes, lookup[..], tree[..])
    modifies r
    ensures r.Valid() && r.Rest() == old(r.Rest())
    ensures ok ==> r.numBits >= 15 || Found(lookup[..], tree[..], r.Held())
    ensures !ok ==> |r.Rest()| < 15 && !Found(lookup[..], tree[..], r.Rest())
    ensures r.pos > old(r.pos) ==> LastNeeded(lookup[..], tree[..], r.Held())
  {
    hide LsbBits, Pow2, BitsOf, Found, Built;
    while true
      invariant r.Valid() && r.Rest() == old(r.Rest()) && r.numBits < 15 && r.pos >= old(r.pos)
      invariant r.pos > old(r.pos) ==> LastNeeded(lookup[..], tree[..], r.Held())
      decreases |r.input| - r.pos
    {
      var found := HasCode(r, lookup, tree, sizes);
      if found { return true; }
      ghost var bits := r.Held();
      ok := r.NeedByte();
      if !ok {
        assert r.input[r.pos..] == [];
        BitsOfNone();
        assert r.Rest() == r.Held() == bits;
        return;
      }
      assert r.Held()[..r.numBits - 8] == bits;
      if r.numBits >= 15 { return true; }
    }
  }

  /** What the register must hold before the final lookup. */
  ghost predicate Enough(lookup: seq<int>, tree: seq<int>, bits: seq<bool>) {
    |bits| >= 15 || Found(lookup, tree, bits)
  }

  lemma EnoughDecides(sizes: seq<nat>, lookup: seq<int>, tree: seq<int>, bits: seq<bool>, all: seq<bool>)
    requires Built(sizes, lookup, tree) && Enough(lookup, tree, bits) && bits <= all
    ensures var d := Decode(lookup, tree, bits);
      d.Symbol? && d.sym >= 0 && d.len <= |bits| && Decode(lookup, tree, all) == d
  {
    hide Built, Decode;
    if |bits| >= 15 {
      Settled(sizes, lookup, tree, bits, all);
    } else {
      FoundExtends(sizes, lookup, tree, bits, all);
      var padded := bits + seq(15, _ => false);
      FoundExtends(sizes, lookup, tree, bits, padded);
      Settled(sizes, lookup, tree, padded, padded);
    }
  }

  /** A code that was not complete without the last byte leaves fewer than eight bits. */
  lemma LastByteNeeded(sizes: seq<nat>, lookup: seq<int>, tree: seq<int>, bits: seq<bool>, s: nat)
    requires Built(sizes, lookup, tree) && !Found(lookup, tree, bits)
    ensures !Starts(sizes, s, bits)
  {
    hide Built, Decode, Word;
    if Starts(sizes, s, bits) { DecodesWord(sizes, lookup, tree, s, bits); }
  }

  // ---- What the tables give on any bits.

  /** The nodes of the tree are the beginnings of the long words. */
  lemma NodeBegins(sizes: seq<nat>, lookup: seq<int>, tree: seq<int>, at: map<seq<bool>, nat>, p: seq<bool>)
    requires Holds(sizes, |sizes|, |sizes|, lookup, tree, at) && |p| >= 10
    ensures p in at <==> Begins(sizes, p)
  {
    hide ShortPlaced, Word, HasSlot, HasLookup, Vacant, ShortAt, LsbBits;
    if p in at { assert Inner(sizes, |sizes|, p); }
    if Begins(sizes, p) {
      var s :| Owns(sizes, |sizes|, s, p);
      assert Word(sizes, s)[..|p|] == p;
    }
  }

  /** From a node, the walk leads to where the bits leave the words. */
  lemma {:induction false} WalkStrays(sizes: seq<nat>, lookup: seq<int>, tree: seq<int>, at: map<seq<bool>, nat>,
                                      bits: seq<bool>, d: nat)
    requires Holds(sizes, |sizes|, |sizes|, lookup, tree, at) && 10 <= d <= |bits| && bits[..d] in at
    requires !HasWord(sizes, bits)
    ensures var n := Stray(sizes, bits, d);
      Walk(tree, Link(at[bits[..d]]), bits, d) == if Begins(sizes, bits[..n]) then Stuck else Symbol(0, n)
    decreases |bits| - d
  {
    hide Holds, Link, Begins, Word;
    NodeBegins(sizes, lookup, tree, at, bits[..d]);
    LinkNegative(at[bits[..d]]);
    if d < |bits| {
      var j := NodeStep(sizes, lookup, tree, at, bits, d);
      NodeBegins(sizes, lookup, tree, at, bits[..d + 1]);
      if bits[..d + 1] in at {
        WalkStrays(sizes, lookup, tree, at, bits, d + 1);
      } else {
        NoSymbol(sizes, bits, d + 1, tree[j]);
      }
    }
  }

  lemma NoSymbol(sizes: seq<nat>, bits: seq<bool>, n: nat, v: nat)
    requires !HasWord(sizes, bits) && 0 < n <= |bits|
    requires v > 0 ==> v < |sizes| && Word(sizes, v) == bits[..n]
    ensures v == 0
  {
    hide HasWord;
    if v > 0 { WordIs(sizes, v, bits); }
  }

  lemma WordIs(sizes: seq<nat>, s: nat, bits: seq<bool>)
    requires s < |sizes| && sizes[s] > 0 && Word(sizes, s) <= bits
    ensures HasWord(sizes, bits)
  {
    hide Word;
    assert Starts(sizes, s, bits);
  }

  lemma NextWord(sizes: seq<nat>, lookup: seq<int>, tree: seq<int>, bits: seq<bool>)
    requires Built(sizes, lookup, tree) && HasWord(sizes, bits)
    ensures Found(lookup, tree, bits) && NextOf(sizes, bits) == Decode(lookup, tree, bits)
  {
    hide Built, Decode, Word;
    OnlyCode(sizes, lookup, tree, bits);
  }

  lemma NoWordNext(sizes: seq<nat>, lookup: seq<int>, tree: seq<int>, bits: seq<bool>)
    requires Built(sizes, lookup, tree) && |bits| >= 10 && !HasWord(sizes, bits)
    ensures var d := Decode(lookup, tree, bits);
      if Begins(sizes, bits[..10]) then NextOf(sizes, bits) == d && (d.Symbol? ==> d.len >= 10) else d == Symbol(0, 0)
  {
    hide Word, LsbBits, LookupIndex, Fits, Holds, Walk, Begins, Link;
    var at :| Holds(sizes, |sizes|, |sizes|, lookup, tree, at);
    IndexPrefix(bits);
    HoldsSize(sizes, lookup, tree, at);
    var r := LookupIndex(bits);
    NodeBegins(sizes, lookup, tree, at, bits[..10]);
    ShortStarts(sizes, lookup, tree, at, bits);
    if lookup[r] < 0 {
      NegativeRoot(sizes, lookup, tree, at, r);
      WalkStrays(sizes, lookup, tree, at, bits, 10);
    } else if bits[..10] in at {
      RootLinked(sizes, lookup, tree, at, bits[..10], r);
    }
  }

  lemma ShortStarts(sizes: seq<nat>, lookup: seq<int>, tree: seq<int>, at: map<seq<bool>, nat>, bits: seq<bool>)
    requires Holds(sizes, |sizes|, |sizes|, lookup, tree, at) && |bits| >= 10
    ensures LookupIndex(bits) < |lookup|
    ensures lookup[LookupIndex(bits)] > 0 ==> HasWord(sizes, bits)
  {
    hide Word, LsbBits, LookupIndex, Holds;
    IndexPrefix(bits);
    HoldsSize(sizes, lookup, tree, at);
    var r := LookupIndex(bits);
    if lookup[r] > 0 {
      var s := PositiveEntry(sizes, lookup, tree, at, r);
      WordIs(sizes, s, bits);
    }
  }

  lemma RootLinked(sizes: seq<nat>, lookup: seq<int>, tree: seq<int>, at: map<seq<bool>, nat>, p: seq<bool>, r: nat)
    requires Holds(sizes, |sizes|, |sizes|, lookup, tree, at)
    requires p in at && |p| == 10 && r < 1024 && LsbBits(r, 10) == p
    ensures lookup[r] < 0
  {
    hide LsbBits, HasSlot, NoStray, LongPlaced, ShortPlaced;
    assert HasLookup(lookup, p, Link(at[p]));
    Pow2Table();
    LsbBitsValue(r, 10);
  }

  lemma TooFew(sizes: seq<nat>, lookup: seq<int>, tree: seq<int>, bits: seq<bool>)
    requires Built(sizes, lookup, tree) && |bits| < 10 && !HasWord(sizes, bits)
    ensures !Found(lookup, tree, bits)
  {
    hide Word, LsbBits, LookupIndex, Fits, Holds, Walk, HasWord;
    var at :| Holds(sizes, |sizes|, |sizes|, lookup, tree, at);
    IndexPrefix(bits);
    HoldsSize(sizes, lookup, tree, at);
    var r := LookupIndex(bits);
    if lookup[r] > 0 {
      var s := PositiveEntry(sizes, lookup, tree, at, r);
      BuiltBounds(sizes, s);
      if sizes[s] <= |bits| {
        PrefixWithin(Word(sizes, s), LsbBits(r, 10), bits);
        WordIs(sizes, s, bits);
      }
    } else if lookup[r] < 0 {
      WalkShort(tree, lookup[r], bits);
    }
  }

  /** On any bits, the tables give what the code says; with fewer than 15 bits at hand, only when
      they hold a whole code. */
  lemma DecodeIs(sizes: seq<nat>, lookup: seq<int>, tree: seq<int>, bits: seq<bool>)
    requires Built(sizes, lookup, tree)
    ensures NextOf(sizes, bits)
         == if Enough(lookup, tree, bits) then Decode(lookup, tree, bits) else Stuck
  {
    hide Built, Begins, Stray, HasWord, Decode;
    if HasWord(sizes, bits) {
      NextWord(sizes, lookup, tree, bits);
    } else if |bits| >= 10 {
      NoWordNext(sizes, lookup, tree, bits);
    } else {
      TooFew(sizes, lookup, tree, bits);
    }
  }

  /** Makes sure that a whole code is in the register. */
  method Refill(r: BitReader, lookup: array<int>, tree: array<int>, ghost sizes: seq<nat>) returns (ok: bool)
    requires r.Valid() && Built(sizes, lookup[..], tree[..])
    modifies r
    ensures r.Valid() && r.Rest() == old(r.Rest())
    ensures ok ==> Enough(lookup[..], tree[..], r.Held())
    ensures !ok ==> |r.Rest()| < 15 && !Found(lookup[..], tree[..], r.Rest())
    ensures |r.input| - old(r.pos) < 2 && r.pos > old(r.pos) ==> LastNeeded(lookup[..], tree[..], r.Held())
  {
    hide LsbBits, Pow2, BitsOf, Found, Built;
    ok := true;
    if r.numBits < 15 {
      if |r.input| - r.pos < 2 {
        ok := BitBufFill(r, lookup, tree, sizes);
      } else {
        ok := r.NeedByte();
        ok := r.NeedByte();
      }
    }
  }

  lemma NoCode(sizes: seq<nat>, lookup: seq<int>, tree: seq<int>, bits: seq<bool>)
    requires Built(sizes, lookup, tree) && !Found(lookup, tree, bits)
    ensures forall s: nat :: !Starts(sizes, s, bits)
  {
    hide Built, Decode, Word, Found;
    forall s: nat ensures !Starts(sizes, s, bits) {
      LastByteNeeded(sizes, lookup, tree, bits, s);
    }
  }

  lemma OnlyCode(sizes: seq<nat>, lookup: seq<int>, tree: seq<int>, bits: seq<bool>)
    requires Built(sizes, lookup, tree)
    ensures forall s: nat :: Starts(sizes, s, bits) ==>
      Decode(lookup, tree, bits) == Symbol(s, sizes[s])
  {
    hide Built, Decode, Word;
    forall s: nat | Starts(sizes, s, bits)
      ensures Decode(lookup, tree, bits) == Symbol(s, sizes[s])
    {
      DecodesWord(sizes, lookup, tree, s, bits);
    }
  }

  lemma ShorterPrefix(sizes: seq<nat>, s: nat, all: seq<bool>, bits: seq<bool>)
    requires Starts(sizes, s, all) && bits <= all
    ensures sizes[s] <= |bits| ==> Starts(sizes, s, bits)
  {
    hide MsbBits, Code;
  }

  lemma CodeLonger(sizes: seq<nat>, lookup: seq<int>, tree: seq<int>, all: seq<bool>, bits: seq<bool>)
    requires Built(sizes, lookup, tree) && bits <= all && !Found(lookup, tree, bits)
    ensures forall s: nat :: Starts(sizes, s, all) ==> |bits| < sizes[s]
  {
    hide Built, Decode, Found, Word;
    NoCode(sizes, lookup, tree, bits);
    forall s: nat | Starts(sizes, s, all) ensures |bits| < sizes[s] {
      ShorterPrefix(sizes, s, all, bits);
    }
  }

  /** The symbol and length for the bits in the register. */
  method LookUp(r: BitReader, lookup: array<int>, tree: array<int>, ghost sizes: seq<nat>) returns (sym: nat, len: nat)
    requires r.Valid() && Built(sizes, lookup[..], tree[..]) && Enough(lookup[..], tree[..], r.Held())
    ensures Decode(lookup[..], tree[..], r.Held()) == Symbol(sym, len) && len <= r.numBits
  {
    hide LsbBits, Pow2, LookupIndex, Walk, Low, Built, Reachable;
    BuiltSize(sizes, lookup[..], tree[..]);
    RegisterIndex(r.bitBuf, r.numBits);
    IndexPrefix(r.Held());
    EnoughDecides(sizes, lookup[..], tree[..], r.Held(), r.Held());
    var temp := lookup[Low(r.bitBuf, 10)];
    if temp >= 0 {
      return temp % 512, temp / 512;
    }
    if r.numBits <= 10 { WalkShort(tree[..], temp, r.Held()); }
    RootReachable(sizes, lookup[..], tree[..], r.Held());
    var s, n := FollowLinks(lookup, tree, r, temp);
    return s, n;
  }

  /** Takes the symbol that is in the register. */
  method TakeSymbol(r: BitReader, lookup: array<int>, tree: array<int>, ghost sizes: seq<nat>) returns (sym: nat)
    requires r.Valid() && Built(sizes, lookup[..], tree[..]) && Enough(lookup[..], tree[..], r.Held())
    modifies r
    ensures r.Valid() && r.pos == old(r.pos) && old(r.Held()) <= old(r.Rest())
    ensures Enough(lookup[..], tree[..], old(r.Rest()))
    ensures r.numBits <= old(r.numBits)
    ensures Decode(lookup[..], tree[..], old(r.Rest())) == Symbol(sym, old(r.numBits) - r.numBits)
    ensures r.Rest() == old(r.Rest())[old(r.numBits) - r.numBits..]
  {
    hide LsbBits, Pow2, BitsOf, Built, Decode, Enough;
    EnoughStays(sizes, lookup[..], tree[..], r.Held(), r.Rest());
    var len;
    sym, len := LookUp(r, lookup, tree, sizes);
    var bits := r.Drop(len);
  }

  /** Decodes one symbol: on any input the one that the code says, which is the one whose word the
      stream starts with. Near the end of the input, bytes are read only while the code is not
      complete. */
  method HuffDecode(r: BitReader, lookup: array<int>, tree: array<int>, ghost sizes: seq<nat>)
    returns (ok: bool, sym: nat)
    requires r.Valid() && Built(sizes, lookup[..], tree[..])
    modifies r
    ensures r.Valid()
    ensures ok <==> NextOf(sizes, old(r.Rest())).Symbol?
    ensures ok ==> sym == NextOf(sizes, old(r.Rest())).sym
    ensures ok ==> r.Rest() == old(r.Rest())[NextOf(sizes, old(r.Rest())).len..]
    ensures !ok ==> r.Rest() == old(r.Rest()) && |r.Rest()| < 15
    ensures |r.input| - old(r.pos) < 2 && r.pos > old(r.pos) && HasWord(sizes, old(r.Rest())) ==> r.numBits < 8
  {
    hide LsbBits, Pow2, BitsOf, Found, Built, Decode, Word, Enough, NextOf, HasWord, LastNeeded,
      BitReader.Rest, BitReader.Held;
    ghost var all := r.Rest();
    ok := Refill(r, lookup, tree, sizes);
    DecodeIs(sizes, lookup[..], tree[..], all);
    if !ok {
      NotEnough(lookup[..], tree[..], all);
      NoneStarts(sizes, all);
      return false, 0;
    }
    ghost var held := r.Held();
    sym := TakeSymbol(r, lookup, tree, sizes);
    if |r.input| - old(r.pos) < 2 && r.pos > old(r.pos) {
      FewLeft(sizes, lookup[..], tree[..], all, held);
    }
  }

  lemma NotEnough(lookup: seq<int>, tree: seq<int>, bits: seq<bool>)
    requires |bits| < 15 && !Found(lookup, tree, bits)
    ensures !Enough(lookup, tree, bits)
  {
    hide Found;
  }

  lemma EnoughStays(sizes: seq<nat>, lookup: seq<int>, tree: seq<int>, bits: seq<bool>, all: seq<bool>)
    requires Built(sizes, lookup, tree) && Enough(lookup, tree, bits) && bits <= all
    ensures Enough(lookup, tree, all) && Decode(lookup, tree, all) == Decode(lookup, tree, bits)
  {
    hide Built, Decode;
    EnoughDecides(sizes, lookup, tree, bits, all);
  }

  /** When the code was not complete without the last byte, it takes more than what was there. */
  lemma FewLeft(sizes: seq<nat>, lookup: seq<int>, tree: seq<int>, all: seq<bool>, held: seq<bool>)
    requires Built(sizes, lookup, tree) && held <= all && LastNeeded(lookup, tree, held)
    ensures HasWord(sizes, all) ==>
      Decode(lookup, tree, all).Symbol? && Decode(lookup, tree, all).len > |held| - 8
  {
    hide Built, Decode, Found, Word;
    CodeLonger(sizes, lookup, tree, all, held[..|held| - 8]);
    OnlyCode(sizes, lookup, tree, all);
  }

  lemma NoneStarts(sizes: seq<nat>, bits: seq<bool>)
    requires NextOf(sizes, bits).Stuck?
    ensures !HasWord(sizes, bits)
  {
    hide Begins, Stray, HasWord;
  }

  /** A word is taken as a whole, whatever follows it. */
  lemma WordNext(sizes: seq<nat>, s: nat, tail: seq<bool>)
    requires Accepted(sizes) && s < |sizes| && sizes[s] > 0
    ensures NextOf(sizes, Word(sizes, s) + tail) == Symbol(s, sizes[s])
    ensures (Word(sizes, s) + tail)[sizes[s]..] == tail
  {
    hide Word, Fits, Complete, Used;
    var bits := Word(sizes, s) + tail;
    WordIs(sizes, s, bits);
    AcceptedFits(sizes);
    forall t: nat | Starts(sizes, t, bits) ensures t == s {
      if t != s {
        PrefixFree(sizes, s, t);
        PrefixFree(sizes, t, s);
        BothStart(Word(sizes, s), Word(sizes, t), bits);
      }
    }
  }

  lemma BothStart(v: seq<bool>, w: seq<bool>, bits: seq<bool>)
    requires v <= bits && w <= bits
    ensures v <= w || w <= v
  {
  }
}
