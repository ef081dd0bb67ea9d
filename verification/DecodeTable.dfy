/** The decoder's tables: a lookup indexed by the next 10 bits and, for longer
    codes, a tree of paired slots whose links are negative. */
module DecodeTable {
  import opened Kraft
  import opened Bits
  import opened Canonical
  import opened NodeBudget

  /** Node `k` is written as this link; its two slots are `2 * k` and `2 * k + 1`. */
  function Link(k: nat): int {
    -(2 * k + 1)
  }

  /** The first `n` short codes are at every lookup index they are a prefix of. */
  ghost predicate ShortPlaced(sizes: seq<nat>, n: nat, lookup: seq<int>) {
    && |lookup| == 1024 && n <= |sizes|
    && (forall s, r :: 0 <= s < n && 1 <= sizes[s] <= 10 && 0 <= r < 1024 && Word(sizes, s) <= LsbBits(r, 10) ==>
          lookup[r] == sizes[s] * 512 + s)
  }

  /** `at` numbers the inner strings that have a node, and each is linked from its parent. */
  ghost predicate Linked(lookup: seq<int>, tree: seq<int>, at: map<seq<bool>, nat>) {
    && |lookup| == 1024 && |tree| == 576 && 2 * |at| <= 576
    && (forall p :: p in at ==> 10 <= |p| <= 14 && at[p] < |at|)
    && (forall p, q :: p in at && q in at && at[p] == at[q] ==> p == q)
    && (forall p :: p in at && |p| == 10 ==> HasLookup(lookup, p, Link(at[p])))
    && (forall p :: p in at && |p| > 10 ==> HasSlot(tree, at, p, Link(at[p])))
  }

  ghost predicate HasLookup(lookup: seq<int>, p: seq<bool>, v: int) {
    LsbValue(p) < |lookup| && lookup[LsbValue(p)] == v
  }

  /** The slot of `p` in its parent's pair holds `v`. */
  ghost predicate HasSlot(tree: seq<int>, at: map<seq<bool>, nat>, p: seq<bool>, v: int) {
    && |p| > 0 && p[..|p| - 1] in at
    && var j := 2 * at[p[..|p| - 1]] + Bit(p[|p| - 1]);
       j < |tree| && tree[j] == v
  }

  /** The first `n` long codes end in their symbol, below nodes for all their prefixes. */
  ghost predicate LongPlaced(sizes: seq<nat>, n: nat, tree: seq<int>, at: map<seq<bool>, nat>) {
    && n <= |sizes|
    && (forall s, d :: 0 <= s < n && 10 <= d < sizes[s] ==> Word(sizes, s)[..d] in at)
    && (forall s :: 0 <= s < n && sizes[s] > 10 ==> HasSlot(tree, at, Word(sizes, s), s))
  }

  /** Nothing else is in the tables: links lead to nodes, symbols are those of placed
      codes, and every node is above one of the first `m` words. */
  ghost predicate NoStray(sizes: seq<nat>, n: nat, m: nat, lookup: seq<int>, tree: seq<int>, at: map<seq<bool>, nat>) {
    && |lookup| == 1024 && |tree| == 576 && 2 * |at| <= 576 && n <= m <= |sizes|
    && (forall p :: p in at ==> Inner(sizes, m, p))
    && (forall r :: 0 <= r < 1024 && lookup[r] < 0 ==> LsbBits(r, 10) in at)
    && (forall r :: 0 <= r < 1024 && lookup[r] > 0 ==> ShortAt(sizes, n, LsbBits(r, 10)))
    && (forall p, b :: p in at && p + [b] !in at ==> Vacant(sizes, n, tree, at, p, b))
    && (forall j :: 2 * |at| <= j < 576 ==> tree[j] == 0)
  }

  ghost predicate ShortAt(sizes: seq<nat>, n: nat, p: seq<bool>) {
    exists s :: 0 <= s < n <= |sizes| && 1 <= sizes[s] <= 10 && Word(sizes, s) <= p
  }

  /** The slot for `p + [b]` holds no link: it is empty or the symbol of that very code. */
  ghost predicate Vacant(sizes: seq<nat>, n: nat, tree: seq<int>, at: map<seq<bool>, nat>, p: seq<bool>, b: bool) {
    p in at && 2 * at[p] + 1 < |tree| &&
    var v := tree[2 * at[p] + Bit(b)];
    v >= 0 && (v > 0 ==> v < n <= |sizes| && Word(sizes, v) == p + [b])
  }

  /** The tables hold exactly the first `n` codes (and, in `at`, nodes above the first `m`). */
  ghost predicate Holds(sizes: seq<nat>, n: nat, m: nat, lookup: seq<int>, tree: seq<int>, at: map<seq<bool>, nat>) {
    && ShortPlaced(sizes, n, lookup) && Linked(lookup, tree, at) && LongPlaced(sizes, n, tree, at)
    && NoStray(sizes, n, m, lookup, tree, at)
  }

  lemma HoldsNothing(sizes: seq<nat>, lookup: seq<int>, tree: seq<int>)
    requires |lookup| == 1024 && |tree| == 576
    requires forall r :: 0 <= r < 1024 ==> lookup[r] == 0
    requires forall j :: 0 <= j < 576 ==> tree[j] == 0
    ensures Holds(sizes, 0, 0, lookup, tree, map[])
  {
  }

  // ---- Placing a short code.

  /** `lookup'` is `lookup` with `k` at every index that starts with `w`. */
  ghost predicate Stamped(lookup: seq<int>, lookup': seq<int>, w: seq<bool>, k: int) {
    && |lookup| == |lookup'| == 1024
    && forall r :: 0 <= r < 1024 ==> lookup'[r] == if w <= LsbBits(r, 10) then k else lookup[r]
  }

  /** The lookup indexes that start with `w` are `rev` plus multiples of two to the `size`. */
  lemma StampIndex(rev: nat, size: nat, w: seq<bool>, q: nat, r: nat)
    requires size <= 10 && rev < Pow2(size) && LsbBits(rev, size) == w && r == rev + q * Pow2(size)
    ensures w <= LsbBits(r, 10)
  {
    hide LsbBits, Pow2;
    LsbAddHigh(rev, size, q);
    LsbPrefix(r, 10, size);
  }

  lemma StampGap(rev: nat, size: nat, w: seq<bool>, q: int, i: nat)
    requires size <= 10 && rev < Pow2(size) && LsbBits(rev, size) == w
    requires rev + q * Pow2(size) < i < rev + (q + 1) * Pow2(size)
    ensures !(w <= LsbBits(i, 10))
  {
    hide LsbBits, Pow2;
    if w <= LsbBits(i, 10) {
      LsbPrefix(i, 10, size);
      var q' := SameLow(i, rev, size);
      var p := Pow2(size);
      if q' <= q { MulOrder(p, q', q); } else { MulOrder(p, q + 1, q'); }
    }
  }

  /** Fills every lookup index whose low bits are `rev`, in steps of two to the `size`. */
  method Stamp(lookup: array<int>, rev: nat, size: nat, k: int, ghost w: seq<bool>)
    requires lookup.Length == 1024 && size <= 10
    requires rev < Pow2(size) && LsbBits(rev, size) == w
    modifies lookup
    ensures Stamped(old(lookup[..]), lookup[..], w, k)
  {
    hide LsbBits, Pow2;
    var step := Pow2(size);
    var r := rev;
    ghost var q: nat := 0;
    forall i | 0 <= i < rev ensures !(w <= LsbBits(i, 10)) {
      StampGap(rev, size, w, -1, i);
    }
    while r < 1024
      invariant 0 <= r == rev + q * step
      invariant forall i :: 0 <= i < 1024 ==>
        lookup[i] == if i < r && w <= LsbBits(i, 10) then k else old(lookup[i])
      decreases 1024 - r
    {
      StampIndex(rev, size, w, q, r);
      lookup[r] := k;
      MulDistributes(step, q, 1);
      forall i | r < i < r + step ensures !(w <= LsbBits(i, 10)) {
        StampGap(rev, size, w, q, i);
      }
      r := r + step;
      q := q + 1;
    }
  }

  lemma PlaceShort(sizes: seq<nat>, n: nat, lookup: seq<int>, lookup': seq<int>, tree: seq<int>,
                   at: map<seq<bool>, nat>)
    requires Lengths(sizes) && Fits(sizes) && n < |sizes| && 1 <= sizes[n] <= 10
    requires Holds(sizes, n, n, lookup, tree, at)
    requires Stamped(lookup, lookup', Word(sizes, n), sizes[n] * 512 + n)
    ensures Holds(sizes, n + 1, n + 1, lookup', tree, at)
  {
    hide Word, LsbBits, LsbValue, Inner;
    ShortKeepsShort(sizes, n, lookup, lookup');
    ShortKeepsLinks(sizes, n, lookup, lookup', tree, at);
    ShortKeepsStray(sizes, n, lookup, lookup', tree, at);
  }

  lemma ShortKeepsShort(sizes: seq<nat>, n: nat, lookup: seq<int>, lookup': seq<int>)
    requires Lengths(sizes) && Fits(sizes) && n < |sizes| && 1 <= sizes[n] <= 10
    requires ShortPlaced(sizes, n, lookup)
    requires Stamped(lookup, lookup', Word(sizes, n), sizes[n] * 512 + n)
    ensures ShortPlaced(sizes, n + 1, lookup')
  {
    hide Word, LsbBits, Fits, Lengths;
    forall s, r | 0 <= s < n + 1 && 1 <= sizes[s] <= 10 && 0 <= r < 1024 && Word(sizes, s) <= LsbBits(r, 10)
      ensures lookup'[r] == sizes[s] * 512 + s
    {
      if s < n && Word(sizes, n) <= LsbBits(r, 10) {
        Comparable(sizes, s, n, LsbBits(r, 10));
      }
    }
  }

  /** Two words cannot both be prefixes of one string. */
  lemma Comparable(sizes: seq<nat>, i: nat, j: nat, bits: seq<bool>)
    requires Lengths(sizes) && Fits(sizes) && i < |sizes| && j < |sizes| && sizes[i] > 0 && sizes[j] > 0
    requires Word(sizes, i) <= bits && Word(sizes, j) <= bits
    ensures i == j
  {
    hide Word, Fits, Lengths;
    if i != j {
      PrefixFree(sizes, i, j);
      PrefixFree(sizes, j, i);
    }
  }

  /** A node's string never starts with a word. */
  lemma NodeClear(sizes: seq<nat>, m: nat, p: seq<bool>, n: nat)
    requires Lengths(sizes) && Fits(sizes) && n < |sizes| && 1 <= sizes[n] && Inner(sizes, m, p)
    ensures !(Word(sizes, n) <= p)
  {
    hide Word, Fits, Lengths;
    if Word(sizes, n) <= p {
      var s :| Owns(sizes, m, s, p);
      Comparable(sizes, s, n, Word(sizes, s));
    }
  }

  lemma ShortKeepsLinks(sizes: seq<nat>, n: nat, lookup: seq<int>, lookup': seq<int>, tree: seq<int>,
                        at: map<seq<bool>, nat>)
    requires Lengths(sizes) && Fits(sizes) && n < |sizes| && 1 <= sizes[n] <= 10
    requires Linked(lookup, tree, at) && forall p :: p in at ==> Inner(sizes, n, p)
    requires Stamped(lookup, lookup', Word(sizes, n), sizes[n] * 512 + n)
    ensures Linked(lookup', tree, at)
  {
    hide Word, LsbBits, LsbValue, Fits, Lengths, HasSlot, Inner;
    forall p | p in at && |p| == 10 ensures HasLookup(lookup', p, Link(at[p])) {
      assert HasLookup(lookup, p, Link(at[p]));
      NodeClear(sizes, n, p, n);
      LsbRoundTrip(p);
    }
  }

  lemma InnerMore(sizes: seq<nat>, m: nat, p: seq<bool>)
    requires Inner(sizes, m, p) && m < |sizes|
    ensures Inner(sizes, m + 1, p)
  {
    hide Word;
    var s :| Owns(sizes, m, s, p);
    assert Owns(sizes, m + 1, s, p);
  }

  lemma ShortMore(sizes: seq<nat>, n: nat, p: seq<bool>)
    requires ShortAt(sizes, n, p) && n < |sizes|
    ensures ShortAt(sizes, n + 1, p)
  {
    hide Word;
  }

  lemma ShortKeepsStray(sizes: seq<nat>, n: nat, lookup: seq<int>, lookup': seq<int>, tree: seq<int>,
                        at: map<seq<bool>, nat>)
    requires n < |sizes| && 1 <= sizes[n] <= 10
    requires NoStray(sizes, n, n, lookup, tree, at)
    requires Stamped(lookup, lookup', Word(sizes, n), sizes[n] * 512 + n)
    ensures NoStray(sizes, n + 1, n + 1, lookup', tree, at)
  {
    hide Word, LsbBits, Inner, ShortAt, Vacant;
    forall p | p in at ensures Inner(sizes, n + 1, p) { InnerMore(sizes, n, p); }
    forall r | 0 <= r < 1024 && lookup'[r] > 0 ensures ShortAt(sizes, n + 1, LsbBits(r, 10)) {
      if Word(sizes, n) <= LsbBits(r, 10) {
        ShortIntro(sizes, n, LsbBits(r, 10));
      } else {
        ShortMore(sizes, n, LsbBits(r, 10));
      }
    }
    forall p, b | p in at && p + [b] !in at ensures Vacant(sizes, n + 1, tree, at, p, b) {
      VacantMore(sizes, n, tree, at, p, b);
    }
  }

  lemma ShortIntro(sizes: seq<nat>, n: nat, p: seq<bool>)
    requires n < |sizes| && 1 <= sizes[n] <= 10 && Word(sizes, n) <= p
    ensures ShortAt(sizes, n + 1, p)
  {
    hide Word;
  }

  lemma VacantMore(sizes: seq<nat>, n: nat, tree: seq<int>, at: map<seq<bool>, nat>, p: seq<bool>, b: bool)
    requires Vacant(sizes, n, tree, at, p, b) && n < |sizes|
    ensures Vacant(sizes, n + 1, tree, at, p, b)
  {
    hide Word;
  }

  // ---- Placing a long code.

  lemma SlotInjective(tree: seq<int>, lookup: seq<int>, at: map<seq<bool>, nat>, p: seq<bool>, b: bool, q: seq<bool>,
                      c: bool)
    requires Linked(lookup, tree, at) && p in at && q in at
    requires 2 * at[p] + Bit(b) == 2 * at[q] + Bit(c)
    ensures p == q && b == c
  {
  }

  /** More nodes in `at` keep what `HasSlot` says. */
  lemma HasSlotMore(tree: seq<int>, at: map<seq<bool>, nat>, c: seq<bool>, k: nat, p: seq<bool>, v: int)
    requires HasSlot(tree, at, p, v) && c !in at
    ensures HasSlot(tree, at[c := k], p, v)
  {
  }

  lemma LongMore(sizes: seq<nat>, n: nat, tree: seq<int>, at: map<seq<bool>, nat>, c: seq<bool>, k: nat)
    requires LongPlaced(sizes, n, tree, at) && c !in at
    ensures LongPlaced(sizes, n, tree, at[c := k])
  {
    hide Word, HasSlot;
    forall s | 0 <= s < n && sizes[s] > 10 ensures HasSlot(tree, at[c := k], Word(sizes, s), s) {
      HasSlotMore(tree, at, c, k, Word(sizes, s), s);
    }
  }

  /** Nodes may also be kept for the code about to be placed. */
  lemma OpenNext(sizes: seq<nat>, n: nat, lookup: seq<int>, tree: seq<int>, at: map<seq<bool>, nat>)
    requires Holds(sizes, n, n, lookup, tree, at) && n < |sizes|
    ensures Holds(sizes, n, n + 1, lookup, tree, at)
  {
    hide ShortPlaced, Linked, LongPlaced, Inner, ShortAt, Vacant, LsbBits;
    forall p | p in at ensures Inner(sizes, n + 1, p) { InnerMore(sizes, n, p); }
  }

  lemma BudgetAfter(sizes: seq<nat>, m: nat, at: map<seq<bool>, nat>, c: seq<bool>)
    requires Accepted(sizes) && c !in at && Inner(sizes, m, c) && forall p :: p in at ==> Inner(sizes, m, p)
    ensures |at| + 1 == |at[c := |at|]| <= 287
  {
    hide Inner, Accepted;
    var at' := at[c := |at|];
    assert at'.Keys == at.Keys + {c};
    Budget(sizes, m, at'.Keys);
  }

  /** What an unlinked lookup index or slot says about the code passing through it. */
  lemma RootSlot(sizes: seq<nat>, n: nat, lookup: seq<int>, tree: seq<int>, at: map<seq<bool>, nat>, idx: nat)
    requires Lengths(sizes) && Fits(sizes) && n < |sizes| && sizes[n] > 10
    requires Holds(sizes, n, n + 1, lookup, tree, at)
    requires idx == LsbValue(Word(sizes, n)[..10])
    ensures idx < 1024 && LsbBits(idx, 10) == Word(sizes, n)[..10]
    ensures lookup[idx] == 0 ==> Word(sizes, n)[..10] !in at
    ensures lookup[idx] != 0 ==> Word(sizes, n)[..10] in at && lookup[idx] == Link(at[Word(sizes, n)[..10]])
  {
    hide Word, LsbBits, LsbValue, Fits, Lengths, HasSlot, Inner, LongPlaced, Vacant, ShortPlaced, Pow2;
    var p := Word(sizes, n)[..10];
    LsbRoundTrip(p);
    LsbValueBound(p);
    Pow2Table();
    if p in at {
      assert HasLookup(lookup, p, Link(at[p]));
    } else if lookup[idx] > 0 {
      assert ShortAt(sizes, n, p);
      var s :| 0 <= s < n <= |sizes| && 1 <= sizes[s] <= 10 && Word(sizes, s) <= p;
      Comparable(sizes, s, n, Word(sizes, n));
    }
  }

  lemma AddRoot(sizes: seq<nat>, n: nat, lookup: seq<int>, tree: seq<int>, at: map<seq<bool>, nat>, idx: nat)
    requires Accepted(sizes) && Fits(sizes) && n < |sizes| && sizes[n] > 10
    requires Holds(sizes, n, n + 1, lookup, tree, at)
    requires idx < 1024 && LsbBits(idx, 10) == Word(sizes, n)[..10] && lookup[idx] == 0
    requires Word(sizes, n)[..10] !in at && idx == LsbValue(Word(sizes, n)[..10])
    ensures Holds(sizes, n, n + 1, lookup[idx := Link(|at|)], tree, at[Word(sizes, n)[..10] := |at|])
  {
    hide Word, LsbBits, LsbValue, Fits, Lengths, HasSlot, Inner, LongPlaced, Vacant, ShortPlaced, Linked, NoStray,
      Accepted;
    var p := Word(sizes, n)[..10];
    assert Inner(sizes, n + 1, p) by { InnerIntro(sizes, n, 10); }
    StrayInner(sizes, n, n + 1, lookup, tree, at);
    BudgetAfter(sizes, n + 1, at, p);
    LongMore(sizes, n, tree, at, p, |at|);
    RootKeepsShort(sizes, n, lookup, idx, Link(|at|));
    RootKeepsLinks(lookup, tree, at, p, idx);
    RootKeepsStray(sizes, n, lookup, tree, at, p, idx);
  }

  lemma InnerIntro(sizes: seq<nat>, n: nat, d: nat)
    requires n < |sizes| && 10 <= d <= 14 && d < sizes[n]
    ensures Inner(sizes, n + 1, Word(sizes, n)[..d])
  {
    hide Word;
    assert Owns(sizes, n + 1, n, Word(sizes, n)[..d]);
  }

  lemma StrayInner(sizes: seq<nat>, n: nat, m: nat, lookup: seq<int>, tree: seq<int>, at: map<seq<bool>, nat>)
    requires NoStray(sizes, n, m, lookup, tree, at)
    ensures forall p :: p in at ==> Inner(sizes, m, p)
  {
  }

  lemma RootKeepsShort(sizes: seq<nat>, n: nat, lookup: seq<int>, idx: nat, v: int)
    requires ShortPlaced(sizes, n, lookup) && idx < 1024 && lookup[idx] == 0
    ensures ShortPlaced(sizes, n, lookup[idx := v])
  {
    hide Word, LsbBits;
  }

  lemma RootKeepsLinks(lookup: seq<int>, tree: seq<int>, at: map<seq<bool>, nat>, p: seq<bool>, idx: nat)
    requires Linked(lookup, tree, at) && p !in at && |p| == 10 && idx == LsbValue(p) < 1024
    requires |at[p := |at|]| == |at| + 1 <= 287
    ensures Linked(lookup[idx := Link(|at|)], tree, at[p := |at|])
  {
    hide LsbValue, HasSlot, Link;
    var at', lookup' := at[p := |at|], lookup[idx := Link(|at|)];
    forall q | q in at' && |q| == 10 ensures HasLookup(lookup', q, Link(at'[q])) {
      if q != p {
        assert HasLookup(lookup, q, Link(at[q]));
        if LsbValue(q) == idx { LsbRoundTrip(p); LsbRoundTrip(q); }
      }
    }
    forall q | q in at' && |q| > 10 ensures HasSlot(tree, at', q, Link(at'[q])) {
      HasSlotMore(tree, at, p, |at|, q, Link(at[q]));
    }
  }

  lemma RootKeepsStray(sizes: seq<nat>, n: nat, lookup: seq<int>, tree: seq<int>, at: map<seq<bool>, nat>,
                       p: seq<bool>, idx: nat)
    requires NoStray(sizes, n, n + 1, lookup, tree, at) && Linked(lookup, tree, at)
    requires p !in at && Inner(sizes, n + 1, p) && idx < 1024 && LsbBits(idx, 10) == p
    requires |at[p := |at|]| == |at| + 1 <= 287
    ensures NoStray(sizes, n, n + 1, lookup[idx := Link(|at|)], tree, at[p := |at|])
  {
    hide Inner, ShortAt, LsbBits;
    NewNodeVacant(sizes, n, lookup, tree, tree, at, p);
  }

  /** After node `p` is added, slots without links stay so; the new pair is empty. */
  lemma NewNodeVacant(sizes: seq<nat>, n: nat, lookup: seq<int>, tree: seq<int>, tree': seq<int>,
                      at: map<seq<bool>, nat>, p: seq<bool>)
    requires NoStray(sizes, n, n + 1, lookup, tree, at) && Linked(lookup, tree, at)
    requires p !in at && |at| + 1 <= 287
    requires |tree'| == 576 && tree'[2 * |at|] == tree'[2 * |at| + 1] == 0
    requires forall q, b :: q in at && q + [b] != p ==> tree'[2 * at[q] + Bit(b)] == tree[2 * at[q] + Bit(b)]
    ensures forall q, b :: q in at[p := |at|] && q + [b] !in at[p := |at|] ==>
      Vacant(sizes, n, tree', at[p := |at|], q, b)
  {
    hide Inner, ShortAt, LsbBits, Word, HasLookup, HasSlot, Linked, Vacant;
    var at' := at[p := |at|];
    forall q, b | q in at' && q + [b] !in at' ensures Vacant(sizes, n, tree', at', q, b) {
      if q != p {
        assert Vacant(sizes, n, tree, at, q, b);
        OldVacant(sizes, n, tree, tree', at, p, q, b);
      } else {
        FreshVacant(sizes, n, tree', at, p, b);
      }
    }
  }

  lemma OldVacant(sizes: seq<nat>, n: nat, tree: seq<int>, tree': seq<int>, at: map<seq<bool>, nat>, p: seq<bool>,
                  q: seq<bool>, b: bool)
    requires Vacant(sizes, n, tree, at, q, b) && p !in at && |tree'| == |tree|
    requires tree'[2 * at[q] + Bit(b)] == tree[2 * at[q] + Bit(b)]
    ensures Vacant(sizes, n, tree', at[p := |at|], q, b)
  {
    hide Word;
  }

  lemma FreshVacant(sizes: seq<nat>, n: nat, tree': seq<int>, at: map<seq<bool>, nat>, p: seq<bool>, b: bool)
    requires |tree'| == 576 && |at| < 287 && tree'[2 * |at|] == tree'[2 * |at| + 1] == 0
    ensures Vacant(sizes, n, tree', at[p := |at|], p, b)
  {
    hide Word;
  }

  /** The slot index for the next bit below the node of `Word(sizes, n)[..d]`. */
  ghost function SlotOf(at: map<seq<bool>, nat>, w: seq<bool>, d: nat): nat
    requires d < |w| && w[..d] in at
  {
    2 * at[w[..d]] + Bit(w[d])
  }

  lemma SlotInRange(lookup: seq<int>, tree: seq<int>, at: map<seq<bool>, nat>, w: seq<bool>, d: nat)
    requires Linked(lookup, tree, at) && d < |w| && w[..d] in at
    ensures SlotOf(at, w, d) < 2 * |at| <= 576 && |tree| == 576
  {
  }

  lemma ChildSlot(sizes: seq<nat>, n: nat, lookup: seq<int>, tree: seq<int>, at: map<seq<bool>, nat>, d: nat)
    requires Lengths(sizes) && Fits(sizes) && n < |sizes| && 10 <= d && d + 1 < sizes[n]
    requires Holds(sizes, n, n + 1, lookup, tree, at) && Word(sizes, n)[..d] in at
    ensures var w := Word(sizes, n); var j := SlotOf(at, w, d);
      && j < |tree| && (tree[j] == 0 ==> w[..d + 1] !in at)
      && (tree[j] != 0 ==> w[..d + 1] in at && tree[j] == Link(at[w[..d + 1]]))
  {
    hide Word, LsbBits, LsbValue, Fits, Lengths, Inner, LongPlaced, ShortPlaced, ShortAt, HasSlot, Vacant, Linked,
      NoStray, SlotOf;
    var w := Word(sizes, n);
    var c := w[..d + 1];
    assert c == w[..d] + [w[d]];
    SlotInRange(lookup, tree, at, w, d);
    if c in at {
      LinkAt(lookup, tree, at, w, d);
    } else {
      var v := VacantAt(sizes, n, lookup, tree, at, w, d);
      if v > 0 {
        PrefixFree(sizes, v, n);
      }
    }
  }

  lemma LinkAt(lookup: seq<int>, tree: seq<int>, at: map<seq<bool>, nat>, w: seq<bool>, d: nat)
    requires Linked(lookup, tree, at) && 10 <= d < |w| && w[..d + 1] in at
    ensures w[..d] in at && SlotOf(at, w, d) < |tree| && tree[SlotOf(at, w, d)] == Link(at[w[..d + 1]])
  {
    hide HasLookup, Linked;
    var c := w[..d + 1];
    LinkedSlot(lookup, tree, at, c);
    assert c[..d] == w[..d];
  }

  lemma LinkedSlot(lookup: seq<int>, tree: seq<int>, at: map<seq<bool>, nat>, c: seq<bool>)
    requires Linked(lookup, tree, at) && c in at && |c| > 10
    ensures HasSlot(tree, at, c, Link(at[c]))
  {
    hide HasLookup, HasSlot;
  }

  lemma VacantAt(sizes: seq<nat>, n: nat, lookup: seq<int>, tree: seq<int>, at: map<seq<bool>, nat>, w: seq<bool>,
                 d: nat)
    returns (v: nat)
    requires NoStray(sizes, n, n + 1, lookup, tree, at) && d < |w| && w[..d] in at && w[..d + 1] !in at
    ensures SlotOf(at, w, d) < |tree| && v == tree[SlotOf(at, w, d)]
    ensures v > 0 ==> v < n && Word(sizes, v) == w[..d + 1]
  {
    hide Word, Inner, ShortAt, LsbBits;
    assert w[..d + 1] == w[..d] + [w[d]];
    assert Vacant(sizes, n, tree, at, w[..d], w[d]);
    v := tree[SlotOf(at, w, d)];
  }

  lemma AddChild(sizes: seq<nat>, n: nat, lookup: seq<int>, tree: seq<int>, at: map<seq<bool>, nat>, d: nat)
    requires Accepted(sizes) && Lengths(sizes) && Fits(sizes) && n < |sizes| && 10 <= d && d + 1 < sizes[n] <= 15
    requires Holds(sizes, n, n + 1, lookup, tree, at) && Word(sizes, n)[..d] in at
    requires Word(sizes, n)[..d + 1] !in at
    requires SlotOf(at, Word(sizes, n), d) < |tree|
    ensures Holds(sizes, n, n + 1, lookup,
                  tree[SlotOf(at, Word(sizes, n), d) := Link(|at|)], at[Word(sizes, n)[..d + 1] := |at|])
  {
    hide Word, LsbBits, LsbValue, Fits, Lengths, HasSlot, Inner, LongPlaced, Vacant, ShortPlaced, Linked, NoStray,
      Accepted, SlotOf;
    var w := Word(sizes, n);
    var c, j := w[..d + 1], SlotOf(at, w, d);
    InnerIntro(sizes, n, d + 1);
    StrayInner(sizes, n, n + 1, lookup, tree, at);
    BudgetAfter(sizes, n + 1, at, c);
    SlotInRange(lookup, tree, at, w, d);
    ChildKeepsLinks(lookup, tree, at, w, d, Link(|at|), c);
    ChildKeepsLong(sizes, n, lookup, tree, at, w, d, Link(|at|));
    LongMore(sizes, n, tree[j := Link(|at|)], at, c, |at|);
    ChildKeepsStray(sizes, n, lookup, tree, at, w, d);
  }

  /** Writing the slot of a string leaves the slot of every other string alone. */
  lemma OtherSlot(lookup: seq<int>, tree: seq<int>, at: map<seq<bool>, nat>, w: seq<bool>, d: nat, x: int,
                  q: seq<bool>, v: int)
    requires Linked(lookup, tree, at) && d < |w| && w[..d] in at && SlotOf(at, w, d) < |tree|
    requires HasSlot(tree, at, q, v) && q != w[..d + 1]
    ensures HasSlot(tree[SlotOf(at, w, d) := x], at, q, v)
  {
    hide HasLookup, Linked;
    var r, b := q[..|q| - 1], q[|q| - 1];
    assert q == r + [b] && w[..d + 1] == w[..d] + [w[d]];
    if 2 * at[r] + Bit(b) == SlotOf(at, w, d) {
      SlotInjective(tree, lookup, at, r, b, w[..d], w[d]);
    }
  }

  lemma ChildKeepsLinks(lookup: seq<int>, tree: seq<int>, at: map<seq<bool>, nat>, w: seq<bool>, d: nat, x: int,
                        c: seq<bool>)
    requires Linked(lookup, tree, at) && 10 <= d && d < |w| && w[..d] in at && SlotOf(at, w, d) < |tree|
    requires c == w[..d + 1] && c !in at && x == Link(|at|) && |c| <= 14
    requires |at[c := |at|]| == |at| + 1 <= 287
    ensures Linked(lookup, tree[SlotOf(at, w, d) := x], at[c := |at|])
  {
    hide LsbValue, HasSlot, Link, HasLookup, SlotOf;
    var at', tree' := at[c := |at|], tree[SlotOf(at, w, d) := x];
    forall q | q in at' && |q| > 10 ensures HasSlot(tree', at', q, Link(at'[q])) {
      if q == c {
        NewSlot(tree, at, w, d, x);
      } else {
        OtherSlot(lookup, tree, at, w, d, x, q, Link(at[q]));
        HasSlotMore(tree', at, c, |at|, q, Link(at[q]));
      }
    }
  }

  lemma NewSlot(tree: seq<int>, at: map<seq<bool>, nat>, w: seq<bool>, d: nat, x: int)
    requires d < |w| && w[..d] in at && SlotOf(at, w, d) < |tree|
    ensures w[..d + 1] !in at ==> HasSlot(tree[SlotOf(at, w, d) := x], at[w[..d + 1] := |at|], w[..d + 1], x)
    ensures HasSlot(tree[SlotOf(at, w, d) := x], at, w[..d + 1], x)
  {
    assert w[..d + 1][..d] == w[..d];
  }

  lemma ChildKeepsLong(sizes: seq<nat>, n: nat, lookup: seq<int>, tree: seq<int>, at: map<seq<bool>, nat>,
                       w: seq<bool>, d: nat, x: int)
    requires Lengths(sizes) && Fits(sizes) && n < |sizes| && w == Word(sizes, n) && 10 <= d < sizes[n]
    requires Linked(lookup, tree, at) && LongPlaced(sizes, n, tree, at)
    requires w[..d] in at && SlotOf(at, w, d) < |tree|
    ensures LongPlaced(sizes, n, tree[SlotOf(at, w, d) := x], at)
  {
    hide Word, HasSlot, Linked, SlotOf, Fits, Lengths;
    forall s | 0 <= s < n && sizes[s] > 10 ensures HasSlot(tree[SlotOf(at, w, d) := x], at, Word(sizes, s), s) {
      assert HasSlot(tree, at, Word(sizes, s), s);
      PrefixFree(sizes, s, n);
      assert Word(sizes, s) != w[..d + 1];
      OtherSlot(lookup, tree, at, w, d, x, Word(sizes, s), s);
    }
  }

  lemma ChildKeepsStray(sizes: seq<nat>, n: nat, lookup: seq<int>, tree: seq<int>, at: map<seq<bool>, nat>,
                        w: seq<bool>, d: nat)
    requires NoStray(sizes, n, n + 1, lookup, tree, at) && Linked(lookup, tree, at)
    requires d < |w| && w[..d] in at && SlotOf(at, w, d) < 2 * |at| && w[..d + 1] !in at
      && Inner(sizes, n + 1, w[..d + 1])
    requires |at[w[..d + 1] := |at|]| == |at| + 1 <= 287
    ensures NoStray(sizes, n, n + 1, lookup, tree[SlotOf(at, w, d) := Link(|at|)], at[w[..d + 1] := |at|])
  {
    hide Inner, ShortAt, LsbBits, Vacant, HasLookup, HasSlot;
    var c, tree' := w[..d + 1], tree[SlotOf(at, w, d) := Link(|at|)];
    assert c == w[..d] + [w[d]];
    forall q, b | q in at && q + [b] != c ensures tree'[2 * at[q] + Bit(b)] == tree[2 * at[q] + Bit(b)] {
      if 2 * at[q] + Bit(b) == SlotOf(at, w, d) {
        SlotInjective(tree, lookup, at, q, b, w[..d], w[d]);
      }
    }
    NewNodeVacant(sizes, n, lookup, tree, tree', at, c);
  }

  /** The symbol of a long code goes in its slot. */
  lemma PlaceLong(sizes: seq<nat>, n: nat, lookup: seq<int>, tree: seq<int>, at: map<seq<bool>, nat>)
    requires Lengths(sizes) && Fits(sizes) && n < |sizes| && sizes[n] > 10
    requires Holds(sizes, n, n + 1, lookup, tree, at)
    requires forall d :: 10 <= d < sizes[n] ==> Word(sizes, n)[..d] in at
    requires SlotOf(at, Word(sizes, n), sizes[n] - 1) < |tree|
    ensures Holds(sizes, n + 1, n + 1, lookup, tree[SlotOf(at, Word(sizes, n), sizes[n] - 1) := n], at)
  {
    hide Word, LsbBits, LsbValue, Fits, Lengths, HasSlot, Inner, Vacant, Linked, NoStray, SlotOf;
    var w, d := Word(sizes, n), sizes[n] - 1;
    var j := SlotOf(at, w, d);
    assert w[..d + 1] == w;
    StrayInner(sizes, n, n + 1, lookup, tree, at);
    assert w !in at by {
      if w in at { NodeClear(sizes, n + 1, w, n); }
    }
    SymbolKeepsLinks(lookup, tree, at, w, d, n);
    ChildKeepsLong(sizes, n, lookup, tree, at, w, d, n);
    NewSlot(tree, at, w, d, n);
    assert LongPlaced(sizes, n, tree[j := n], at);
    assert LongPlaced(sizes, n + 1, tree[j := n], at);
    SymbolKeepsStray(sizes, n, lookup, tree, at, w, d);
  }

  lemma SymbolKeepsLinks(lookup: seq<int>, tree: seq<int>, at: map<seq<bool>, nat>, w: seq<bool>, d: nat, x: int)
    requires Linked(lookup, tree, at) && d < |w| && w[..d] in at && SlotOf(at, w, d) < |tree| && w[..d + 1] !in at
    ensures Linked(lookup, tree[SlotOf(at, w, d) := x], at)
  {
    hide LsbValue, HasSlot, Link, HasLookup, SlotOf;
    forall q | q in at && |q| > 10 ensures HasSlot(tree[SlotOf(at, w, d) := x], at, q, Link(at[q])) {
      OtherSlot(lookup, tree, at, w, d, x, q, Link(at[q]));
    }
  }

  lemma SymbolKeepsStray(sizes: seq<nat>, n: nat, lookup: seq<int>, tree: seq<int>, at: map<seq<bool>, nat>,
                         w: seq<bool>, d: nat)
    requires NoStray(sizes, n, n + 1, lookup, tree, at) && Linked(lookup, tree, at)
    requires w == Word(sizes, n) && d + 1 == |w| && w[..d] in at
    ensures SlotOf(at, w, d) < 576 && NoStray(sizes, n + 1, n + 1, lookup, tree[SlotOf(at, w, d) := n], at)
  {
    hide Word, LsbBits, Inner, ShortAt, HasLookup, HasSlot;
    var tree' := tree[SlotOf(at, w, d) := n];
    assert w == w[..d] + [w[d]];
    forall r | 0 <= r < 1024 && lookup[r] > 0 ensures ShortAt(sizes, n + 1, LsbBits(r, 10)) {
      ShortMore(sizes, n, LsbBits(r, 10));
    }
    forall q, b | q in at && q + [b] !in at ensures Vacant(sizes, n + 1, tree', at, q, b) {
      assert Vacant(sizes, n, tree, at, q, b);
      if 2 * at[q] + Bit(b) == SlotOf(at, w, d) {
        SlotInjective(tree, lookup, at, q, b, w[..d], w[d]);
      }
    }
  }

  lemma LowTen(x: nat, n: nat)
    requires n >= 10
    ensures LsbValue(LsbBits(x, n)[..10]) == x % 1024 && Shift(x, 9) == x / 512
  {
    hide LsbBits, LsbValue, Pow2;
    Pow2Table();
    LsbPrefix(x, n, 10);
    LsbAddHigh(x % 1024, 10, x / 1024);
    LsbBitsValue(x % 1024, 10);
    assert Shift(x, 9) == Shift(x / 2 / 2 / 2, 6) == Shift(x / 2 / 2 / 2 / 2 / 2 / 2, 3);
  }

  lemma {:induction false} ShiftNext(x: nat, k: nat)
    ensures Shift(x, k + 1) == Shift(x, k) / 2
    decreases k
  {
    if k > 0 { ShiftNext(x / 2, k - 1); }
  }

  /** Nodes exist for the prefixes of `w` of 10 to `d` bits. */
  ghost predicate Reached(at: map<seq<bool>, nat>, w: seq<bool>, d: nat) {
    10 <= d <= |w| && forall e :: 10 <= e <= d ==> w[..e] in at
  }

  /** Follows or makes the nodes of a code of more than 10 bits and writes its symbol. */
  method InsertLong(lookup: array<int>, tree: array<int>, rev: nat, size: nat, sym: nat, treeNext: int,
                    ghost sizes: seq<nat>, ghost at: map<seq<bool>, nat>)
    returns (treeNext': int, ghost at': map<seq<bool>, nat>)
    requires lookup != tree && lookup.Length == 1024 && tree.Length == 576
    requires Accepted(sizes) && Lengths(sizes) && Fits(sizes) && sym < |sizes| && 10 < size == sizes[sym] <= 15
    requires Holds(sizes, sym, sym, lookup[..], tree[..], at) && treeNext == Link(|at|)
    requires LsbBits(rev, size) == Word(sizes, sym)
    modifies lookup, tree
    ensures Holds(sizes, sym + 1, sym + 1, lookup[..], tree[..], at') && treeNext' == Link(|at'|)
  {
    hide Word, LsbBits, LsbValue, Fits, Lengths, Accepted, Holds, Shift, Pow2;
    ghost var w := Word(sizes, sym);
    at', treeNext' := at, treeNext;
    OpenNext(sizes, sym, lookup[..], tree[..], at);
    LowTen(rev, size);
    var idx := rev % 1024;
    RootSlot(sizes, sym, lookup[..], tree[..], at, idx);
    var treeCur := lookup[idx];
    if treeCur == 0 {
      AddRoot(sizes, sym, lookup[..], tree[..], at, idx);
      lookup[idx] := treeNext';
      at' := at'[w[..10] := |at'|];
      treeCur := treeNext';
      treeNext' := treeNext' - 2;
    }
    var rc := rev / 512;
    var j := size;
    while j > 11
      invariant 11 <= j <= size && Reached(at', w, 10 + size - j)
      invariant Holds(sizes, sym, sym + 1, lookup[..], tree[..], at') && treeNext' == Link(|at'|)
      invariant treeCur == Link(at'[w[..10 + size - j]]) && rc == Shift(rev, 9 + size - j)
    {
      ghost var d := 10 + size - j;
      rc, treeCur := Step(rc, treeCur, rev, size, d, w, at');
      ChildSlot(sizes, sym, lookup[..], tree[..], at', d);
      if tree[-treeCur - 1] == 0 {
        AddChild(sizes, sym, lookup[..], tree[..], at', d);
        tree[-treeCur - 1] := treeNext';
        at' := at'[w[..d + 1] := |at'|];
        treeCur := treeNext';
        treeNext' := treeNext' - 2;
      } else {
        treeCur := tree[-treeCur - 1];
      }
      j := j - 1;
    }
    rc, treeCur := Step(rc, treeCur, rev, size, size - 1, w, at');
    LastSlot(sizes, sym, lookup[..], tree[..], at');
    PlaceLong(sizes, sym, lookup[..], tree[..], at');
    tree[-treeCur - 1] := sym;
  }

  lemma LastSlot(sizes: seq<nat>, n: nat, lookup: seq<int>, tree: seq<int>, at: map<seq<bool>, nat>)
    requires n < |sizes| && sizes[n] > 10 && Holds(sizes, n, n + 1, lookup, tree, at)
    requires Word(sizes, n)[..sizes[n] - 1] in at
    ensures SlotOf(at, Word(sizes, n), sizes[n] - 1) < |tree|
  {
    hide Word, ShortPlaced, LongPlaced, NoStray;
    SlotInRange(lookup, tree, at, Word(sizes, n), sizes[n] - 1);
  }

  /** One more bit of the code moves from the node to one of its two slots. */
  method Step(rc: nat, treeCur: int, ghost rev: nat, ghost size: nat, ghost d: nat, ghost w: seq<bool>,
              ghost at: map<seq<bool>, nat>)
    returns (rc': nat, treeCur': int)
    requires 10 <= d < size == |w| && w[..d] in at && treeCur == Link(at[w[..d]])
    requires LsbBits(rev, size) == w && rc == Shift(rev, d - 1)
    ensures rc' == Shift(rev, d) && -treeCur' - 1 == SlotOf(at, w, d)
  {
    hide LsbBits, Shift;
    rc' := rc / 2;
    treeCur' := treeCur - rc' % 2;
    ShiftNext(rev, d - 1);
    LsbBitAt(rev, size, d);
  }

  // ---- Building the tables.

  /** Counts the symbols of each length. */
  method CountSizes(sizes: seq<nat>) returns (totalSyms: array<nat>)
    requires Lengths(sizes)
    ensures totalSyms.Length == 16 && fresh(totalSyms)
    ensures forall len :: 0 <= len <= 15 ==> totalSyms[len] == Count(sizes, len)
  {
    totalSyms := new nat[16](_ => 0);
    var i := 0;
    while i < |sizes|
      invariant 0 <= i <= |sizes|
      invariant forall len :: 0 <= len <= 15 ==> totalSyms[len] == Count(sizes[..i], len)
    {
      forall len | 0 <= len <= 15
        ensures Count(sizes[..i + 1], len)
          == Count(sizes[..i], len) + (if sizes[i] == len then 1 else 0)
      {
        CountNext(sizes, i, len);
      }
      totalSyms[sizes[i]] := totalSyms[sizes[i]] + 1;
      i := i + 1;
    }
    assert sizes[..|sizes|] == sizes;
  }

  /** The first code of each length, the number of coded symbols, and the fullness of the code. */
  method FirstCodes(sizes: seq<nat>, totalSyms: array<nat>) returns (nextCode: array<nat>, used: nat, total: nat)
    requires totalSyms.Length == 16
    requires forall len :: 0 <= len <= 15 ==> totalSyms[len] == Count(sizes, len)
    ensures nextCode.Length == 17 && fresh(nextCode)
    ensures forall len :: 1 <= len <= 16 ==> nextCode[len] == First(sizes, len)
    ensures used == Used(sizes, 15) && total == First(sizes, 16)
  {
    hide Count;
    nextCode := new nat[17](_ => 0);
    used, total := 0, 0;
    var i := 1;
    while i <= 15
      invariant 1 <= i <= 16 && nextCode.Length == 17
      invariant used == Used(sizes, i - 1) && total == First(sizes, i)
      invariant forall len :: 1 <= len <= i ==> nextCode[len] == First(sizes, len)
    {
      used := used + totalSyms[i];
      total := (total + totalSyms[i]) * 2;
      nextCode[i + 1] := total;
      i := i + 1;
    }
  }

  lemma SkipUncoded(sizes: seq<nat>, n: nat, lookup: seq<int>, tree: seq<int>, at: map<seq<bool>, nat>)
    requires n < |sizes| && sizes[n] == 0 && Holds(sizes, n, n, lookup, tree, at)
    ensures Holds(sizes, n + 1, n + 1, lookup, tree, at)
  {
    hide Word, LsbBits, Inner, ShortAt, Vacant, Linked, HasSlot;
    forall p | p in at ensures Inner(sizes, n + 1, p) { InnerMore(sizes, n, p); }
    forall r | 0 <= r < 1024 && lookup[r] > 0 ensures ShortAt(sizes, n + 1, LsbBits(r, 10)) {
      ShortMore(sizes, n, LsbBits(r, 10));
    }
    forall p, b | p in at && p + [b] !in at ensures Vacant(sizes, n + 1, tree, at, p, b) {
      VacantMore(sizes, n, tree, at, p, b);
    }
  }

  /** `nextCode` while the first `n` symbols have been given codes. */
  ghost predicate Assigned(sizes: seq<nat>, n: nat, nextCode: seq<nat>) {
    |nextCode| == 17 && n <= |sizes| &&
    forall len :: 1 <= len <= 15 ==> nextCode[len] == First(sizes, len) + Count(sizes[..n], len)
  }

  lemma AssignedNext(sizes: seq<nat>, n: nat, nextCode: seq<nat>)
    requires Lengths(sizes) && n < |sizes| && Assigned(sizes, n, nextCode)
    ensures sizes[n] == 0 ==> Assigned(sizes, n + 1, nextCode)
    ensures sizes[n] > 0 ==> nextCode[sizes[n]] == Code(sizes, n)
    ensures sizes[n] > 0 ==> Assigned(sizes, n + 1, nextCode[sizes[n] := nextCode[sizes[n]] + 1])
  {
    hide First, Count;
    forall len | 1 <= len <= 15
      ensures Count(sizes[..n + 1], len)
        == Count(sizes[..n], len) + (if sizes[n] == len then 1 else 0)
    {
      CountNext(sizes, n, len);
    }
  }

  lemma AssignedStart(sizes: seq<nat>, nextCode: seq<nat>)
    requires |nextCode| == 17 && forall len :: 1 <= len <= 16 ==> nextCode[len] == First(sizes, len)
    ensures Assigned(sizes, 0, nextCode)
  {
    hide First;
  }

  /** The tables hold the whole code. */
  ghost predicate Built(sizes: seq<nat>, lookup: seq<int>, tree: seq<int>) {
    Accepted(sizes) && Fits(sizes) && exists at :: Holds(sizes, |sizes|, |sizes|, lookup, tree, at)
  }

  method PlaceAll(sizes: seq<nat>, nextCode: array<nat>, lookup: array<int>, tree: array<int>)
    requires Accepted(sizes) && nextCode.Length == 17 && Assigned(sizes, 0, nextCode[..])
    requires lookup != tree && lookup.Length == 1024 && tree.Length == 576
    requires Holds(sizes, 0, 0, lookup[..], tree[..], map[])
    modifies nextCode, lookup, tree
    ensures Built(sizes, lookup[..], tree[..])
  {
    hide LsbBits, MsbBits, Fits, Accepted, Holds, Pow2, First, Count, Assigned;
    AcceptedFits(sizes);
    assert Lengths(sizes) by { AcceptedLengths(sizes); }
    ghost var at := map[];
    var treeNext, sym := -1, 0;
    while sym < |sizes|
      invariant 0 <= sym <= |sizes| && nextCode.Length == 17 && Assigned(sizes, sym, nextCode[..])
      invariant Holds(sizes, sym, sym, lookup[..], tree[..], at) && treeNext == Link(|at|)
    {
      var size := sizes[sym];
      AssignedNext(sizes, sym, nextCode[..]);
      if size == 0 {
        SkipUncoded(sizes, sym, lookup[..], tree[..], at);
      } else {
        CodeFits(sizes, sym);
        var code := nextCode[size];
        nextCode[size] := code + 1;
        var rev := ReverseBits(code, size);
        if size <= 10 {
          ghost var before := lookup[..];
          Stamp(lookup, rev, size, size * 512 + sym, Word(sizes, sym));
          PlaceShort(sizes, sym, before, lookup[..], tree[..], at);
        } else {
          treeNext, at := InsertLong(lookup, tree, rev, size, sym, treeNext, sizes, at);
        }
      }
      sym := sym + 1;
    }
  }

  lemma AcceptedLengths(sizes: seq<nat>)
    requires Accepted(sizes)
    ensures Lengths(sizes)
  {
  }

  /** The decoder's tables for `sizes`, or refusal. */
  method BuildTables(sizes: seq<nat>) returns (ok: bool, lookup: array<int>, tree: array<int>)
    requires Lengths(sizes)
    ensures ok <==> Accepted(sizes)
    ensures lookup.Length == 1024 && tree.Length == 576
    ensures ok ==> Built(sizes, lookup[..], tree[..])
  {
    hide Word, LsbBits, Fits, Holds, Pow2, First, Count, Used;
    lookup := new int[1024](_ => 0);
    tree := new int[576](_ => 0);
    var totalSyms := CountSizes(sizes);
    var nextCode, used, total := FirstCodes(sizes, totalSyms);
    if total != 65536 && used > 1 {
      return false, lookup, tree;
    }
    AssignedStart(sizes, nextCode[..]);
    HoldsNothing(sizes, lookup[..], tree[..]);
    PlaceAll(sizes, nextCode, lookup, tree);
    return true, lookup, tree;
  }

  // ---- Decoding.

  datatype Decoded = Symbol(sym: int, len: nat) | Stuck

  /** Follows links from `link`, met at depth `d`, to a symbol. */
  function Walk(tree: seq<int>, link: int, bits: seq<bool>, d: nat): Decoded
    decreases |bits| - d
  {
    if link >= 0 then Symbol(link, d)
    else if d >= |bits| then Stuck
    else
      var j := -link - 1 + Bit(bits[d]);
      if j < |tree| then Walk(tree, tree[j], bits, d + 1) else Stuck
  }

  /** The next ten bits as an index; missing bits read as zero. */
  function LookupIndex(bits: seq<bool>): nat {
    if |bits| >= 10 then LsbValue(bits[..10]) else LsbValue(bits)
  }

  /** Decodes the symbol at the start of `bits`. */
  function Decode(lookup: seq<int>, tree: seq<int>, bits: seq<bool>): Decoded {
    var idx := LookupIndex(bits);
    if idx >= |lookup| then Stuck
    else
      var v := lookup[idx];
      if v >= 0 then Symbol(v % 512, v / 512) else Walk(tree, v, bits, 10)
  }

  /** Bits missing from a short string do not change which words it starts with. */
  lemma {:induction false} PaddedIndex(bits: seq<bool>, n: nat)
    requires |bits| <= n
    ensures LsbBits(LsbValue(bits), n)[..|bits|] == bits && LsbValue(bits) < Pow2(n)
  {
    hide LsbBits, LsbValue, Pow2;
    LsbRoundTrip(bits);
    LsbPrefix(LsbValue(bits), n, |bits|);
    LsbValueBound(bits);
    Pow2Mono(|bits|, n);
  }

  lemma IndexPrefix(bits: seq<bool>)
    ensures LookupIndex(bits) < 1024
    ensures |bits| >= 10 ==> LsbBits(LookupIndex(bits), 10) == bits[..10]
    ensures |bits| < 10 ==> LsbBits(LookupIndex(bits), 10)[..|bits|] == bits
  {
    hide LsbBits, LsbValue, Pow2;
    Pow2Table();
    if |bits| >= 10 { PaddedIndex(bits[..10], 10); } else { PaddedIndex(bits, 10); }
  }

  lemma ShortDecodes(sizes: seq<nat>, lookup: seq<int>, s: nat, bits: seq<bool>)
    requires ShortPlaced(sizes, |sizes|, lookup) && |sizes| <= 288 && s < |sizes| && 1 <= sizes[s] <= 10
    requires Word(sizes, s) <= bits
    ensures LookupIndex(bits) < |lookup| && lookup[LookupIndex(bits)] == sizes[s] * 512 + s
  {
    hide Word, LsbBits, LookupIndex;
    IndexPrefix(bits);
  }

  /** From the node of the first `d` bits of word `s`, the walk ends in `s`. */
  lemma {:induction false} WalkDecodes(sizes: seq<nat>, lookup: seq<int>, tree: seq<int>, at: map<seq<bool>, nat>,
                                       s: nat, bits: seq<bool>, d: nat)
    requires Linked(lookup, tree, at) && LongPlaced(sizes, |sizes|, tree, at)
    requires s < |sizes| && Word(sizes, s) <= bits && 10 <= d < sizes[s]
    ensures Word(sizes, s)[..d] in at
    ensures Walk(tree, Link(at[Word(sizes, s)[..d]]), bits, d) == Symbol(s, sizes[s])
    decreases sizes[s] - d
  {
    hide Word, Linked, HasSlot;
    var w := Word(sizes, s);
    assert w[..d] in at;
    assert bits[d] == w[d];
    SlotInRange(lookup, tree, at, w, d);
    if d + 1 < sizes[s] {
      WalkDecodes(sizes, lookup, tree, at, s, bits, d + 1);
      LinkAt(lookup, tree, at, w, d);
    } else {
      assert HasSlot(tree, at, w, s);
      SymbolAt(tree, at, w, s);
    }
  }

  lemma SymbolAt(tree: seq<int>, at: map<seq<bool>, nat>, w: seq<bool>, v: int)
    requires HasSlot(tree, at, w, v)
    ensures |w| > 0 && w[..|w| - 1] in at && SlotOf(at, w, |w| - 1) < |tree| && tree[SlotOf(at, w, |w| - 1)] == v
  {
  }

  /** Decoding the code of `s`, followed by anything, gives `s` and its length. */
  lemma DecodesWord(sizes: seq<nat>, lookup: seq<int>, tree: seq<int>, s: nat, bits: seq<bool>)
    requires Built(sizes, lookup, tree) && s < |sizes| && sizes[s] > 0 && Word(sizes, s) <= bits
    ensures Decode(lookup, tree, bits) == Symbol(s, sizes[s])
  {
    hide Word, LsbBits, LookupIndex, Fits, Linked, LongPlaced, ShortPlaced, NoStray, Walk;
    var at :| Holds(sizes, |sizes|, |sizes|, lookup, tree, at);
    IndexPrefix(bits);
    if sizes[s] <= 10 {
      ShortDecodes(sizes, lookup, s, bits);
    } else {
      WalkDecodes(sizes, lookup, tree, at, s, bits, 10);
      RootLink(sizes, lookup, tree, at, Word(sizes, s)[..10], bits);
    }
  }

  lemma RootLink(sizes: seq<nat>, lookup: seq<int>, tree: seq<int>, at: map<seq<bool>, nat>, p: seq<bool>,
                 bits: seq<bool>)
    requires Linked(lookup, tree, at) && p in at && |p| == 10 && p <= bits
    ensures |lookup| == 1024 && LookupIndex(bits) < 1024 && lookup[LookupIndex(bits)] == Link(at[p])
  {
    hide LsbValue, HasSlot;
    assert bits[..10] == p;
    assert HasLookup(lookup, p, Link(at[p]));
  }

  /** With a complete code, any 15 or more bits decode, to the one symbol whose code they start with. */
  lemma DecodesAnything(sizes: seq<nat>, lookup: seq<int>, tree: seq<int>, bits: seq<bool>) returns (s: nat)
    requires Built(sizes, lookup, tree) && Complete(sizes) && |bits| >= 15
    ensures s < |sizes| && sizes[s] > 0 && Word(sizes, s) <= bits
    ensures Decode(lookup, tree, bits) == Symbol(s, sizes[s])
  {
    hide Word, Holds, Fits, Decode, First;
    s := SomeWord(sizes, bits[..15]);
    assert bits == bits[..15] + bits[15..];
    DecodesWord(sizes, lookup, tree, s, bits);
  }
}
