/** What the search along the chains can miss: nothing before the probes run out, but for positions
    beyond one whose number ends in sixteen zero bits. */
module ChainSearch {
  import opened Values
  import opened LzCodes
  import opened MatchFinder
  import opened HashChains

  /** The links are those of the positions from `from` to `end`, which include all in reach. */
  ghost predicate Linked(q: Query, t: Chains, from: nat, end: int) {
    && q.Valid() && t.Valid() && from + q.maxDist <= q.p < end && end + q.maxDist <= q.p + DICT_SIZE
    && end + 2 <= |q.h| && q.next == Entered(t, q.h, from, end).next
  }

  /** A position in reach with the hash of the one searched at. */
  ghost predicate Alike(q: Query, x: int) {
    q.maxDist <= q.p && q.p - q.maxDist <= x < q.p && q.p + 3 <= |q.h| && HashAt(q.h, x) == HashAt(q.h, q.p)
  }

  /** A link to a position that ends in sixteen zero bits is taken for the end of the chain. */
  ghost predicate Blind(x: int) {
    x % 0x10000 == 0
  }

  /** The walk has come to `x` after `k` links. */
  ghost predicate Came(q: Query, k: nat, x: int)
    requires q.Valid()
  {
    && 0 <= x && q.At(k) == x % DICT_SIZE && (x == q.p || Alike(q, x)) && q.p + 3 <= |q.h|
    && (k >= 1 ==> q.Back(k) == q.p - x >= 1 && q.Goes(k))
  }

  lemma BackIs(q: Query, x: int)
    requires q.Valid() && 0 <= x <= q.p < x + 0x10000
    ensures Dist16(q.lookaheadPos, x % 0x10000) == q.p - x && x % 0x10000 % DICT_SIZE == x % DICT_SIZE
  {
    hide Shorts;
    Low16(q.p, x);
  }

  lemma Low16(p: nat, x: nat)
    requires x <= p < x + 0x10000
    ensures (p % 0x1_0000_0000 + 0x10000 - x % 0x10000) % 0x10000 == p - x && x % 0x10000 % DICT_SIZE == x % DICT_SIZE
  {
    var a, b := p / 0x1_0000_0000, x / 0x10000;
    Mod16(p % 0x1_0000_0000 + 0x10000 - x % 0x10000, b + 1 - 0x10000 * a, p - x);
  }

  lemma Mod16(x: int, q: int, r: int)
    requires x == 0x10000 * q + r && 0 <= r < 0x10000
    ensures x % 0x10000 == r
  {
  }

  /** One link on: to the newest earlier position alike, unless that one is not seen. */
  lemma NextAlike(q: Query, t: Chains, from: nat, end: int, k: nat, x: int, y: int)
    requires Linked(q, t, from, end) && Came(q, k, x) && Alike(q, y) && y < x
    ensures var z := Newest(q.h, from, x, HashAt(q.h, q.p));
      && y <= z < x && Alike(q, z) && (if Blind(z) then !q.Goes(k + 1) else Came(q, k + 1, z))
  {
    hide HashAt, Entered;
    var z := Newest(q.h, from, x, HashAt(q.h, q.p));
    assert y <= z < x;
    LinksBack(t, q.h, from, end, x);
    BackIs(q, z);
    Onwards(q, k);
  }

  /** The walk comes to every position alike, as long as none on the way goes unseen. */
  lemma {:induction false} Reached(q: Query, t: Chains, from: nat, end: int, k: nat, x: int, y: int) returns (n: nat)
    requires Linked(q, t, from, end) && Came(q, k, x) && Alike(q, y) && y < x
    requires forall z :: Alike(q, z) && y <= z ==> !Blind(z)
    requires forall j :: 1 <= j <= k ==> q.Goes(j) && q.Back(j) >= 1
    ensures n > k && Came(q, n, y) && forall j :: 1 <= j <= n ==> q.Goes(j) && q.Back(j) >= 1
    decreases x - y
  {
    hide Alike, Linked, Blind, Query.Goes, Query.Back, Query.At, HashAt;
    NextAlike(q, t, from, end, k, x, y);
    var z := Newest(q.h, from, x, HashAt(q.h, q.p));
    if z == y { n := k + 1; } else { n := Reached(q, t, from, end, k + 1, z, y); }
  }

  /** The walk never gets to or past a position that goes unseen. */
  lemma {:induction false} NotPast(q: Query, t: Chains, from: nat, end: int, k: nat, z: int) returns (x: int)
    requires Linked(q, t, from, end) && Alike(q, z) && Blind(z) && forall j :: 1 <= j <= k ==> q.Goes(j)
    ensures z < x && Came(q, k, x)
  {
    hide Query.Goes, Query.Back, HashAt, Newest;
    if k == 0 {
      x := q.p;
    } else {
      var w := NotPast(q, t, from, end, k - 1, z);
      NextAlike(q, t, from, end, k - 1, w, z);
      x := Newest(q.h, from, w, HashAt(q.h, q.p));
    }
  }

  /** The walk comes to `y`. */
  ghost predicate Visits(q: Query, n: nat, y: int)
    requires q.Valid()
  {
    n >= 1 && q.Back(n) == q.p - y && forall j :: 1 <= j <= n ==> q.Goes(j)
  }

  /** A position alike is on the walk exactly when no position alike from it on ends in sixteen zero bits. */
  lemma VisitedIff(q: Query, t: Chains, from: nat, end: int, y: int)
    requires Linked(q, t, from, end) && Alike(q, y)
    ensures (exists n: nat :: Visits(q, n, y)) <==> (forall z :: Alike(q, z) && y <= z ==> !Blind(z))
  {
    hide Query.Goes, Query.Back, HashAt, Alike, Blind;
    if z :| Alike(q, z) && y <= z && Blind(z) {
      forall n: nat ensures !Visits(q, n, y) {
        if Visits(q, n, y) { var x := NotPast(q, t, from, end, n, z); }
      }
    } else {
      StartAlike(q, y);
      var n := Reached(q, t, from, end, 0, q.p, y);
      assert Visits(q, n, y);
    }
  }

  lemma StartAlike(q: Query, y: int)
    requires q.Valid() && Alike(q, y)
    ensures Came(q, 0, q.p) && y < q.p
  {
    hide HashAt;
  }

  /** Three bytes that agree have one hash. */
  lemma AgreeAlike(q: Query, y: int)
    requires q.Valid() && q.p - q.maxDist <= y < q.p && AgreeFrom(q.h, q.p, q.p - y, 0, q.max) >= 3
    ensures Alike(q, y)
  {
    var d := q.p - y;
    assert q.h[q.p] == q.h[q.p - d] && q.h[q.p + 1] == q.h[q.p + 1 - d] && q.h[q.p + 2] == q.h[q.p + 2 - d];
  }

  /** When neither the probes nor the bytes to match run out, no position in reach agrees on more bytes
      than the match found, but for those beyond one that goes unseen. */
  lemma NothingMissed(q: Query, t: Chains, from: nat, end: int, seen: nat, y: int)
    requires Linked(q, t, from, end) && q.start.len >= 2 && q.Ends(seen)
    requires q.Left(seen).rounds != 0 && q.After(seen).len < q.max
    requires q.p - q.maxDist <= y < q.p && forall z :: Alike(q, z) && y <= z ==> !Blind(z)
    ensures AgreeFrom(q.h, q.p, q.p - y, 0, q.max) <= q.After(seen).len
  {
    hide Query.Goes, Query.Left, HashAt, Alike, Blind, Entered;
    if AgreeFrom(q.h, q.p, q.p - y, 0, q.max) >= 3 {
      AgreeAlike(q, y);
      StartAlike(q, y);
      var n := Reached(q, t, from, end, 0, q.p, y);
      if n <= seen { Longest(q, seen, n); }
    } else {
      NotShorter(q, seen);
    }
  }

  lemma NotShorter(q: Query, k: nat)
    requires q.Valid()
    ensures q.After(k).len >= q.start.len
  {
  }

  /** The first position is never found: after one byte, three more like it are no match. */
  lemma FirstUnseen(a: Byte, t: Chains, probes: nat, seen: nat)
    requires t.Valid() && probes >= 1
    requires var q := Query(Entered(t, [a, a, a, a], 0, 2).next, [a, a, a, a], 1, 1, 1, 3, probes, Best(0, 2));
      q.Ends(seen)
    ensures var q := Query(Entered(t, [a, a, a, a], 0, 2).next, [a, a, a, a], 1, 1, 1, 3, probes, Best(0, 2));
      q.After(seen) == Best(0, 2) && MatchAt(q.h, 1, 3, 1)
  {
    hide Entered, HashAt;
    var q := Query(Entered(t, [a, a, a, a], 0, 2).next, [a, a, a, a], 1, 1, 1, 3, probes, Best(0, 2));
    assert HashAt(q.h, 0) == HashAt(q.h, 1) by { SameBytes(q.h); }
    NextAlike(q, t, 0, 2, 0, 1, 0);
    Over(q, 0);
    assert seen == 0;
  }

  lemma SameBytes(h: seq<Byte>)
    requires |h| == 4 && h[0] == h[1] == h[2] == h[3]
    ensures HashAt(h, 0) == HashAt(h, 1)
  {
  }
}
