/** The sliding dictionary: a circular buffer of 32768 bytes whose first 257 bytes
    are mirrored past its end, so that a match can be read without wrapping. */
module Dictionary {
  import opened Values
  import opened LzCodes

  const MIRROR := 257
  const DICT_LEN := 33025

  /** `d` holds the bytes of `h` from `lo` on. */
  ghost predicate Window(d: seq<Byte>, h: seq<Byte>, lo: nat) {
    && |d| == DICT_LEN && lo <= |h| <= lo + DICT_SIZE
    && (forall x :: lo <= x < |h| ==> Stored(d, x, h[x]))
  }

  ghost predicate Stored(d: seq<Byte>, x: nat, b: Byte)
    requires |d| == DICT_LEN
  {
    d[x % DICT_SIZE] == b && (x % DICT_SIZE < MIRROR ==> d[DICT_SIZE + x % DICT_SIZE] == b)
  }

  lemma ModApart(x: nat, y: nat)
    requires x < y < x + DICT_SIZE
    ensures x % DICT_SIZE != y % DICT_SIZE
  {
    var q, r := x / DICT_SIZE, y / DICT_SIZE;
    assert x == DICT_SIZE * q + x % DICT_SIZE && y == DICT_SIZE * r + y % DICT_SIZE;
  }

  lemma ModAdd(x: nat, k: nat)
    requires k < DICT_SIZE
    ensures (x + k) % DICT_SIZE
      == if x % DICT_SIZE + k < DICT_SIZE then x % DICT_SIZE + k else x % DICT_SIZE + k - DICT_SIZE
  {
    var q := x / DICT_SIZE;
    assert x == DICT_SIZE * q + x % DICT_SIZE;
    if x % DICT_SIZE + k < DICT_SIZE {
      assert x + k == DICT_SIZE * q + (x % DICT_SIZE + k);
    } else {
      assert x + k == DICT_SIZE * (q + 1) + (x % DICT_SIZE + k - DICT_SIZE);
    }
  }

  /** Reading up to 257 bytes on from a position never wraps and gives the history. */
  lemma WindowRead(d: seq<Byte>, h: seq<Byte>, lo: nat, x: nat, k: nat)
    requires Window(d, h, lo) && lo <= x && x + k < |h| && k <= MIRROR
    ensures x % DICT_SIZE + k < DICT_LEN && d[x % DICT_SIZE + k] == h[x + k]
  {
    ModAdd(x, k);
    assert Stored(d, x + k, h[x + k]);
  }

  /** A narrower window over the same bytes. */
  lemma WindowNarrow(d: seq<Byte>, h: seq<Byte>, lo: nat, lo': nat)
    requires Window(d, h, lo) && lo <= lo' <= |h|
    ensures Window(d, h, lo')
  {
  }

  ghost function Max(a: int, b: int): int {
    if a >= b then a else b
  }

  /** Appends one byte at its place in the circle, and in the mirror when it has one. */
  method PutByte(dict: array<Byte>, dstPos: nat, c: Byte, ghost h: seq<Byte>, ghost lo: nat)
    requires Window(dict[..], h, lo) && dstPos == |h| % DICT_SIZE
    modifies dict
    ensures Window(dict[..], h + [c], Max(lo, |h| + 1 - DICT_SIZE))
  {
    ghost var d := dict[..];
    dict[dstPos] := c;
    if dstPos < MIRROR {
      dict[DICT_SIZE + dstPos] := c;
    }
    ghost var h', lo' := h + [c], Max(lo, |h| + 1 - DICT_SIZE);
    forall x | lo' <= x < |h'| ensures Stored(dict[..], x, h'[x]) {
      if x < |h| {
        ModApart(x, |h|);
        assert Stored(d, x, h[x]);
      }
    }
  }
}

/** Searching the dictionary along hash chains. */
module MatchFinder {
  import opened Values
  import opened LzCodes
  import opened Dictionary

  ghost predicate Shorts(next: seq<nat>) {
    |next| == DICT_SIZE && forall i :: 0 <= i < DICT_SIZE ==> next[i] < 0x10000
  }

  /** Difference of two positions as a 16-bit number. */
  function Dist16(lookaheadPos: nat, probe: nat): nat {
    (lookaheadPos + 0x10000 - probe % 0x10000) % 0x10000
  }

  /** A chain entry within reach names the position that far back. */
  lemma ProbePosition(p: nat, lookaheadPos: nat, probe: nat, dist: nat)
    requires lookaheadPos == p % 0x1_0000_0000 && probe < 0x10000 && dist == Dist16(lookaheadPos, probe) && dist <= p
    ensures (p - dist) % DICT_SIZE == probe % DICT_SIZE
  {
    var a, b, c := p / 0x1_0000_0000, (lookaheadPos + 0x10000 - probe) / 0x10000, probe / DICT_SIZE;
    ModIs(p - dist, 131072 * a + 2 * b - 2 + c, probe % DICT_SIZE);
  }

  // ---- The walk along a chain, apart from how it is carried out.

  /** How many bytes from `p` on agree with those `d` back, up to `max`; `k` of them already do. */
  ghost function AgreeFrom(h: seq<Byte>, p: nat, d: nat, k: nat, max: nat): (n: nat)
    requires k <= max && d <= p && p + max <= |h|
    ensures k <= n <= max && (n < max ==> h[p + n] != h[p - d + n])
    ensures forall x :: p + k <= x < p + n ==> h[x] == h[x - d]
    decreases max - k
  {
    if k < max && h[p + k] == h[p - d + k] then AgreeFrom(h, p, d, k + 1, max) else k
  }

  datatype Best = Best(dist: nat, len: nat)

  /** Rounds of three links that are left, and how many links of the present one are used. */
  datatype Credit = Credit(rounds: int, used: nat)

  /** A search at position `p` of the history `h`: along the links in `next`, at most `maxDist` back,
      for a match longer than that of `start` and of at most `max` bytes. */
  datatype Query = Query(next: seq<nat>, h: seq<Byte>, p: nat, lookaheadPos: nat, maxDist: nat, max: nat,
                         probes: nat, start: Best) {
    ghost predicate Valid() {
      && Shorts(next) && maxDist <= p && p + max <= |h| && max <= MAX_MATCH && 1 <= start.len < MAX_MATCH
      && probes >= 1 && lookaheadPos == p % 0x1_0000_0000
    }

    /** The place in the circle after `k` links. */
    ghost function At(k: nat): (r: nat)
      requires Shorts(next)
      ensures r < DICT_SIZE
    {
      if k == 0 then p % DICT_SIZE else next[At(k - 1)] % DICT_SIZE
    }

    /** How far back the candidate after `k` links is. */
    ghost function Back(k: nat): nat
      requires Shorts(next) && k >= 1
    {
      Dist16(lookaheadPos, next[At(k - 1)])
    }

    /** The chain goes on to candidate `k`, which is in reach. */
    ghost predicate Goes(k: nat)
      requires Shorts(next) && k >= 1
    {
      next[At(k - 1)] != 0 && Back(k) <= maxDist
    }

    /** How many bytes candidate `k` agrees on. */
    ghost function Agrees(k: nat): nat
      requires Valid() && k >= 1
    {
      if 1 <= Back(k) <= p then AgreeFrom(h, p, Back(k), 0, max) else 0
    }

    /** The best of the first `k` candidates: the first of the longest. */
    ghost function After(k: nat): (b: Best)
      requires Valid()
      ensures b == start || start.len < b.len <= max
    {
      if k == 0 then start
      else if Agrees(k) > After(k - 1).len then Best(Back(k), Agrees(k))
      else After(k - 1)
    }

    /** Candidate `k` agrees on the byte that would make the match longer and on the one before. */
    ghost predicate Hit(k: nat)
      requires Valid() && k >= 1
    {
      var l := After(k - 1).len;
      Back(k) <= p && l < max && h[p + l] == h[p - Back(k) + l] && h[p + l - 1] == h[p - Back(k) + l - 1]
    }

    /** A round ends with a hit or after three links. */
    ghost function Left(k: nat): Credit
      requires Valid()
    {
      if k == 0 then Credit(probes - 1, 0)
      else if Hit(k) || Left(k - 1).used >= 2 then Credit(Left(k - 1).rounds - 1, 0)
      else Credit(Left(k - 1).rounds, Left(k - 1).used + 1)
    }

    /** After `k` candidates the search is over: no round is left, the chain ends, the candidate was
        the position itself, or the match cannot get longer. */
    ghost predicate Stops(k: nat)
      requires Valid()
    {
      Left(k).rounds == 0 || !Goes(k + 1) || (k >= 1 && Back(k) == 0) || After(k).len >= max
    }

    /** The search looks at exactly `k` candidates. */
    ghost predicate Ends(k: nat)
      requires Valid()
    {
      Stops(k) && forall j: nat :: j < k ==> !Stops(j)
    }
  }

  /** No candidate looked at agrees on more bytes. */
  lemma {:induction false} Longest(q: Query, k: nat, j: nat)
    requires q.Valid() && 1 <= j <= k
    ensures q.Agrees(j) <= q.After(k).len
  {
    hide Query.Agrees, Query.Back;
    if j < k { Longest(q, k - 1, j); }
  }

  /** The match found is that of the first candidate that agrees on so many bytes. */
  lemma {:induction false} FirstLongest(q: Query, k: nat) returns (j: nat)
    requires q.Valid() && q.After(k) != q.start
    ensures 1 <= j <= k && q.After(k) == Best(q.Back(j), q.Agrees(j))
    ensures forall i :: 1 <= i < j ==> q.Agrees(i) < q.Agrees(j)
  {
    hide Query.Agrees, Query.Back;
    if q.After(k) == q.After(k - 1) {
      j := FirstLongest(q, k - 1);
    } else {
      j := k;
      forall i | 1 <= i < j ensures q.Agrees(i) < q.Agrees(j) { Longest(q, k - 1, i); }
    }
  }

  /** When only the probes run out, at least so many candidates have been looked at. */
  lemma {:induction false} EnoughLooks(q: Query, k: nat)
    requires q.Valid()
    ensures q.Left(k).rounds + k >= q.probes - 1
  {
    hide Query.Hit, Query.After, Query.At, Shorts;
    if k > 0 { EnoughLooks(q, k - 1); }
  }

  /** A match is found by one search only. */
  lemma EndsOnce(q: Query, j: nat, k: nat)
    requires q.Valid() && q.Ends(j) && q.Ends(k)
    ensures j == k
  {
  }

  datatype Probe = Stop | Hit(dist: nat, at: nat)

  /** A candidate that misses one of the two bytes is no longer match. */
  lemma Miss(q: Query, k: nat)
    requires q.Valid() && k >= 1 && q.Goes(k) && q.After(k - 1).len < q.max && !q.Hit(k)
    ensures q.After(k) == q.After(k - 1) && q.Back(k) != 0
  {
    hide Query.After, Query.At, Query.Left, Query.Hit, Query.Back, Query.Goes, Shorts;
    Taken(q, k);
    HitIs(q, k);
    InReach(q, k);
    var l, d := q.After(k - 1).len, q.Back(k);
    if d != 0 {
      var n := AgreeFrom(q.h, q.p, d, 0, q.max);
      assert !(n > l) by { assert q.h[q.p + l] != q.h[q.p + l - d] || q.h[q.p + l - 1] != q.h[q.p + l - 1 - d]; }
    }
  }

  /** The two bytes in the circle at a candidate's place are those of the history. */
  lemma BytesThere(q: Query, d: seq<Byte>, k: nat)
    requires q.Valid() && Window(d, q.h, q.p - q.maxDist) && k >= 1 && q.Goes(k) && q.After(k - 1).len < q.max
    ensures var l, at, from := q.After(k - 1).len, q.At(k), q.p - q.Back(k);
      && |d| == DICT_LEN && l <= MIRROR
      && d[at + l] == q.h[from + l] && d[at + l - 1] == q.h[from + l - 1]
  {
    hide Window, Query.Left, Query.After;
    var l := q.After(k - 1).len;
    PlaceOf(q, k);
    WindowLength(d, q.h, q.p - q.maxDist);
    WindowRead(d, q.h, q.p - q.maxDist, q.p - q.Back(k), l);
    WindowRead(d, q.h, q.p - q.maxDist, q.p - q.Back(k), l - 1);
  }

  /** The link from the place after `k` links. */
  lemma Onwards(q: Query, k: nat)
    requires q.Valid()
    ensures var n := q.next[q.At(k)];
      && q.At(k + 1) == n % DICT_SIZE && q.Back(k + 1) == Dist16(q.lookaheadPos, n)
      && (q.Goes(k + 1) <==> n != 0 && q.Back(k + 1) <= q.maxDist)
  {
  }

  lemma Over(q: Query, k: nat)
    requires q.Valid() && (q.Left(k).rounds == 0 || !q.Goes(k + 1))
    ensures q.Stops(k)
  {
  }

  /** The next candidate is looked at: after it the round may be over, and certainly is after a hit. */
  lemma LookedAt(q: Query, k: nat)
    requires q.Valid() && q.Left(k).rounds != 0 && q.Goes(k + 1) && q.After(k).len < q.max
    requires k >= 1 ==> q.Back(k) != 0
    ensures !q.Stops(k)
    ensures q.Left(k + 1) == if q.Hit(k + 1) || q.Left(k).used >= 2 then Credit(q.Left(k).rounds - 1, 0)
                             else Credit(q.Left(k).rounds, q.Left(k).used + 1)
  {
  }

  /** A candidate that has the two bytes is a hit, and only that. */
  lemma HitIs(q: Query, k: nat)
    requires q.Valid() && k >= 1 && q.Goes(k) && q.After(k - 1).len < q.max
    ensures var l, from := q.After(k - 1).len, q.p - q.Back(k);
      q.Hit(k) <==> q.h[from + l] == q.h[q.p + l] && q.h[from + l - 1] == q.h[q.p + l - 1]
  {
    hide Query.After, Query.At, Query.Back, Query.Goes, Shorts;
    InReach(q, k);
  }

  /** Follows the chain from `probePos` until a candidate agrees on the two bytes that
      decide whether it can be longer, or the probes or the reach run out. */
  method NextCandidate(dict: array<Byte>, next: array<nat>, lookaheadPos: nat, maxDist: nat, matchLen: nat,
                       c0: Byte, c1: Byte, probePos: nat, probes: nat, ghost q: Query, ghost k: nat)
    returns (r: Probe, probes': nat, ghost seen: nat)
    requires q.Valid() && q.next == next[..] && q.lookaheadPos == lookaheadPos && q.maxDist == maxDist
    requires Window(dict[..], q.h, q.p - maxDist)
    requires matchLen == q.After(k).len < q.max && c0 == q.h[q.p + matchLen] && c1 == q.h[q.p + matchLen - 1]
    requires probePos == q.At(k) && q.Left(k) == Credit(probes - 1, 0) && probes >= 1 && (k >= 1 ==> q.Back(k) != 0)
    ensures probes' < probes && k <= seen && forall j: nat :: k <= j < seen ==> !q.Stops(j)
    ensures r.Stop? ==> q.Stops(seen) && q.After(seen) == q.After(k)
    ensures r.Hit? ==> seen >= 1 && q.Goes(seen) && q.After(seen - 1) == q.After(k)
    ensures r.Hit? ==> r.dist == q.Back(seen) && r.at == q.At(seen)
    ensures r.Hit? ==> q.Left(seen) == Credit(probes' - 1, 0) && probes' >= 1
  {
    hide Window, Query.After, Query.Agrees, Query.At, Query.Back, Query.Goes, Query.Left, Query.Stops, Query.Hit;
    WindowLength(dict[..], q.h, q.p - maxDist);
    var at: nat, left := probePos, probes;
    seen := k;
    while true
      invariant k <= seen && 1 <= left <= probes && at == q.At(seen) && q.Left(seen) == Credit(left - 1, 0)
      invariant q.After(seen) == q.After(k) && (seen >= 1 ==> q.Back(seen) != 0)
      invariant forall j: nat :: k <= j < seen ==> !q.Stops(j)
      decreases left
    {
      left := left - 1;
      if left == 0 {
        Over(q, seen);
        return Stop, left, seen;
      }
      var i := 0;
      while i < 3
        invariant k <= seen && 0 <= i <= 3 && at == q.At(seen)
        invariant q.Left(seen) == if i < 3 then Credit(left, i) else Credit(left - 1, 0)
        invariant q.After(seen) == q.After(k) && (seen >= 1 ==> q.Back(seen) != 0)
        invariant forall j: nat :: k <= j < seen ==> !q.Stops(j)
      {
        var n := next[at];
        var dist := Dist16(lookaheadPos, n);
        Onwards(q, seen);
        if n == 0 || dist > maxDist {
          Over(q, seen);
          return Stop, left, seen;
        }
        LookedAt(q, seen);
        at := n % DICT_SIZE;
        seen := seen + 1;
        BytesThere(q, dict[..], seen);
        HitIs(q, seen);
        if dict[at + matchLen] == c0 && dict[at + matchLen - 1] == c1 {
          return Hit(dist, at), left, seen;
        }
        Miss(q, seen);
        i := i + 1;
      }
    }
  }

  /** How many bytes from `p` and `q` on agree, up to `max`. */
  method CommonLength(dict: array<Byte>, p: nat, q: nat, max: nat) returns (n: nat)
    requires dict.Length == DICT_LEN && p < DICT_SIZE && q < DICT_SIZE && max <= MAX_MATCH
    ensures n <= max && dict[p..p + n] == dict[q..q + n]
    ensures n < max ==> dict[p + n] != dict[q + n]
  {
    n := 0;
    while n < max && dict[p + n] == dict[q + n]
      invariant n <= max && dict[p..p + n] == dict[q..q + n]
    {
      n := n + 1;
    }
  }

  /** Agreement in the dictionary is a match in the history. */
  lemma DictMatch(d: seq<Byte>, h: seq<Byte>, p: nat, n: nat, dist: nat, max: nat)
    requires 1 <= dist <= max <= p && Window(d, h, p - max) && p + n <= |h| && n <= MAX_MATCH
    requires var i, j := p % DICT_SIZE, (p - dist) % DICT_SIZE;
      i + n <= |d| && j + n <= |d| && d[i..i + n] == d[j..j + n]
    ensures MatchAt(h, p, n, dist)
  {
    hide Window;
    forall x | p <= x < p + n ensures h[x] == h[x - dist] {
      var k := x - p;
      WindowRead(d, h, p - max, p, k);
      WindowRead(d, h, p - max, p - dist, k);
      var i, j := p % DICT_SIZE, (p - dist) % DICT_SIZE;
      assert d[i..i + n][k] == d[j..j + n][k];
    }
  }

  /** A match that cannot go on is all that agrees. */
  lemma AgreesFor(h: seq<Byte>, p: nat, d: nat, n: nat, max: nat)
    requires MatchAt(h, p, n, d) && n <= max && p + max <= |h| && (n < max ==> h[p + n] != h[p + n - d])
    ensures AgreeFrom(h, p, d, 0, max) == n
  {
  }

  /** Agreement in the dictionary for as long as it lasts is agreement in the history. */
  lemma AgreesInDict(d: seq<Byte>, h: seq<Byte>, p: nat, n: nat, dist: nat, reach: nat, max: nat)
    requires 1 <= dist <= reach <= p && Window(d, h, p - reach) && n <= max <= MAX_MATCH && p + max <= |h|
    requires |d| == DICT_LEN
    requires var i, j := p % DICT_SIZE, (p - dist) % DICT_SIZE;
      d[i..i + n] == d[j..j + n] && (n < max ==> d[i + n] != d[j + n])
    ensures AgreeFrom(h, p, dist, 0, max) == n && MatchAt(h, p, n, dist)
  {
    hide Window, MatchAt, AgreeFrom;
    DictMatch(d, h, p, n, dist, reach);
    if n < max {
      WindowRead(d, h, p - reach, p, n);
      WindowRead(d, h, p - reach, p - dist, n);
    }
    AgreesFor(h, p, dist, n, max);
  }

  /** What the dictionary shows at candidate `k` decides what the best is after it. */
  lemma Judged(q: Query, d: seq<Byte>, k: nat, n: nat)
    requires q.Valid() && Window(d, q.h, q.p - q.maxDist) && k >= 1 && q.Goes(k) && q.Back(k) >= 1
    requires n <= q.max && |d| == DICT_LEN
    requires var i, j := q.p % DICT_SIZE, q.At(k);
      d[i..i + n] == d[j..j + n] && (n < q.max ==> d[i + n] != d[j + n])
    ensures q.After(k) == if n > q.After(k - 1).len then Best(q.Back(k), n) else q.After(k - 1)
    ensures MatchAt(q.h, q.p, n, q.Back(k)) && q.Back(k) <= q.maxDist
  {
    hide Window, Query.Left, Query.After, Query.Hit, Query.Back, Query.Goes, Query.At, MatchAt, AgreeFrom, Shorts;
    InReach(q, k);
    Onwards(q, k - 1);
    PlaceOf(q, k);
    AgreesInDict(d, q.h, q.p, n, q.Back(k), q.maxDist, q.max);
    Taken(q, k);
  }

  lemma PlaceOf(q: Query, k: nat)
    requires q.Valid() && k >= 1 && q.Goes(k)
    ensures (q.p - q.Back(k)) % DICT_SIZE == q.At(k)
  {
    ProbePosition(q.p, q.lookaheadPos, q.next[q.At(k - 1)], q.Back(k));
  }

  /** The two bytes at the position itself that a longer match must have. */
  lemma BytesHere(q: Query, d: seq<Byte>, pos: nat, l: nat)
    requires q.Valid() && Window(d, q.h, q.p - q.maxDist) && pos == q.p % DICT_SIZE && 1 <= l < q.max
    ensures |d| == DICT_LEN && d[pos + l] == q.h[q.p + l] && d[pos + l - 1] == q.h[q.p + l - 1]
  {
    hide Window;
    WindowLength(d, q.h, q.p - q.maxDist);
    WindowRead(d, q.h, q.p - q.maxDist, q.p, l);
    WindowRead(d, q.h, q.p - q.maxDist, q.p, l - 1);
  }

  /** Looks for a match longer than `matchLen0` at position `p`, at most `maxDist` back: the first of the
      longest among the candidates the chain leads to before the search ends. */
  method FindMatch(dict: array<Byte>, next: array<nat>, lookaheadPos: nat, maxDist: nat, maxMatchLen: nat,
                   probes: nat, matchDist0: nat, matchLen0: nat, ghost h: seq<Byte>, ghost p: nat)
    returns (matchDist: nat, matchLen: nat, ghost seen: nat)
    requires maxDist <= p && Window(dict[..], h, p - maxDist) && p + maxMatchLen <= |h|
    requires maxMatchLen <= MAX_MATCH && 1 <= matchLen0 < MAX_MATCH && probes >= 1
    requires lookaheadPos == p % 0x1_0000_0000 && Shorts(next[..])
    ensures || (matchLen == matchLen0 && matchDist == matchDist0)
            || (matchLen0 < matchLen <= maxMatchLen && matchDist <= maxDist && MatchAt(h, p, matchLen, matchDist))
    ensures
      var q := Query(next[..], h, p, lookaheadPos, maxDist, maxMatchLen, probes, Best(matchDist0, matchLen0));
      q.Valid() && q.Ends(seen) && q.After(seen) == Best(matchDist, matchLen)
  {
    hide Window, MatchAt, Query.At, Query.Back, Query.Goes, Query.Agrees, Query.After, Query.Left, Query.Stops;
    hide Shorts, Query.Hit, Dist16;
    ghost var q := Query(next[..], h, p, lookaheadPos, maxDist, maxMatchLen, probes, Best(matchDist0, matchLen0));
    WindowLength(dict[..], h, p - maxDist);
    matchDist, matchLen, seen := matchDist0, matchLen0, 0;
    PositionModulo(p, lookaheadPos);
    var pos := lookaheadPos % DICT_SIZE;
    var probePos: nat, left := pos, probes;
    StartsHere(q);
    var c0, c1 := dict[pos + matchLen], dict[pos + matchLen - 1];
    if maxMatchLen <= matchLen {
      LongEnough(q, 0);
      return;
    }
    BytesHere(q, dict[..], pos, matchLen);
    while true
      invariant matchLen < maxMatchLen && left >= 1
      invariant c0 == h[p + matchLen] && c1 == h[p + matchLen - 1]
      invariant || (matchLen == matchLen0 && matchDist == matchDist0)
                || (matchLen0 < matchLen && matchDist <= maxDist && MatchAt(h, p, matchLen, matchDist))
      invariant probePos == q.At(seen) && q.After(seen) == Best(matchDist, matchLen)
      invariant q.Left(seen) == Credit(left - 1, 0) && (seen >= 1 ==> q.Back(seen) != 0)
      invariant forall j: nat :: j < seen ==> !q.Stops(j)
      decreases left
    {
      var r;
      r, left, seen :=
        NextCandidate(dict, next, lookaheadPos, maxDist, matchLen, c0, c1, probePos, left, q, seen);
      if r.Stop? { return; }
      probePos := r.at;
      if r.dist == 0 {
        NotBack(q, seen);
        return;
      }
      InReach(q, seen);
      var probeLen := CommonLength(dict, pos, probePos, maxMatchLen);
      Judged(q, dict[..], seen, probeLen);
      if probeLen > matchLen {
        matchDist, matchLen := r.dist, probeLen;
        if matchLen == maxMatchLen {
          LongEnough(q, seen);
          return;
        }
        BytesHere(q, dict[..], pos, matchLen);
        c0, c1 := dict[pos + matchLen], dict[pos + matchLen - 1];
      }
    }
  }

  lemma StartsHere(q: Query)
    requires q.Valid()
    ensures q.At(0) == q.p % DICT_SIZE && q.After(0) == q.start && q.Left(0) == Credit(q.probes - 1, 0)
  {
  }

  lemma LongEnough(q: Query, k: nat)
    requires q.Valid() && q.After(k).len >= q.max
    ensures q.Stops(k)
  {
  }

  lemma Taken(q: Query, k: nat)
    requires q.Valid() && k >= 1
    ensures q.After(k) == if q.Agrees(k) > q.After(k - 1).len then Best(q.Back(k), q.Agrees(k)) else q.After(k - 1)
  {
  }

  lemma InReach(q: Query, k: nat)
    requires q.Valid() && k >= 1 && q.Goes(k)
    ensures q.Back(k) <= q.maxDist && q.At(k) < DICT_SIZE
  {
  }

  /** The position itself is no match. */
  lemma NotBack(q: Query, k: nat)
    requires q.Valid() && k >= 1 && q.Back(k) == 0
    ensures q.After(k) == q.After(k - 1) && q.Stops(k)
  {
  }

  lemma PositionModulo(p: nat, lookaheadPos: nat)
    requires lookaheadPos == p % 0x1_0000_0000
    ensures lookaheadPos % DICT_SIZE == p % DICT_SIZE
  {
    var a, b := p / 0x1_0000_0000, lookaheadPos / DICT_SIZE;
    assert lookaheadPos == DICT_SIZE * b + lookaheadPos % DICT_SIZE;
    ModIs(p, 131072 * a + b, lookaheadPos % DICT_SIZE);
  }

  lemma ModIs(x: int, q: int, r: int)
    requires x == DICT_SIZE * q + r && 0 <= r < DICT_SIZE
    ensures x % DICT_SIZE == r
  {
  }

  lemma WindowLength(d: seq<Byte>, h: seq<Byte>, lo: nat)
    requires Window(d, h, lo)
    ensures |d| == DICT_LEN
  {
  }

  /** How many bytes from the current position repeat the byte before it. */
  method RunLength(dict: array<Byte>, lookaheadPos: nat, lookaheadSize: nat, ghost h: seq<Byte>, ghost p: nat,
                   ghost lo: nat)
    returns (n: nat)
    requires Window(dict[..], h, lo) && lo < p && p + lookaheadSize <= |h| && lookaheadSize <= MAX_MATCH
    requires lookaheadPos == p % 0x1_0000_0000
    ensures n == AgreeFrom(h, p, 1, 0, lookaheadSize) && MatchAt(h, p, n, 1)
  {
    hide Window;
    WindowLength(dict[..], h, lo);
    PositionModulo(p, lookaheadPos);
    var pos := lookaheadPos % DICT_SIZE;
    var before := (pos + DICT_SIZE - 1) % DICT_SIZE;
    ModAdd(p - 1, 1);
    WindowRead(dict[..], h, lo, p - 1, 0);
    assert before == (p - 1) % DICT_SIZE;
    var c := dict[before];
    n := 0;
    while n < lookaheadSize && dict[pos + n] == c
      invariant n <= lookaheadSize && forall x :: p <= x < p + n ==> h[x] == c
    {
      WindowRead(dict[..], h, lo, p, n);
      n := n + 1;
    }
    assert h[p + n - 1] == c;
    if n < lookaheadSize { WindowRead(dict[..], h, lo, p, n); }
  }
}
