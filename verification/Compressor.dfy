/** The lazy LZ77 parser over the sliding dictionary. */
module Lz77 {
  import opened Values
  import opened Bitwise
  import opened LzCodes
  import opened CodeBuffer
  import opened Dictionary
  import opened MatchFinder
  import opened HashChains
  import opened ChainSearch

  const U32 := 0x1_0000_0000

  /** A match put off by one byte: found at `p - 1`, shorter than 128. */
  ghost predicate PutOff(h: seq<Byte>, p: nat, lit: Byte, len: nat, dist: nat) {
    && 1 <= p <= |h| && h[p - 1] == lit && MIN_MATCH <= len < 128 && dist <= DICT_SIZE
    && MatchAt(h, p - 1, len, dist)
  }

  /** The codes so far expand to the first `p` bytes of `h`. */
  ghost predicate Faith(codes: seq<LzCode>, h: seq<Byte>, p: nat) {
    p <= |h| && AllValid(codes) && Reaches(codes) && Expand(codes) == h[..p]
  }

  lemma FaithLater(codes: seq<LzCode>, h: seq<Byte>, h': seq<Byte>, p: nat)
    requires Faith(codes, h, p) && h <= h'
    ensures Faith(codes, h', p)
  {
    hide Expand, Reaches;
    assert h'[..p] == h[..p];
  }

  lemma FaithLit(codes: seq<LzCode>, h: seq<Byte>, p: nat, b: Byte)
    requires Faith(codes, h, p) && p < |h| && h[p] == b
    ensures Faith(codes + [Lit(b)], h, p + 1)
  {
    hide Expand, Reaches;
    Faithful(codes, h, p, Lit(b));
  }

  lemma FaithMatch(codes: seq<LzCode>, h: seq<Byte>, p: nat, len: nat, dist: nat)
    requires Faith(codes, h, p) && Match(len, dist).Valid() && MatchAt(h, p, len, dist)
    ensures Faith(codes + [Match(len, dist)], h, p + len)
  {
    hide Expand, Reaches, MatchAt;
    MatchReach(h, p, len, dist);
    Faithful(codes, h, p, Match(len, dist));
  }

  lemma PutOffLater(h: seq<Byte>, h': seq<Byte>, p: nat, lit: Byte, len: nat, dist: nat)
    requires PutOff(h, p, lit, len, dist) && h <= h'
    ensures PutOff(h', p, lit, len, dist)
  {
    MatchLater(h, h', p - 1, len, dist);
  }

  lemma {:induction false} SplitExpand(sent: seq<LzCode>, open: seq<LzCode>)
    requires AllValid(open)
    ensures |Expand(sent)| <= |Expand(sent + open)| <= |Expand(sent)| + MAX_MATCH * |open|
    decreases |open|
  {
    if open == [] {
      assert sent + open == sent;
    } else {
      var n := |open| - 1;
      SplitExpand(sent, open[..n]);
      assert sent + open == (sent + open[..n]) + [open[n]];
      ExpandNext(sent + open[..n], open[n]);
    }
  }

  /** What is found in memory that is not cleared: any bytes, and any 16-bit numbers. */
  datatype Leftover = Leftover(dict: seq<Byte>, next: seq<nat>, hash: seq<nat>, buf: seq<Byte>) {
    ghost predicate Valid() {
      && |dict| == DICT_LEN && |next| == DICT_SIZE && |hash| == HASH_SIZE && |buf| == CODE_BUF_SIZE
      && Shorts16(next) && Shorts16(hash)
    }
  }

  /** Codes to record, the length of the match to put off, if any, and how far to move. */
  datatype Choice = Choice(codes: seq<LzCode>, len: nat, move: nat)

  class Compressor {
    const dict: array<Byte>
    const next: array<nat>
    const hash: array<nat>
    const buf: array<Byte>
    const maxProbes0: nat
    const maxProbes1: nat
    const greedy: bool
    const rle: bool
    const filter: bool
    const raw: bool

    var lookaheadPos: nat
    var lookaheadSize: nat
    var dictSize: nat
    var savedLit: Byte
    var savedMatchDist: nat
    var savedMatchLen: nat
    var codeAt: nat
    var flagsAt: nat
    var flagsLeft: nat
    var totalLzBytes: nat
    var blockDictPos: nat
    var blockIndex: nat
    /** Codes already handed to the block writer. */
    var sent: seq<LzCode>

    /** All bytes ever moved into the dictionary. */
    ghost var hist: seq<Byte>
    /** Position of the lookahead in `hist`. */
    ghost var pos: nat
    /** Codes recorded since the last block. */
    ghost var open: seq<LzCode>
    /** First position in the chains, and what the chains were before it. */
    ghost var first: nat
    ghost var base: Chains

    ghost predicate Shape() {
      && dict.Length == DICT_LEN && next.Length == DICT_SIZE && hash.Length == HASH_SIZE && buf.Length == CODE_BUF_SIZE
      && dict != buf && next != hash && maxProbes0 >= 1 && maxProbes1 >= 1
    }

    /** The chains hold every position from `first` to `end`, entered one after the other. */
    ghost predicate Entries(end: int)
      reads `hist, `first, `base, next, hash
    {
      && base.Valid() && (first < end ==> end + 2 <= |hist|)
      && Chains(next[..], hash[..]) == Entered(base, hist, first, end)
    }

    /** All positions are in the chains that have two bytes after them. */
    ghost predicate Tables()
      reads `hist, `first, `base, next, hash
    {
      Entries(|hist| - 2)
    }

    /** The dictionary holds the last `dictSize` bytes and the lookahead. */
    ghost predicate Placed()
      reads this, dict
    {
      && pos + lookaheadSize == |hist| && dictSize <= pos && lookaheadSize <= MAX_MATCH
      && lookaheadPos == pos % U32 && Anchored()
      && Window(dict[..], hist, pos - dictSize)
    }

    /** The dictionary goes back to where the chains start, or is full. */
    ghost predicate Anchored()
      reads this
    {
      first + dictSize == pos || (first + dictSize <= pos && dictSize >= DICT_SIZE - MAX_MATCH)
    }

    /** How many bytes the recorded codes stand for. */
    ghost function Done(): int
      reads `savedMatchLen, `pos
    {
      if savedMatchLen > 0 then pos - 1 else pos
    }

    ghost predicate Pending()
      reads `savedMatchLen, `savedMatchDist, `savedLit, `hist, `pos
    {
      savedMatchLen > 0 ==> PutOff(hist, pos, savedLit, savedMatchLen, savedMatchDist) && !rle && !raw
    }

    /** The codes expand to the first `p` bytes, and the buffer holds the open ones. */
    ghost predicate Books(p: int)
      reads `sent, `open, `hist, `codeAt, `flagsAt, `flagsLeft, `totalLzBytes, `blockDictPos, buf
    {
      && Shape() && 0 <= p && Faith(sent + open, hist, p)
      && Holds(buf[..], open, codeAt, flagsAt, flagsLeft)
      && |Expand(sent)| + totalLzBytes == p && blockDictPos == |Expand(sent)| % U32
    }

    ghost predicate Valid()
      reads this, dict, next, hash, buf
    {
      Shape() && Tables() && Placed() && Pending() && Books(Done())
    }

    /** Only positions and counters are set up; the arrays hold what was there before. */
    constructor (probes: nat, greedy: bool, rle: bool, filter: bool, raw: bool, left: Leftover)
      requires probes < 4096 && left.Valid()
      ensures Valid() && hist == [] && pos == 0 && sent == [] && open == [] && lookaheadSize == 0 && codeAt == 1
      ensures first == 0 && base == Chains(left.next, left.hash)
      ensures maxProbes0 == 1 + (probes + 2) / 3 && maxProbes1 == 1 + (probes / 4 + 2) / 3
      ensures this.greedy == greedy && this.rle == rle && this.filter == filter && this.raw == raw
      ensures fresh(dict) && fresh(next) && fresh(hash) && fresh(buf)
    {
      hide Window, Expand, Reaches, Holds, Faith;
      dict := new Byte[DICT_LEN](i requires 0 <= i < DICT_LEN => left.dict[i]);
      next := new nat[DICT_SIZE](i requires 0 <= i < DICT_SIZE => left.next[i]);
      hash := new nat[HASH_SIZE](i requires 0 <= i < HASH_SIZE => left.hash[i]);
      buf := new Byte[CODE_BUF_SIZE](i requires 0 <= i < CODE_BUF_SIZE => left.buf[i]);
      maxProbes0 := 1 + (probes + 2) / 3;
      maxProbes1 := 1 + (probes / 4 + 2) / 3;
      this.greedy, this.rle, this.filter, this.raw := greedy, rle, filter, raw;
      lookaheadPos, lookaheadSize, dictSize := 0, 0, 0;
      savedLit, savedMatchDist, savedMatchLen := 0, 0, 0;
      codeAt, flagsAt, flagsLeft, totalLzBytes := 1, 0, 8, 0;
      blockDictPos, blockIndex, sent := 0, 0, [];
      hist, pos, open := [], 0, [];
      first, base := 0, Chains(left.next, left.hash);
      new;
      StartFacts(dict[..], buf[..]);
      assert next[..] == left.next && hash[..] == left.hash;
    }

    /** Writes the bytes of a code and shifts in its flag. */
    method WriteCode(c: LzCode)
      requires Shape() && c.Valid() && flagsAt < codeAt && codeAt + 4 <= CODE_BUF_SIZE
      modifies buf, `codeAt, `totalLzBytes
      ensures Wrote(old(buf[..]), buf[..], c, old(codeAt), flagsAt) && codeAt == old(codeAt) + |CodeBytes(c)|
      ensures totalLzBytes == old(totalLzBytes) + (if c.Lit? then 1 else c.len)
    {
      if c.Lit? {
        totalLzBytes := totalLzBytes + 1;
        buf[codeAt] := c.byte;
        codeAt := codeAt + 1;
        buf[flagsAt] := buf[flagsAt] / 2;
      } else {
        totalLzBytes := totalLzBytes + c.len;
        buf[codeAt] := c.len - MIN_MATCH;
        buf[codeAt + 1] := (c.dist - 1) % 256;
        buf[codeAt + 2] := (c.dist - 1) / 256;
        codeAt := codeAt + 3;
        buf[flagsAt] := buf[flagsAt] / 2 + 128;
      }
    }

    /** Records a code in the buffer. */
    method Record(c: LzCode)
      requires Shape() && c.Valid() && Holds(buf[..], open, codeAt, flagsAt, flagsLeft) && codeAt + 4 <= CODE_BUF_SIZE
      modifies buf, `codeAt, `flagsAt, `flagsLeft, `totalLzBytes, `open
      ensures open == old(open) + [c] && Holds(buf[..], open, codeAt, flagsAt, flagsLeft)
      ensures codeAt <= old(codeAt) + (if c.Lit? then 2 else 4)
      ensures totalLzBytes == old(totalLzBytes) + (if c.Lit? then 1 else c.len)
    {
      hide Holds, Wrote;
      ghost var b, at := buf[..], codeAt;
      HoldsShape(b, open, codeAt, flagsAt, flagsLeft);
      WriteCode(c);
      if flagsLeft > 1 {
        RecordOpen(b, buf[..], open, c, at, flagsAt, flagsLeft);
        flagsLeft := flagsLeft - 1;
      } else {
        RecordLast(b, buf[..], open, c, at, flagsAt);
        flagsLeft := 8;
        flagsAt := codeAt;
        codeAt := codeAt + 1;
      }
      open := open + [c];
    }

    // ---- Filling the lookahead.

    /** What filling keeps: the dictionary holds the newest bytes. */
    ghost predicate Filling()
      reads this, dict
    {
      && Shape() && lookaheadSize <= MAX_MATCH && Anchored()
      && dictSize <= pos && pos + lookaheadSize == |hist| && lookaheadPos == pos % U32
      && Window(dict[..], hist, Max(pos - dictSize, |hist| - DICT_SIZE))
    }

    /** Enters a position at the head of the chain of `h`. */
    method Chain(insPos: nat, h: nat, ghost x: nat)
      requires Shape() && h < HASH_SIZE && insPos == x % U32 && Chains(next[..], hash[..]).Valid()
      modifies next, hash
      ensures Chains(next[..], hash[..]) == old(Chains(next[..], hash[..])).Enter(x, h)
    {
      PositionModulo(x, insPos);
      LowSixteen(x, insPos);
      next[insPos % DICT_SIZE] := hash[h];
      hash[h] := insPos % 0x10000;
    }

    /** Moves one byte into the dictionary. */
    method TakeByte(c: Byte)
      requires Filling() && lookaheadSize < MAX_MATCH
      modifies dict, `lookaheadSize, `hist
      ensures hist == old(hist) + [c] && lookaheadSize == old(lookaheadSize) + 1
      ensures Filling()
    {
      hide Window;
      PositionAdd(pos, lookaheadPos, lookaheadSize);
      var dstPos := (lookaheadPos + lookaheadSize) % DICT_SIZE;
      PutByte(dict, dstPos, c, hist, Max(pos - dictSize, |hist| - DICT_SIZE));
      hist := hist + [c];
      lookaheadSize := lookaheadSize + 1;
    }

    /** The byte of the dictionary `k` before its end. */
    lemma Behind(k: nat)
      requires Filling() && 1 <= k <= lookaheadSize + dictSize && k <= 3
      ensures dict[(|hist| - k) % DICT_SIZE] == hist[|hist| - k]
    {
      hide Window;
      WindowRead(dict[..], hist, Max(pos - dictSize, |hist| - DICT_SIZE), |hist| - k, 0);
    }

    /** The hash rolled along: over the last three bytes taken, or over two before the first. */
    ghost predicate Rolled(h: nat, start: bool)
      reads this
    {
      var n := |hist|;
      if start then n >= 2 && h == Xor(hist[n - 2] as int * 32, hist[n - 1]) else n >= 3 && h == HashAt(hist, n - 3)
    }

    /** Moves one byte in, rolls the hash on and enters the position two before it. */
    method TakeRolling(c: Byte, insPos: nat, h: nat, ghost start: bool) returns (h': nat)
      requires Filling() && Tables() && 2 <= lookaheadSize + dictSize && lookaheadSize < MAX_MATCH
      requires insPos == (|hist| - 2) % U32 && Rolled(h, start)
      modifies dict, next, hash, `lookaheadSize, `hist
      ensures Filling() && Tables() && hist == old(hist) + [c] && lookaheadSize == old(lookaheadSize) + 1
      ensures Rolled(h', false)
    {
      hide Window, Shorts16, Entered, Xor, HashAt, HashStep;
      ghost var was := hist;
      TakeByte(c);
      RollOn(was, c, h, start);
      h' := HashStep(h, c);
      EnteredLater(base, was, hist, first, |was| - 2);
      EnteredNext(base, hist, first, |was| - 2);
      Chain(insPos, h', |was| - 2);
    }

    /** Where to enter positions from on, and the hash of the two bytes there. */
    method StartRolling() returns (insPos: nat, h: nat)
      requires Filling() && lookaheadSize + dictSize >= 2
      ensures |hist| >= 2 && insPos == (|hist| - 2) % U32 && Rolled(h, true)
    {
      hide Window, Xor, HashAt;
      insPos := (lookaheadPos + lookaheadSize + U32 - 2) % U32;
      InsertAt(pos, lookaheadPos, lookaheadSize, 2);
      PositionAdd(|hist| - 2, insPos, 0);
      PositionAdd(|hist| - 2, insPos, 1);
      Behind(2);
      Behind(1);
      h := Xor(dict[insPos % DICT_SIZE] as int * 32, dict[(insPos + 1) % DICT_SIZE]);
    }

    /** Moves `end - i` bytes in, with a hash rolled along. */
    method FillRolling(src: seq<Byte>, i: nat, end: nat)
      requires Filling() && Tables() && lookaheadSize + dictSize >= 2
      requires i <= end <= |src| && lookaheadSize + (end - i) <= MAX_MATCH
      modifies dict, next, hash, `lookaheadSize, `hist
      ensures Filling() && Tables()
      ensures hist == old(hist) + src[i..end] && lookaheadSize == old(lookaheadSize) + (end - i)
    {
      hide Filling, Tables, Xor, HashAt;
      var insPos, h := StartRolling();
      var k := i;
      while k < end
        invariant i <= k <= end && Filling() && Tables() && lookaheadSize + dictSize >= 2
        invariant lookaheadSize == old(lookaheadSize) + (k - i) && hist == old(hist) + src[i..k]
        invariant |hist| >= 2 && insPos == (|hist| - 2) % U32 && Rolled(h, k == i)
      {
        h := TakeRolling(src[k], insPos, h, k == i);
        insPos := (insPos + 1) % U32;
        k := k + 1;
      }
    }

    /** Enters the position two before the last byte `c`. */
    method EnterLast(c: Byte)
      requires |hist| >= 1 && c == hist[|hist| - 1] && Filling() && lookaheadSize + dictSize >= 3 && Entries(|hist| - 3)
      modifies next, hash
      ensures Tables()
    {
      hide Window, Shorts16, Entered, Xor, HashAt, Hash3;
      var insPos := (lookaheadPos + lookaheadSize + U32 - 3) % U32;
      InsertAt(pos, lookaheadPos, lookaheadSize, 3);
      PositionAdd(|hist| - 3, insPos, 0);
      PositionAdd(|hist| - 3, insPos, 1);
      Behind(3);
      Behind(2);
      var h := Hash3(dict[insPos % DICT_SIZE], dict[(insPos + 1) % DICT_SIZE], c);
      HashThere(hist);
      EnteredNext(base, hist, first, |hist| - 3);
      Chain(insPos, h, |hist| - 3);
    }

    /** Moves bytes in while there are fewer than three to hash. */
    method FillFirst(src: seq<Byte>, i: nat) returns (k: nat)
      requires Filling() && Tables() && lookaheadSize + dictSize < 2 && i <= |src|
      modifies dict, next, hash, `lookaheadSize, `hist
      ensures Filling() && Tables() && i <= k <= |src| && hist == old(hist) + src[i..k]
      ensures lookaheadSize == old(lookaheadSize) + (k - i) && (k == |src| || lookaheadSize == MAX_MATCH)
    {
      hide Window, Entered;
      k := i;
      while k < |src| && lookaheadSize < MAX_MATCH
        invariant i <= k <= |src| && Filling() && Tables()
        invariant lookaheadSize == old(lookaheadSize) + (k - i) && hist == old(hist) + src[i..k]
      {
        var c := src[k];
        ghost var was := hist;
        TakeByte(c);
        EnteredLater(base, was, hist, first, |was| - 2);
        if lookaheadSize + dictSize >= MIN_MATCH {
          EnterLast(c);
        } else {
          NoneEntered(base, hist, first, |was| - 2);
        }
        k := k + 1;
      }
    }

    /** Fills the lookahead to 258 bytes as far as the source goes, and enters every new position that has
        two bytes after it in the chains. */
    method Fill(src: seq<Byte>, i: nat) returns (i': nat)
      requires Valid() && i <= |src|
      modifies dict, next, hash, `lookaheadSize, `dictSize, `hist
      ensures Valid() && i <= i' <= |src| && hist == old(hist) + src[i..i']
      ensures lookaheadSize == old(lookaheadSize) + (i' - i) && (i' == |src| || lookaheadSize == MAX_MATCH)
      ensures dictSize == if DICT_SIZE - lookaheadSize < old(dictSize) then DICT_SIZE - lookaheadSize else old(dictSize)
    {
      hide Window, Expand, Reaches, MatchAt, Holds, AllValid, Faith, PutOff, Shorts16, Entered;
      ghost var h0 := hist;
      ghost var codes := sent + open;
      FillStart();
      if lookaheadSize + dictSize >= MIN_MATCH - 1 {
        i' := if |src| - i < MAX_MATCH - lookaheadSize then |src| else i + (MAX_MATCH - lookaheadSize);
        FillRolling(src, i, i');
      } else {
        i' := FillFirst(src, i);
      }
      dictSize := if DICT_SIZE - lookaheadSize < dictSize then DICT_SIZE - lookaheadSize else dictSize;
      assert h0 <= hist;
      FaithLater(codes, h0, hist, Done());
      if savedMatchLen > 0 { PutOffLater(h0, hist, pos, savedLit, savedMatchLen, savedMatchDist); }
    }

    lemma FillStart()
      requires Shape() && Placed()
      ensures Filling()
    {
    }

    // ---- Parsing.

    /** The length a match must exceed. */
    ghost function Least(): nat
      reads this
    {
      if savedMatchLen > 0 then savedMatchLen else MIN_MATCH - 1
    }

    /** The search along the chain at the lookahead. */
    ghost function Asked(): Query
      reads this, next
    {
      Query(next[..], hist, pos, lookaheadPos, dictSize, lookaheadSize,
        if Least() >= 32 then maxProbes1 else maxProbes0, Best(0, Least()))
    }

    /** What there is to take at the lookahead: the run of the byte before it, or what the chain gives. */
    ghost predicate Offers(b: Best)
      reads this, next
    {
      if raw || (rle && dictSize == 0) then
        b == Best(0, Least())
      else if rle then
        && 1 <= pos && pos + lookaheadSize <= |hist|
        && var n := AgreeFrom(hist, pos, 1, 0, lookaheadSize); b == if n < MIN_MATCH then Best(0, 0) else Best(1, n)
      else
        Asked().Valid() && exists k: nat :: Asked().Ends(k) && b == Asked().After(k)
    }

    /** Matches that do not pay, and a distance that looks like the position. */
    ghost function Kept(b: Best): Best
      reads this
    {
      if (b.len == MIN_MATCH && b.dist >= 8192) || lookaheadPos % DICT_SIZE == b.dist || (filter && b.len <= 5)
      then Best(0, 0)
      else b
    }

    /** The longest usable match at the lookahead, and whether to take it. */
    method Search() returns (len: nat, dist: nat, ghost offer: Best)
      requires Valid() && lookaheadSize >= 1
      ensures Offers(offer) && Best(dist, len) == Kept(offer)
      ensures dist > 0 ==> MIN_MATCH <= len <= lookaheadSize && dist <= DICT_SIZE && MatchAt(hist, pos, len, dist)
      ensures len > savedMatchLen > 0 ==> dist > 0
      ensures dist > 0 ==> !raw
    {
      hide Window, Expand, Reaches, MatchAt, Holds, AllValid, Faith, PutOff, Entered, Query.After, Query.Stops;
      len, dist := if savedMatchLen > 0 then savedMatchLen else MIN_MATCH - 1, 0;
      SavedRange();
      WindowSpan(dict[..], hist, pos - dictSize);
      if rle || raw {
        if dictSize > 0 && !raw {
          len := RunLength(dict, lookaheadPos, lookaheadSize, hist, pos, pos - dictSize);
          if len < MIN_MATCH { len := 0; } else { dist := 1; }
        }
      } else {
        ghost var len0 := len;
        ghost var k;
        dist, len, k := FindMatch(dict, next, lookaheadPos, dictSize, lookaheadSize,
                                  if len >= 32 then maxProbes1 else maxProbes0, 0, len, hist, pos);
        assert Asked().Ends(k) && Best(dist, len) == Asked().After(k);
        if len > len0 { MatchReach(hist, pos, len, dist); }
      }
      offer := Best(dist, len);
      if (len == MIN_MATCH && dist >= 8192) || lookaheadPos % DICT_SIZE == dist || (filter && len <= 5) {
        len, dist := 0, 0;
      }
    }

    /** The search is along chains that lead to every position in reach with the same hash. */
    lemma SearchLinked()
      requires Valid() && lookaheadSize >= MIN_MATCH
      ensures Linked(Asked(), base, first, |hist| - 2)
    {
      hide Window, Expand, Reaches, MatchAt, Holds, AllValid, Faith, PutOff, Entered;
      SavedRange();
      WindowSpan(dict[..], hist, pos - dictSize);
      assert Entered(base, hist, first, |hist| - 2).Valid();
    }

    /** A search that ends before its probes and before the lookahead has found the longest match there is,
        but for positions beyond one that goes unseen. */
    lemma Exhaustive(seen: nat, y: int)
      requires Valid() && lookaheadSize >= MIN_MATCH && Asked().Valid() && Asked().Ends(seen)
      requires Asked().Left(seen).rounds != 0 && Asked().After(seen).len < lookaheadSize
      requires pos - dictSize <= y < pos && forall z :: Alike(Asked(), z) && y <= z ==> !Blind(z)
      ensures AgreeFrom(hist, pos, pos - y, 0, lookaheadSize) <= Asked().After(seen).len
    {
      hide Window, Expand, Reaches, MatchAt, Holds, AllValid, Faith, PutOff, Entered, Linked, Alike, Blind;
      hide Query.Valid, Query.Ends, Query.Left, Query.After, Query.Stops;
      SearchLinked();
      SavedRange();
      NothingMissed(Asked(), base, first, |hist| - 2, seen, y);
    }

    lemma SavedRange()
      requires Pending()
      ensures savedMatchLen > 0 ==> MIN_MATCH <= savedMatchLen < 128 && !rle && !raw
    {
    }

    /** The byte at the lookahead. */
    method Current() returns (c: Byte)
      requires Shape() && Placed() && lookaheadSize >= 1
      ensures c == hist[pos]
    {
      hide Window;
      PositionModulo(pos, lookaheadPos);
      WindowRead(dict[..], hist, pos - dictSize, pos, 0);
      c := dict[lookaheadPos % DICT_SIZE];
    }

    /** Advances the lookahead over `n` parsed bytes. */
    method Advance(n: nat)
      requires Shape() && Placed() && n <= lookaheadSize
      modifies `lookaheadPos, `lookaheadSize, `dictSize, `pos
      ensures Placed() && pos == old(pos) + n && lookaheadSize == old(lookaheadSize) - n
      ensures dictSize == if old(dictSize) + n < DICT_SIZE then old(dictSize) + n else DICT_SIZE
    {
      hide Window;
      WindowSpan(dict[..], hist, pos - dictSize);
      lookaheadPos := (lookaheadPos + n) % U32;
      lookaheadSize := lookaheadSize - n;
      dictSize := if dictSize + n < DICT_SIZE then dictSize + n else DICT_SIZE;
      pos := pos + n;
    }

    /** Decided how far to move: the codes cover that much, or a match is put off. */
    ghost predicate Decided(n: nat)
      reads this, dict, next, hash, buf
    {
      && Shape() && Tables() && Placed() && 1 <= n <= lookaheadSize
      && (savedMatchLen > 0 ==>
        n == 1 && PutOff(hist, pos + 1, savedLit, savedMatchLen, savedMatchDist) && !rle && !raw)
      && Books(if savedMatchLen > 0 then pos else pos + n)
    }

    /** What the parser makes of a match: a put-off match gives way only to a longer one, and a match is put
        off unless it is long or the parser does not wait. */
    ghost function Chosen(b: Best): Choice
      requires pos < |hist|
      reads this
    {
      if 0 < savedMatchLen < b.len then
        if b.len >= 128 then Choice([Lit(savedLit), Match(b.len, b.dist)], 0, b.len)
        else Choice([Lit(savedLit)], b.len, 1)
      else if savedMatchLen > 0 then
        Choice([Match(savedMatchLen, savedMatchDist)], 0, savedMatchLen - 1)
      else if b.dist == 0 then
        Choice([Lit(hist[pos])], 0, 1)
      else if greedy || rle || b.len >= 128 then
        Choice([Match(b.len, b.dist)], 0, b.len)
      else
        Choice([], b.len, 1)
    }

    /** A put-off match gives way to a longer one, or is taken. */
    method ResolveSaved(len: nat, dist: nat) returns (move: nat)
      requires Valid() && savedMatchLen > 0 && lookaheadSize >= 1 && codeAt <= CODE_BUF_SIZE - 8
      requires len > savedMatchLen ==> len <= lookaheadSize && 1 <= dist <= DICT_SIZE && MatchAt(hist, pos, len, dist)
      modifies buf, `codeAt, `flagsAt, `flagsLeft, `totalLzBytes, `open, `savedLit, `savedMatchDist, `savedMatchLen
      ensures Decided(move) && codeAt <= old(codeAt) + 6
      ensures open == old(open) + old(Chosen(Best(dist, len))).codes && move == old(Chosen(Best(dist, len))).move
      ensures savedMatchLen == old(Chosen(Best(dist, len))).len
      ensures savedMatchLen > 0 ==> savedLit == hist[pos] && savedMatchDist == dist
    {
      hide Window, Expand, Reaches, MatchAt, Holds, AllValid, Faith, PutOff, Shorts16, Entered;
      SavedRange();
      SavedLit();
      if len > savedMatchLen {
        RecordLiteral(savedLit, pos - 1);
        if len >= 128 {
          RecordMatch(len, dist, pos);
          savedMatchLen, move := 0, len;
        } else {
          Save(len, dist);
          move := 1;
        }
      } else {
        RecordMatch(savedMatchLen, savedMatchDist, pos - 1);
        savedMatchLen, move := 0, savedMatchLen - 1;
      }
    }

    /** With nothing put off: a literal, a match, or a match put off. */
    method ParseFresh(len: nat, dist: nat) returns (move: nat)
      requires Valid() && savedMatchLen == 0 && lookaheadSize >= 1 && codeAt <= CODE_BUF_SIZE - 8
      requires dist > 0 ==> MIN_MATCH <= len <= lookaheadSize && dist <= DICT_SIZE && MatchAt(hist, pos, len, dist)
      requires dist > 0 ==> !raw
      modifies buf, `codeAt, `flagsAt, `flagsLeft, `totalLzBytes, `open, `savedLit, `savedMatchDist, `savedMatchLen
      ensures Decided(move) && codeAt <= old(codeAt) + 6
      ensures open == old(open) + old(Chosen(Best(dist, len))).codes && move == old(Chosen(Best(dist, len))).move
      ensures savedMatchLen == old(Chosen(Best(dist, len))).len
      ensures savedMatchLen > 0 ==> savedLit == hist[pos] && savedMatchDist == dist
    {
      hide Window, Expand, Reaches, MatchAt, Holds, AllValid, Faith, PutOff, Shorts16, Entered;
      move := 1;
      if dist == 0 {
        var c := Current();
        RecordLiteral(c, pos);
      } else if greedy || rle || len >= 128 {
        RecordMatch(len, dist, pos);
        move := len;
      } else {
        Save(len, dist);
      }
    }

    /** One step of the lazy parser: records what is certain, or puts a match off. */
    method ParseStep() returns (ghost offer: Best)
      requires Valid() && lookaheadSize >= 1 && codeAt <= CODE_BUF_SIZE - 8
      modifies this, buf
      ensures Valid() && hist == old(hist) && sent == old(sent) && blockIndex == old(blockIndex)
      ensures old(pos) < pos <= |hist| && codeAt <= old(codeAt) + 6
      ensures old(Offers(offer))
      ensures var c := old(Chosen(Kept(offer)));
        && open == old(open) + c.codes && pos == old(pos) + c.move && savedMatchLen == c.len
        && (c.len > 0 ==> savedLit == hist[old(pos)] && savedMatchDist == old(Kept(offer)).dist)
    {
      hide Window, Expand, Reaches, MatchAt, Holds, AllValid, Faith, PutOff, Shorts16, Entered;
      hide Chosen, Kept, Offers, Tables, Shape;
      var len, dist;
      len, dist, offer := Search();
      var move;
      if savedMatchLen > 0 {
        move := ResolveSaved(len, dist);
      } else {
        move := ParseFresh(len, dist);
      }
      Advance(move);
    }

    lemma SavedLit()
      requires Placed() && Pending() && savedMatchLen > 0
      ensures 1 <= pos && hist[pos - 1] == savedLit && Match(savedMatchLen, savedMatchDist).Valid()
      ensures MatchAt(hist, pos - 1, savedMatchLen, savedMatchDist) && savedMatchLen - 1 <= lookaheadSize
    {
    }

    /** Puts the match off by one byte. */
    method Save(len: nat, dist: nat)
      requires Shape() && Placed() && lookaheadSize >= 1
      requires MIN_MATCH <= len < 128 && dist <= DICT_SIZE && MatchAt(hist, pos, len, dist)
      modifies `savedLit, `savedMatchDist, `savedMatchLen
      ensures savedMatchLen == len && savedMatchDist == dist && savedLit == hist[pos]
      ensures PutOff(hist, pos + 1, savedLit, savedMatchLen, savedMatchDist)
    {
      hide Window, MatchAt;
      savedLit := Current();
      savedMatchDist, savedMatchLen := dist, len;
    }

    /** Records a literal: the next byte of the history. */
    method RecordLiteral(b: Byte, ghost p: nat)
      requires Books(p) && p < |hist| && hist[p] == b && codeAt + 4 <= CODE_BUF_SIZE
      modifies buf, `codeAt, `flagsAt, `flagsLeft, `totalLzBytes, `open
      ensures Books(p + 1) && codeAt <= old(codeAt) + 2 && open == old(open) + [Lit(b)]
    {
      hide Expand, Reaches, Holds, AllValid, Faith;
      ghost var codes := sent + open;
      Record(Lit(b));
      FaithLit(codes, hist, p, b);
      assert codes + [Lit(b)] == sent + open;
    }

    /** Records a match with bytes already in the history. */
    method RecordMatch(len: nat, dist: nat, ghost p: nat)
      requires Books(p) && Match(len, dist).Valid() && MatchAt(hist, p, len, dist) && codeAt + 4 <= CODE_BUF_SIZE
      modifies buf, `codeAt, `flagsAt, `flagsLeft, `totalLzBytes, `open
      ensures Books(p + len) && codeAt <= old(codeAt) + 4 && open == old(open) + [Match(len, dist)]
    {
      hide Expand, Reaches, Holds, AllValid, Faith, MatchAt;
      ghost var codes := sent + open;
      Record(Match(len, dist));
      FaithMatch(codes, hist, p, len, dist);
      assert codes + [Match(len, dist)] == sent + open;
    }

    // ---- Blocks.

    /** Closes the code buffer and replays it. */
    method CloseAndReplay() returns (block: seq<LzCode>)
      requires Shape() && Holds(buf[..], open, codeAt, flagsAt, flagsLeft)
      modifies buf
      ensures block == open
    {
      hide Holds, AllValid, Packed, Pow2Small;
      ghost var b := buf[..];
      HoldsShape(b, open, codeAt, flagsAt, flagsLeft);
      buf[flagsAt] := ShiftDown(buf[flagsAt], flagsLeft);
      CloseBuffer(b, buf[..], open, codeAt, flagsAt, flagsLeft);
      var end := if flagsLeft == 8 then codeAt - 1 else codeAt;
      assert buf[..][..end] == buf[..end];
      block := Replay(buf, end, open);
    }

    /** Hands the open codes to the block writer and starts over with an empty buffer. */
    method FlushBlock() returns (block: seq<LzCode>)
      requires Valid()
      modifies buf, `codeAt, `flagsAt, `flagsLeft, `totalLzBytes, `open, `sent, `blockDictPos, `blockIndex
      ensures Valid() && block == old(open) && open == [] && sent == old(sent) + block
      ensures codeAt == 1 && blockIndex == old(blockIndex) + 1
    {
      hide Window, Expand, Reaches, MatchAt, Holds, AllValid, Faith, PutOff, Shorts16, Entered;
      block := CloseAndReplay();
      StartOver(block);
    }

    /** Counts the codes of the block as handed over and empties the buffer. */
    method StartOver(block: seq<LzCode>)
      requires Shape() && Tables() && Placed() && Pending() && block == open && Done() >= 0
      requires Faith(sent + open, hist, Done())
      requires |Expand(sent)| + totalLzBytes == Done() && blockDictPos == |Expand(sent)| % U32
      modifies `codeAt, `flagsAt, `flagsLeft, `totalLzBytes, `open, `sent, `blockDictPos, `blockIndex
      ensures Valid() && open == [] && sent == old(sent) + block && codeAt == 1 && blockIndex == old(blockIndex) + 1
    {
      hide Window, Expand, Reaches, MatchAt, Holds, AllValid, Faith, PutOff, Shorts16, Entered;
      NothingOpen(buf[..], sent, block, hist, Done(), totalLzBytes);
      blockDictPos := (blockDictPos + totalLzBytes) % U32;
      sent := sent + block;
      open := [];
      codeAt, flagsAt, flagsLeft, totalLzBytes, blockIndex := 1, 0, 8, 0, blockIndex + 1;
    }

    /** The bytes of the open block taken from the dictionary, when they are all still there. */
    method RawBlock() returns (ok: bool, bytes: seq<Byte>)
      requires Valid()
      ensures ok <==> pos - |Expand(sent)| <= dictSize
      ensures ok ==> |Expand(sent)| + |bytes| == Done() && bytes == hist[|Expand(sent)|..Done()]
    {
      hide Window, Expand, Reaches, MatchAt, Holds, AllValid, Faith, PutOff, Packed;
      ghost var start := |Expand(sent)|;
      BlockSpan(buf[..], sent, open, hist, Done(), codeAt, flagsAt, flagsLeft);
      Difference(pos, start);
      bytes := [];
      ok := (lookaheadPos + U32 - blockDictPos) % U32 <= dictSize;
      if ok {
        var i := 0;
        while i < totalLzBytes
          invariant 0 <= i <= totalLzBytes && bytes == hist[start..start + i]
        {
          WindowRead(dict[..], hist, pos - dictSize, start + i, 0);
          PositionAdd(start, blockDictPos, i);
          bytes := bytes + [dict[(blockDictPos + i) % DICT_SIZE]];
          i := i + 1;
        }
      }
    }

    /** Forgets the dictionary: later matches will not reach back. */
    method ResetDictionary()
      requires Valid() && lookaheadSize == 0
      modifies next, hash, `dictSize, `first, `base
      ensures Valid() && dictSize == 0 && first == pos
      ensures (forall i :: 0 <= i < next.Length ==> next[i] == 0) && forall i :: 0 <= i < hash.Length ==> hash[i] == 0
    {
      hide Expand, Reaches, MatchAt, Holds, AllValid, Faith, PutOff, Window, Entered, Pending, Books;
      WindowNarrow(dict[..], hist, pos - dictSize, pos);
      forall i | 0 <= i < hash.Length { hash[i] := 0; }
      forall i | 0 <= i < next.Length { next[i] := 0; }
      dictSize, first, base := 0, pos, Chains(next[..], hash[..]);
      NoneEntered(base, hist, first, |hist| - 2);
      assert dict[..] == old(dict[..]) && buf[..] == old(buf[..]);
    }

    /** The codes handed over reach back no further than they may. */
    lemma SentReaches()
      requires Valid()
      ensures Reaches(sent + [])
    {
      hide Window, Expand, MatchAt, Holds, PutOff, Shorts16, Entered;
      assert sent + [] == sent;
      forall i | 0 <= i < |sent| && sent[i].Match? ensures 1 <= sent[i].dist <= |Expand(sent[..i])| {
        assert (sent + open)[i] == sent[i] && (sent + open)[..i] == sent[..i];
      }
    }

    /** What is known of the open codes. */
    lemma OpenFacts()
      requires Valid()
      ensures AllValid(open) && |open| < 0xFFFF && Reaches(sent + open) && Expand(sent + open) == hist[..Done()]
      ensures |Expand(sent)| + totalLzBytes == Done() && dictSize <= DICT_SIZE && Expand(sent) <= hist[..Done()]
    {
      hide Window, Expand, Reaches, MatchAt, Holds, PutOff, Shorts16, Entered;
      HoldsShape(buf[..], open, codeAt, flagsAt, flagsLeft);
      CountBytes(buf[..], open, codeAt, flagsAt, flagsLeft);
      WindowSpan(dict[..], hist, pos - dictSize);
      ExpandPrefix(sent, open);
    }

    lemma BufferHolds()
      requires Valid()
      ensures Holds(buf[..], open, codeAt, flagsAt, flagsLeft) && buf.Length == CODE_BUF_SIZE
    {
      hide Window, Expand, Reaches, MatchAt, Holds, AllValid, Faith, PutOff, Shorts16, Entered;
    }

    lemma NothingPutOff()
      requires Valid()
      ensures pos + lookaheadSize == |hist| && (lookaheadSize == 0 ==> savedMatchLen == 0)
    {
      hide Window, Expand, Reaches, Holds, AllValid, Faith, Shorts16, Entered;
    }
  }

  /** More codes only add bytes. */
  lemma {:induction false} ExpandPrefix(sent: seq<LzCode>, open: seq<LzCode>)
    ensures Expand(sent) <= Expand(sent + open)
    decreases |open|
  {
    hide Expand;
    if open == [] {
      assert sent + open == sent;
    } else {
      var n := |open| - 1;
      ExpandPrefix(sent, open[..n]);
      assert sent + open == (sent + open[..n]) + [open[n]];
      ExpandNext(sent + open[..n], open[n]);
      ApplyPrefix(Expand(sent + open[..n]), open[n]);
    }
  }

  lemma ApplyPrefix(out: seq<Byte>, c: LzCode)
    ensures out <= Apply(out, c)
  {
    if c.Match? && 1 <= c.dist <= |out| { CopyPrefix(out, c.dist, c.len); }
  }

  lemma {:induction false} CopyPrefix(out: seq<Byte>, dist: nat, len: nat)
    requires 1 <= dist <= |out|
    ensures out <= Copy(out, dist, len)
    decreases len
  {
    if len > 0 { CopyPrefix(out + [out[|out| - dist]], dist, len - 1); }
  }

  lemma NothingOpen(b: seq<Byte>, sent: seq<LzCode>, block: seq<LzCode>, h: seq<Byte>, p: nat, total: nat)
    requires |b| >= 1 && Faith(sent + block, h, p) && |Expand(sent)| + total == p
    ensures Holds(b, [], 1, 0, 8) && Faith((sent + block) + [], h, p) && |Expand(sent + block)| == p
    ensures (|Expand(sent)| % U32 + total) % U32 == p % U32
  {
    hide Expand, Reaches;
    HoldsNothing(b);
    assert (sent + block) + [] == sent + block;
    ModSum(|Expand(sent)|, total);
  }

  function ShiftDown(f: Byte, k: nat): (r: Byte)
    requires k <= 8
    ensures r as int == f as int / Pow2Small(k)
  {
    f / Pow2Small(k)
  }

  lemma ModSum(a: nat, b: nat)
    ensures (a % U32 + b) % U32 == (a + b) % U32
  {
  }

  /** Positions compared as 32-bit numbers. */
  lemma Difference(p: nat, start: nat)
    requires start <= p < start + U32
    ensures (p % U32 + U32 - start % U32) % U32 == p - start
  {
  }

  /** An open block covers less than two to the 32 bytes. */
  lemma BlockSpan(b: seq<Byte>, sent: seq<LzCode>, open: seq<LzCode>, h: seq<Byte>, p: nat, codeAt: nat, flagsAt: nat,
                  flagsLeft: nat)
    requires Faith(sent + open, h, p) && Holds(b, open, codeAt, flagsAt, flagsLeft) && |b| <= CODE_BUF_SIZE
    ensures |Expand(sent)| <= p < |Expand(sent)| + U32 - 1
  {
    hide Expand, Reaches;
    CountBytes(b, open, codeAt, flagsAt, flagsLeft);
    SplitExpand(sent, open);
  }

  /** Every recorded code takes at least a byte. */
  lemma CountBytes(b: seq<Byte>, codes: seq<LzCode>, codeAt: nat, flagsAt: nat, flagsLeft: nat)
    requires Holds(b, codes, codeAt, flagsAt, flagsLeft)
    ensures |codes| <= codeAt - 1 - |codes| / 8
  {
    hide Flags, Packed, Bytes;
    PackedLong(Whole(codes));
    BytesLong(Part(codes));
  }

  lemma {:induction false} BytesLong(codes: seq<LzCode>)
    requires AllValid(codes)
    ensures |Bytes(codes)| >= |codes|
  {
    if codes != [] { BytesLong(codes[1..]); }
  }

  lemma {:induction false} PackedLong(codes: seq<LzCode>)
    requires AllValid(codes) && |codes| % 8 == 0
    ensures |Packed(codes)| >= |codes| + |codes| / 8
    decreases |codes|
  {
    hide Flags, Bytes, Packed;
    if codes != [] {
      PackedUnfold(codes);
      BytesLong(codes[..8]);
      PackedLong(codes[8..]);
    }
  }

  lemma StartFacts(d: seq<Byte>, b: seq<Byte>)
    requires |d| == DICT_LEN && |b| >= 1
    ensures Window(d, [], 0) && Faith([] + [], [], 0) && Holds(b, [], 1, 0, 8) && |Expand([])| == 0
  {
    HoldsNothing(b);
  }

  lemma WindowSpan(d: seq<Byte>, h: seq<Byte>, lo: nat)
    requires Window(d, h, lo)
    ensures lo <= |h| <= lo + DICT_SIZE
  {
  }

  lemma PositionAdd(p: nat, lookaheadPos: nat, k: nat)
    requires lookaheadPos == p % U32
    ensures (lookaheadPos + k) % DICT_SIZE == (p + k) % DICT_SIZE
  {
    var a, b := p / U32, (lookaheadPos + k) / DICT_SIZE;
    assert lookaheadPos + k == DICT_SIZE * b + (lookaheadPos + k) % DICT_SIZE;
    ModIs(p + k, 131072 * a + b, (lookaheadPos + k) % DICT_SIZE);
  }

  /** A position some bytes before the end of the lookahead, as a 32-bit number. */
  lemma InsertAt(p: nat, lookaheadPos: nat, size: nat, k: nat)
    requires lookaheadPos == p % U32 && k <= p + size && k <= 3
    ensures (lookaheadPos + size + U32 - k) % U32 == (p + size - k) % U32
  {
  }

  lemma LowSixteen(x: nat, insPos: nat)
    requires insPos == x % U32
    ensures insPos % 0x10000 == x % 0x10000
  {
  }

  lemma RollOn(h: seq<Byte>, c: Byte, hash: nat, start: bool)
    requires |h| >= 2
    requires if start then hash == Xor(h[|h| - 2] as int * 32, h[|h| - 1]) else |h| >= 3 && hash == HashAt(h, |h| - 3)
    ensures HashStep(hash, c) == HashAt(h + [c], |h| - 2)
  {
    hide Xor, HashStep, Hash3;
    var n := |h|;
    if start { FirstStep(h[n - 2], h[n - 1], c); } else { RollingHash(h[n - 3], h[n - 2], h[n - 1], c); }
  }

  lemma HashThere(h: seq<Byte>)
    requires |h| >= 3
    ensures HashAt(h, |h| - 3) == Hash3(h[|h| - 3], h[|h| - 2], h[|h| - 1])
  {
  }

  lemma EnteredNext(t: Chains, h: seq<Byte>, first: nat, end: nat)
    requires t.Valid() && first <= end && end + 3 <= |h|
    ensures Entered(t, h, first, end + 1) == Entered(t, h, first, end).Enter(end, HashAt(h, end))
  {
  }

  lemma NoneEntered(t: Chains, h: seq<Byte>, first: nat, end: int)
    requires t.Valid() && end < first
    ensures Entered(t, h, first, end) == Entered(t, h, first, end + 1) == t
  {
  }

  lemma HoldsShape(b: seq<Byte>, codes: seq<LzCode>, codeAt: nat, flagsAt: nat, flagsLeft: nat)
    requires Holds(b, codes, codeAt, flagsAt, flagsLeft)
    ensures flagsAt < codeAt <= |b| && 1 <= flagsLeft <= 8 && AllValid(codes)
  {
    hide Packed, Flags, Bytes;
  }
}
