/** The decompressor: from bytes to bytes, through lookup tables and a bit register, into an output
    buffer. On any input it does what `InflateSpec` says. */
module Inflate {
  import opened Values
  import opened Kraft
  import opened Bits
  import opened Canonical
  import opened DecodeTable
  import opened LengthPacking
  import opened BitStream
  import opened HuffmanReader
  import opened Deflate
  import opened InflateSpec
  import opened InflateBounds

  // ---- Matches.

  /** Memory from `at` on is as it was. */
  ghost predicate Clean(now: seq<Byte>, mem: seq<Byte>, at: nat) {
    at <= |now| == |mem| && now[at..] == mem[at..]
  }

  lemma CleanSize(now: seq<Byte>, mem: seq<Byte>, at: nat)
    requires Clean(now, mem, at)
    ensures at <= |now| == |mem|
  {
  }

  /** Copies one byte from `dist` back. */
  method CopyByte(out: array<Byte>, at: nat, dist: nat, ghost left: nat, ghost mem: seq<Byte>)
    requires dist <= at < out.Length && left > 0 && Clean(out[..], mem, at)
    modifies out
    ensures Clean(out[..], mem, at + 1)
    ensures CopyFrom(out[..at + 1], mem, dist, left - 1) == CopyFrom(old(out[..at]), mem, dist, left)
  {
    ghost var before := out[..at];
    assert out[at] == out[..][at..][0] == mem[at];
    out[at] := out[at - dist];
    assert out[..at + 1] == before + [if dist == 0 then Cell(mem, at) else before[at - dist]];
    assert out[..][at + 1..] == old(out[..])[at..][1..];
  }

  /** Copies three bytes and then, three at a time, what is left; the last one or two singly. */
  method CopyThrees(out: array<Byte>, at: nat, dist: nat, len: nat, ghost mem: seq<Byte>) returns (at': nat)
    requires dist <= at && at + AtLeastThree(len) <= out.Length && Clean(out[..], mem, at)
    modifies out
    ensures at' == at + AtLeastThree(len) && Clean(out[..], mem, at')
    ensures out[..at'] == CopyFrom(old(out[..at]), mem, dist, AtLeastThree(len))
  {
    hide CopyFrom, Clean;
    ghost var goal := CopyFrom(out[..at], mem, dist, AtLeastThree(len));
    at' := at;
    var left: int := len;
    var first := true;
    while first || left > 2
      invariant first ==> at' == at && left == len
      invariant !first ==> at' == at + len - left && (if len < 3 then left == len - 3 else left >= 0)
      invariant at <= at' <= at + AtLeastThree(len) && Clean(out[..], mem, at')
      invariant CopyFrom(out[..at'], mem, dist, at + AtLeastThree(len) - at') == goal
      decreases first, left
    {
      ghost var todo := at + AtLeastThree(len) - at';
      CopyByte(out, at', dist, todo, mem);
      CopyByte(out, at' + 1, dist, todo - 1, mem);
      CopyByte(out, at' + 2, dist, todo - 2, mem);
      at', left, first := at' + 3, left - 3, false;
    }
    if left > 0 {
      CopyByte(out, at', dist, left, mem);
      if left > 1 { CopyByte(out, at' + 1, dist, left - 1, mem); }
      at' := at' + left;
    }
    CopyNothing(out[..at'], mem, dist);
  }

  lemma CopyNothing(out: seq<Byte>, mem: seq<Byte>, dist: nat)
    requires dist <= |out|
    ensures CopyFrom(out, mem, dist, 0) == out
  {
  }

  /** Copies bytes singly, up to `end`. */
  method CopyAsFar(out: array<Byte>, end: nat, at: nat, dist: nat, len: nat, ghost mem: seq<Byte>)
    returns (full: bool, at': nat)
    requires dist <= at <= out.Length && end <= out.Length && at + len > end && Clean(out[..], mem, at)
    modifies out
    ensures full <==> len > 0
    ensures at' == (if at < end then end else at) && Clean(out[..], mem, at')
    ensures out[..at'] == CopyFrom(old(out[..at]), mem, dist, at' - at)
  {
    hide CopyFrom, Clean;
    ghost var n := if at < end then end - at else 0;
    ghost var goal := CopyFrom(out[..at], mem, dist, n);
    at' := at;
    var left := len;
    while left > 0
      invariant 0 <= left <= len && at' == at + (len - left) <= at + n && Clean(out[..], mem, at')
      invariant CopyFrom(out[..at'], mem, dist, at + n - at') == goal
    {
      if at' >= end {
        CopyNothing(out[..at'], mem, dist);
        return true, at';
      }
      CopyByte(out, at', dist, at + n - at', mem);
      at', left := at' + 1, left - 1;
    }
    CopyNothing(out[..at'], mem, dist);
    full := false;
  }

  /** Copies a match into the output that may be `end` bytes long. A length of zero passes the test
      for room whenever `at` is not past the end, and three bytes are copied; `Overrun` when memory
      does not go that far. */
  method CopyMatch(out: array<Byte>, end: nat, at: nat, dist: nat, len: nat, ghost mem: seq<Byte>)
    returns (status: Status, at': nat)
    requires dist <= at <= out.Length && end <= out.Length && Clean(out[..], mem, at)
    modifies out
    ensures at' <= out.Length && Clean(out[..], mem, at')
    ensures var p := CopyInto(old(out[..at]), mem, end, dist, len);
      if |p| > out.Length then
        status == Overrun && at' == at && out[..at] == old(out[..at]) && at + len <= end && |p| == at + 3
      else status == (if len == 0 || at + len <= end then Done else HasMoreOutput) && out[..at'] == p
  {
    hide CopyFrom, Clean;
    if at + len > end {
      var full;
      full, at' := CopyAsFar(out, end, at, dist, len, mem);
      if at >= end { CopyNothing(old(out[..at]), mem, dist); }
      return if full then HasMoreOutput else Done, at';
    }
    if at + AtLeastThree(len) > out.Length { return Overrun, at; }
    at' := CopyThrees(out, at, dist, len, mem);
    status := Done;
  }

  // ---- Symbols.

  /** Takes the extra bits of a length or distance. */
  method GetExtra(r: BitReader, n: nat) returns (ok: bool, v: nat)
    requires r.Valid() && n <= 13
    modifies r
    ensures r.Valid()
    ensures ok <==> |old(r.Rest())| >= n
    ensures ok ==> v == Field(old(r.Rest()), n) && r.Rest() == old(r.Rest())[n..]
  {
    hide LsbBits, Pow2, BitsOf;
    ok, v := true, 0;
    if n > 0 { ok, v := r.GetBits(n); }
  }

  /** The decoder's tables for a code. */
  class Table {
    const lookup: array<int>
    const tree: array<int>
    ghost const sizes: seq<nat>

    ghost predicate Valid()
      reads this, lookup, tree
    {
      Built(sizes, lookup[..], tree[..])
    }

    constructor (lookup: array<int>, tree: array<int>, ghost sizes: seq<nat>)
      requires Built(sizes, lookup[..], tree[..])
      ensures Valid() && this.lookup == lookup && this.tree == tree && this.sizes == sizes
    {
      this.lookup, this.tree, this.sizes := lookup, tree, sizes;
    }

    /** The next symbol. */
    method Next(r: BitReader) returns (ok: bool, sym: nat)
      requires Valid() && r.Valid()
      modifies r
      ensures r.Valid() && Valid()
      ensures ok <==> NextOf(sizes, old(r.Rest())).Symbol?
      ensures ok ==> sym == NextOf(sizes, old(r.Rest())).sym
      ensures ok ==> r.Rest() == old(r.Rest())[NextOf(sizes, old(r.Rest())).len..]
    {
      hide Built, NextOf, BitsOf, LsbBits, Pow2;
      ok, sym := HuffDecode(r, lookup, tree, sizes);
    }
  }

  /** The tables for given lengths; none when the code is neither complete nor a single symbol. */
  method MakeTable(sizes: seq<nat>) returns (t: Table?)
    requires Lengths(sizes)
    ensures t != null <==> Accepted(sizes)
    ensures t != null ==> fresh(t) && t.Valid() && t.sizes == sizes
  {
    hide Built, Accepted, Lengths;
    var ok, lookup, tree := BuildTables(sizes);
    if !ok { return null; }
    t := new Table(lookup, tree, sizes);
  }

  /** Takes the rest of a match after its length symbol. */
  method ReadMatch(r: BitReader, table: Table, sym: nat) returns (ok: bool, len: nat, dist: nat)
    requires r.Valid() && table.Valid() && |table.sizes| <= 32 && 256 < sym < 288
    modifies r
    ensures r.Valid() && table.Valid()
    ensures var t := MatchOf(table.sizes, sym, old(r.Rest()));
      if ok then t == Copying(sym, len, dist, r.Rest()) else t == Short
  {
    hide Built, NextOf, BitsOf, LsbBits, Pow2, Field, LenBits, LenBase, DistBits, DistBase;
    len, dist := 0, 0;
    var x, d, y;
    ok, x := GetExtra(r, LenBits(sym));
    if !ok { return; }
    ok, d := table.Next(r);
    if !ok { return; }
    ok, y := GetExtra(r, DistBits(d));
    if !ok { return; }
    len, dist := LenBase(sym) + x, DistBase(d) + y;
  }

  // ---- The body of a block.

  /** What was asked for came about: the status and the bytes of `o`; when memory does not go as far
      as its bytes, all but the last three of them. */
  ghost predicate Meets(o: Outcome, status: Status, at: nat, now: seq<Byte>, mem: seq<Byte>) {
    && Clean(now, mem, at) && at <= |o.out| && now[..at] == o.out[..at]
    && if |o.out| > |mem| then status == Overrun && |o.out| == at + 3 else status == o.status && |o.out| == at
  }

  lemma MeetsWhole(o: Outcome, status: Status, at: nat, now: seq<Byte>, mem: seq<Byte>)
    requires Meets(o, status, at, now, mem) && status != Overrun
    ensures o.status == status && now[..at] == o.out
  {
    hide Clean;
    assert o.out[..at] == o.out;
  }

  /** Writes a literal. */
  method PutByte(out: array<Byte>, at: nat, b: Byte, ghost mem: seq<Byte>)
    requires at < out.Length && Clean(out[..], mem, at)
    modifies out
    ensures Clean(out[..], mem, at + 1) && out[..at + 1] == old(out[..at]) + [b]
  {
    out[at] := b;
    assert out[..][at + 1..] == old(out[..])[at..][1..];
  }

  /** What a turn leaves: the output after it; when memory does not go that far, the one before. */
  ghost predicate Turned(t: Turn, going: bool, status: Status, at: nat, end: nat, before: seq<Byte>, now: seq<Byte>,
                         mem: seq<Byte>, at': nat) {
    && Clean(now, mem, at')
    && var p := Put(t, mem, end, before);
       if |p| > |mem| then
         !going && status == Overrun && at' == at && now[..at'] == before && Goes(t, at, end) && |p| == at + 3
       else now[..at'] == p && going == Goes(t, at, end) && (!going ==> status == Verdict(t, at))
  }

  /** Decodes one symbol, and what belongs to it, into the output. */
  method TakeTurn(r: BitReader, lit: Table, dist: Table, out: array<Byte>, end: nat, at: nat, ghost mem: seq<Byte>)
    returns (going: bool, status: Status, at': nat)
    requires r.Valid() && lit.Valid() && dist.Valid() && |lit.sizes| <= 288 && |dist.sizes| <= 32
    requires at <= out.Length && end <= out.Length && Clean(out[..], mem, at)
    modifies r, out
    ensures r.Valid() && lit.Valid() && dist.Valid()
    ensures var t := TurnOf(lit.sizes, dist.sizes, old(r.Rest()));
      && Turned(t, going, status, at, end, old(out[..at]), out[..], mem, at')
      && ((going || t.End?) ==> !t.Short? && r.Rest() == t.rest)
  {
    hide Built, BitsOf, LsbBits, Pow2, NextOf, MatchOf, CopyInto, Clean, BitReader.Rest;
    CleanSize(out[..], mem, at);
    var ok, sym := lit.Next(r);
    if !ok { return false, NeedsMoreInput, at; }
    if sym == 256 { return false, Done, at; }
    if sym < 256 {
      if at >= end { return false, HasMoreOutput, at; }
      PutByte(out, at, sym, mem);
      return true, Done, at + 1;
    }
    var len, d;
    ok, len, d := ReadMatch(r, dist, sym);
    if !ok { return false, NeedsMoreInput, at; }
    if d > at { return false, Failed, at; }
    status, at' := CopyMatch(out, end, at, d, len, mem);
    going := status == Done;
  }

  lemma TurnStep(lit: seq<nat>, dist: seq<nat>, mem: seq<Byte>, end: nat, bits: seq<bool>, before: seq<Byte>,
                 going: bool, status: Status, now: seq<Byte>, at': nat)
    requires |lit| <= 288 && |dist| <= 32 && |before| <= |mem| && end <= |mem|
    requires Turned(TurnOf(lit, dist, bits), going, status, |before|, end, before, now, mem, at')
    ensures Clean(now, mem, at') && at' <= |now| == |mem|
    ensures var t, o := TurnOf(lit, dist, bits), BodyRun(lit, dist, mem, end, bits, before);
      if going then
        && !t.Short? && BodyRun(lit, dist, mem, end, t.rest, now[..at']) == o
        && (|t.rest| < |bits| || (|t.rest| == |bits| && |before| < end && |before| < at'))
      else Meets(o, status, at', now, mem) && (status == Done ==> t.End? && o.rest == t.rest)
  {
    hide TurnOf, BodyRun, CopyInto;
    var t := TurnOf(lit, dist, bits);
    BodyTurn(lit, dist, mem, end, bits, before);
    if status == Overrun && !going && |Put(t, mem, end, before)| > |mem| {
      BodyFrozen(lit, dist, mem, end, t.rest, Put(t, mem, end, before));
    }
  }

  /** Decodes symbols into the output until the end of the block. */
  method DecodeBody(r: BitReader, lit: Table, dist: Table, out: array<Byte>, end: nat, start: nat, ghost mem: seq<Byte>)
    returns (status: Status, at: nat)
    requires r.Valid() && lit.Valid() && dist.Valid() && |lit.sizes| <= 288 && |dist.sizes| <= 32
    requires start <= out.Length && end <= out.Length && Clean(out[..], mem, start)
    modifies r, out
    ensures r.Valid()
    ensures var o := BodyRun(lit.sizes, dist.sizes, mem, end, old(r.Rest()), old(out[..start]));
      Meets(o, status, at, out[..], mem) && (status == Done ==> r.Rest() == o.rest)
  {
    hide Built, BitsOf, LsbBits, Pow2, TurnOf, BodyRun, Clean, Turned, Meets, BitReader.Rest;
    at := start;
    CleanSize(out[..], mem, start);
    ghost var o := BodyRun(lit.sizes, dist.sizes, mem, end, r.Rest(), out[..start]);
    while true
      invariant r.Valid() && lit.Valid() && dist.Valid() && at <= out.Length && Clean(out[..], mem, at)
      invariant BodyRun(lit.sizes, dist.sizes, mem, end, r.Rest(), out[..at]) == o
      decreases |r.Rest()|, end - at
    {
      ghost var bits, before := r.Rest(), out[..at];
      var going;
      going, status, at := TakeTurn(r, lit, dist, out, end, at, mem);
      TurnStep(lit.sizes, dist.sizes, mem, end, bits, before, going, status, out[..], at);
      if !going { return; }
    }
  }

  // ---- The header of a dynamic block.

  lemma SwizzleInto(k: nat)
    requires k < 19
    ensures SWIZZLE[k] < 19 && Unswizzle(SWIZZLE[k]) == k
  {
  }

  /** The first `i` places of the swizzled order are filled in from the stream; the rest are zero. */
  ghost predicate Filled(sizes: seq<nat>, bits: seq<bool>, i: nat) {
    && |sizes| == 19 && i <= 19 && 3 * i <= |bits|
    && forall x :: 0 <= x < 19 ==> sizes[x] == if Unswizzle(x) < i then Field(bits[3 * Unswizzle(x)..], 3) else 0
  }

  lemma FilledNext(sizes: seq<nat>, bits: seq<bool>, i: nat)
    requires Filled(sizes, bits, i) && i < 19 && 3 * i + 3 <= |bits|
    ensures SWIZZLE[i] < 19 && Filled(sizes[SWIZZLE[i] := Field(bits[3 * i..], 3)], bits, i + 1)
  {
    hide Field, Unswizzle;
    SwizzleInto(i);
    forall x | 0 <= x < 19 && x != SWIZZLE[i] ensures Unswizzle(x) != i {
      SwizzleBack(x);
    }
  }

  lemma FilledSmall(sizes: seq<nat>, bits: seq<bool>, i: nat)
    requires Filled(sizes, bits, i)
    ensures Lengths(sizes)
  {
    hide Unswizzle;
    FieldSizes();
  }

  /** Takes the lengths of the code-length code. */
  method ReadClLengths(r: BitReader, n: nat) returns (ok: bool, sizes: seq<nat>)
    requires r.Valid() && n <= 19
    modifies r
    ensures r.Valid()
    ensures ok <==> |old(r.Rest())| >= 3 * n
    ensures ok ==> sizes == ClOf(old(r.Rest()), n) && Lengths(sizes) && r.Rest() == old(r.Rest())[3 * n..]
  {
    hide LsbBits, Pow2, BitsOf, Field, Unswizzle, Lengths;
    ghost var bits := r.Rest();
    sizes := Times(0, 19);
    var i := 0;
    while i < n
      invariant 0 <= i <= n && r.Valid() && Filled(sizes, bits, i) && r.Rest() == bits[3 * i..]
    {
      SwizzleInto(i);
      var v;
      ok, v := GetExtra(r, 3);
      if !ok { return; }
      FilledNext(sizes, bits, i);
      sizes := sizes[SWIZZLE[i] := v];
      i := i + 1;
    }
    FilledSmall(sizes, bits, n);
    ok := true;
  }

  lemma UnfoldSmall(lens: seq<nat>, code: nat, extra: nat)
    requires code < 19 && extra < Pow2(ExtraBits(code)) && (code == 16 ==> lens != [])
    requires |lens| < 320 && forall i :: 0 <= i < |lens| ==> lens[i] < 16
    ensures var next := Unfold(lens, Packet(code, extra));
      && |lens| < |next| < |lens| + 139 && forall i :: 0 <= i < |next| ==> next[i] < 16
  {
    assert Pow2(2) == 4 && Pow2(3) == 8;
    assert Pow2(7) == 128 by { assert Pow2(4) == 16; }
  }

  /** Takes code lengths until there are `total`. The last repeat may overshoot, but the lengths
      never outgrow their array of 457. */
  method ReadLengths(r: BitReader, table: Table, total: nat) returns (status: Status, lens: seq<nat>)
    requires r.Valid() && table.Valid() && |table.sizes| == 19 && total <= 320
    modifies r
    ensures r.Valid() && |lens| <= 457 && forall i :: 0 <= i < |lens| ==> lens[i] < 16
    ensures var l := LensOf(table.sizes, total, old(r.Rest()), []);
      status == l.status && lens == l.lens && (status == Done ==> r.Rest() == l.rest)
  {
    hide LsbBits, Pow2, BitsOf, Built, NextOf, Field, Unfold, LensOf;
    lens := [];
    ghost var l := LensOf(table.sizes, total, r.Rest(), []);
    while |lens| < total
      invariant r.Valid() && table.Valid() && |lens| <= 457 && forall k :: 0 <= k < |lens| ==> lens[k] < 16
      invariant LensOf(table.sizes, total, r.Rest(), lens) == l
      decreases total - |lens|
    {
      LensStep(table.sizes, total, r.Rest(), lens);
      var ok, code := table.Next(r);
      if !ok { return NeedsMoreInput, lens; }
      if code == 16 && lens == [] { return Failed, lens; }
      var extra;
      ok, extra := GetExtra(r, ExtraBits(code));
      if !ok { return NeedsMoreInput, lens; }
      UnfoldSmall(lens, code, extra);
      lens := Unfold(lens, Packet(code, extra));
    }
    LensStep(table.sizes, total, r.Rest(), lens);
    status := if |lens| == total then Done else Failed;
  }

  lemma SplitLengths(lens: seq<nat>, n: nat)
    requires n <= |lens| <= 320 && n <= 288 && |lens| - n <= 32 && forall i :: 0 <= i < |lens| ==> lens[i] < 16
    ensures Lengths(lens[..n]) && Lengths(lens[n..])
  {
  }

  /** Takes the code lengths of a header and builds the tables of the block. */
  method ReadTables(r: BitReader, numLit: nat, numDist: nat, numCl: nat)
    returns (status: Status, lit: Table?, dist: Table?)
    requires r.Valid() && numLit <= 288 && numDist <= 32 && numCl <= 19
    modifies r
    ensures r.Valid() && (status == Done ==> lit != null && dist != null && lit.Valid() && dist.Valid())
    ensures var h := TablesOf(numLit, numDist, numCl, old(r.Rest()));
      if status == Done then h == Tabled(lit.sizes, dist.sizes, r.Rest()) else h == Refused(status)
  {
    hide LsbBits, Pow2, BitsOf, Built, Accepted, Lengths, LensOf, ClOf;
    lit, dist := null, null;
    var ok, sizes := ReadClLengths(r, numCl);
    if !ok { return NeedsMoreInput, null, null; }
    var cl := MakeTable(sizes);
    if cl == null { return Failed, null, null; }
    var lens;
    status, lens := ReadLengths(r, cl, numLit + numDist);
    if status != Done { return; }
    SplitLengths(lens, numLit);
    dist := MakeTable(lens[numLit..]);
    lit := MakeTable(lens[..numLit]);
    if dist == null || lit == null { status := Failed; }
  }

  /** Takes the header of a dynamic block and builds the tables it describes. */
  method ReadHeader(r: BitReader) returns (status: Status, lit: Table?, dist: Table?)
    requires r.Valid()
    modifies r
    ensures r.Valid() && (status == Done ==> lit != null && dist != null && lit.Valid() && dist.Valid())
    ensures var h := HeaderOf(old(r.Rest()));
      if status == Done then h == Tabled(lit.sizes, dist.sizes, r.Rest()) else h == Refused(status)
  {
    hide LsbBits, Pow2, BitsOf, Built, TablesOf;
    FieldSizes();
    ghost var bits := r.Rest();
    var ok, numLit, numDist, numCl;
    ok, numLit := GetExtra(r, 5);
    if !ok { return NeedsMoreInput, null, null; }
    ok, numDist := GetExtra(r, 5);
    if !ok { return NeedsMoreInput, null, null; }
    ok, numCl := GetExtra(r, 4);
    if !ok { return NeedsMoreInput, null, null; }
    assert bits[5..][5..] == bits[10..] && bits[10..][4..] == bits[14..];
    status, lit, dist := ReadTables(r, numLit + 257, numDist + 1, numCl + 4);
  }

  // ---- Stored blocks.

  /** The bits in the register that make no whole byte are those that the stream has over. */
  lemma Unaligned(r: BitReader)
    requires r.Valid()
    ensures |r.Rest()| % 8 == r.numBits % 8
  {
    hide LsbBits, BitsOf, Pow2;
    assert |r.Rest()| == r.numBits + 8 * (|r.input| - r.pos);
  }

  lemma TwoBytes(bits: seq<bool>, lo: Byte, hi: Byte)
    requires |bits| >= 16 && LsbBits(lo, 8) == bits[..8] && LsbBits(hi, 8) == bits[8..][..8]
    ensures Field(bits, 16) == lo + 256 * hi
  {
    hide LsbBits, LsbValue, Pow2;
    EightBits();
    Pow2Table();
    LsbJoin(lo, 8, hi, 8);
    assert bits[..16] == bits[..8] + bits[8..][..8];
    LsbBitsValue(lo + 256 * hi, 16);
  }

  /** Takes a 16-bit number, low byte first, from a byte boundary. */
  method ReadShort(r: BitReader) returns (ok: bool, v: nat)
    requires r.Valid() && r.numBits % 8 == 0
    modifies r
    ensures r.Valid() && r.numBits % 8 == 0
    ensures ok <==> |old(r.Rest())| >= 16
    ensures ok ==> v == Field(old(r.Rest()), 16) && r.Rest() == old(r.Rest())[16..]
  {
    hide LsbBits, BitsOf, Pow2, Field;
    ghost var bits := r.Rest();
    v := 0;
    var lo, hi;
    ok, lo := r.GetByte();
    if !ok { return; }
    ok, hi := r.GetByte();
    if !ok { return; }
    assert bits[8..][8..] == bits[16..];
    TwoBytes(bits, lo, hi);
    v := lo as nat + 256 * hi as nat;
  }

  /** Copies `n` bytes from the stream to the output. */
  method CopyBytes(r: BitReader, n: nat, out: array<Byte>, end: nat, start: nat, ghost mem: seq<Byte>)
    returns (status: Status, at: nat)
    requires r.Valid() && r.numBits % 8 == 0
    requires start <= out.Length && end <= out.Length && Clean(out[..], mem, start)
    modifies r, out
    ensures r.Valid()
    ensures var o := BytesRun(n, end, old(r.Rest()), old(out[..start]));
      Meets(o, status, at, out[..], mem) && (status == Done ==> r.Rest() == o.rest)
  {
    hide LsbBits, BitsOf, Pow2, Clean, ByteOf;
    at := start;
    CleanSize(out[..], mem, start);
    ghost var o := BytesRun(n, end, r.Rest(), out[..start]);
    var i := 0;
    while i < n
      invariant 0 <= i <= n && r.Valid() && r.numBits % 8 == 0 && at <= out.Length && Clean(out[..], mem, at)
      invariant BytesRun(n - i, end, r.Rest(), out[..at]) == o
    {
      if r.numBits == 0 && at >= end { return HasMoreOutput, at; }
      ghost var bits := r.Rest();
      var ok, c := r.GetByte();
      if at >= end { return HasMoreOutput, at; }
      if !ok { return NeedsMoreInput, at; }
      ByteIs(bits, c);
      PutByte(out, at, c, mem);
      at, i := at + 1, i + 1;
    }
    status := Done;
  }

  /** Takes a stored block: alignment, the length twice, the bytes. */
  method ReadStored(r: BitReader, out: array<Byte>, end: nat, start: nat, ghost mem: seq<Byte>)
    returns (status: Status, at: nat)
    requires r.Valid() && start <= out.Length && end <= out.Length && Clean(out[..], mem, start)
    modifies r, out
    ensures r.Valid()
    ensures var o := StoredRun(end, old(r.Rest())[|old(r.Rest())| % 8..], old(out[..start]));
      Meets(o, status, at, out[..], mem) && (status == Done ==> r.Rest() == o.rest)
  {
    hide LsbBits, BitsOf, Pow2, Clean, Field, BytesRun;
    CleanSize(out[..], mem, start);
    Unaligned(r);
    var skipped := r.Drop(r.numBits % 8);
    ghost var bits := r.Rest();
    assert |bits| >= 32 ==> bits[16..][16..] == bits[32..];
    var ok, n, m;
    ok, n := ReadShort(r);
    if !ok { return NeedsMoreInput, start; }
    ok, m := ReadShort(r);
    if !ok { return NeedsMoreInput, start; }
    if n + m != 0xFFFF { return Failed, start; }
    status, at := CopyBytes(r, n, out, end, start, mem);
  }

  // ---- Whole streams.

  /** The tables of the fixed codes. */
  method FixedTables() returns (lit: Table, dist: Table)
    ensures fresh(lit) && fresh(dist) && lit.Valid() && dist.Valid()
    ensures lit.sizes == FIXED_LIT && dist.sizes == FIXED_DIST
  {
    hide Built, Accepted;
    FixedAccepted();
    AcceptedLengths(FIXED_LIT);
    AcceptedLengths(FIXED_DIST);
    var l := MakeTable(FIXED_LIT);
    var d := MakeTable(FIXED_DIST);
    return l, d;
  }

  /** Makes the tables for a block of the given type. */
  method BlockTables(r: BitReader, kind: nat) returns (status: Status, lit: Table?, dist: Table?)
    requires r.Valid() && kind != 0
    modifies r
    ensures r.Valid() && (status == Done ==> lit != null && dist != null && lit.Valid() && dist.Valid())
    ensures var h := CodesOf(kind, old(r.Rest()));
      if status == Done then h == Tabled(lit.sizes, dist.sizes, r.Rest()) else h == Refused(status)
  {
    hide Built, HeaderOf, BitsOf, LsbBits, Pow2;
    lit, dist := null, null;
    if kind == 1 {
      status := Done;
      lit, dist := FixedTables();
    } else if kind == 2 {
      status, lit, dist := ReadHeader(r);
    } else {
      status := Failed;
    }
  }

  /** The final-block bit and the type of a block. */
  lemma TypeField(bits: seq<bool>)
    requires |bits| >= 3
    ensures Field(bits, 3) % 2 == Bit(bits[0]) && Field(bits, 3) / 2 == Field(bits[1..], 2)
  {
    assert bits[..3][1..] == bits[1..][..2];
  }

  /** Decodes one block into the output. */
  method InflateBlock(r: BitReader, out: array<Byte>, end: nat, start: nat, ghost mem: seq<Byte>)
    returns (status: Status, final: bool, at: nat)
    requires r.Valid() && start <= out.Length && end <= out.Length && Clean(out[..], mem, start)
    modifies r, out
    ensures r.Valid()
    ensures var bits := old(r.Rest()); var o := BlockRun(mem, end, bits, old(out[..start]));
      && Meets(o, status, at, out[..], mem)
      && (status == Done ==> r.Rest() == o.rest && |bits| >= 3 && final == bits[0])
  {
    hide LsbBits, Pow2, BitsOf, Built, Clean, Field, StoredRun, CodesOf, BodyRun, BitReader.Rest;
    CleanSize(out[..], mem, start);
    ghost var bits := r.Rest();
    final := false;
    var ok, field := GetExtra(r, 3);
    if !ok { return NeedsMoreInput, false, start; }
    TypeField(bits);
    final := field % 2 == 1;
    if field / 2 == 0 {
      status, at := ReadStored(r, out, end, start, mem);
    } else {
      var lit, dist;
      status, lit, dist := BlockTables(r, field / 2);
      if status != Done { return status, final, start; }
      status, at := DecodeBody(r, lit, dist, out, end, start, mem);
    }
  }

  /** Decompresses a whole stream into the output that may be `end` bytes long. On any input it ends
      with the status and the bytes that `StreamRun` says, and it writes past the end if and only if
      one of the turns spills; three spare bytes behind the output always suffice. */
  method Decompress(input: seq<Byte>, out: array<Byte>, end: nat) returns (status: Status, at: nat, left: BitReader)
    requires end <= out.Length
    modifies out
    ensures var o := StreamRun(old(out[..]), end, BitsOf(input), []);
      && Meets(o, status, at, out[..], old(out[..]))
      && (status == Done ==> left.Valid() && left.Rest() == o.rest)
    ensures (status == Overrun || at > end) <==> AnySpills(StreamSteps(old(out[..]), end, BitsOf(input), []), end)
    ensures end + 3 <= out.Length ==> status != Overrun
  {
    hide LsbBits, Pow2, BitsOf, BlockRun, StreamRun, StreamSteps, AnySpills, BitReader.Rest;
    ghost var mem := out[..];
    var r := new BitReader(input);
    left := r;
    at := 0;
    assert out[..0] == [];
    ghost var o := StreamRun(mem, end, r.Rest(), []);
    while true
      invariant r.Valid() && fresh(r) && at <= out.Length && Clean(out[..], mem, at)
      invariant StreamRun(mem, end, r.Rest(), out[..at]) == o
      decreases |r.Rest()|
    {
      ghost var bits, before := r.Rest(), out[..at];
      var final;
      status, final, at := InflateBlock(r, out, end, at, mem);
      StreamStep(mem, end, bits, before);
      if status != Overrun { MeetsWhole(BlockRun(mem, end, bits, before), status, at, out[..], mem); }
      if status != Done || final { break; }
    }
    StreamBounded(mem, end, BitsOf(input), []);
  }
}
