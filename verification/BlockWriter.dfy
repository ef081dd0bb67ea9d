/** Writing a block: symbol counts, code tables, header and codes. */
module BlockWriter {
  import opened Values
  import opened Kraft
  import opened Bits
  import opened Canonical
  import UsedSymbols
  import opened HuffmanTable
  import opened LzCodes
  import opened CodeBuffer
  import opened MatchSymbols
  import opened LengthPacking
  import opened BitStream
  import opened Deflate
  import opened BlockSize

  // ---- Symbol counts.

  /** The symbols of `c` have been counted. */
  ghost predicate Counted(lit: seq<nat>, dist: seq<nat>, c: LzCode) {
    c.Valid() && |lit| == 288 && |dist| == 32 &&
    match c
    case Lit(b) => lit[b] > 0
    case Match(len, d) => lit[LenSym(len - MIN_MATCH)] > 0 && dist[DistSym(d - 1)] > 0
  }

  ghost predicate Counts(lit: seq<nat>, dist: seq<nat>, n: nat) {
    && |lit| == 288 && |dist| == 32 && Sum(lit) == n && Sum(dist) <= n
    && lit[256] == lit[286] == lit[287] == 0 && dist[30] == dist[31] == 0
  }

  /** One more of symbol `x`, in a 16-bit counter. */
  function Bump(counts: seq<nat>, x: nat): (r: seq<nat>)
    requires x < |counts|
    ensures |r| == |counts|
  {
    counts[x := (counts[x] + 1) % 0x10000]
  }

  lemma BumpSum(counts: seq<nat>, x: nat)
    requires x < |counts| && Sum(counts) < 0xFFFF
    ensures Bump(counts, x) == counts[x := counts[x] + 1] && Sum(Bump(counts, x)) == Sum(counts) + 1
  {
    hide Sum;
    KeyAtMostSum(counts, x);
    SumUpdate(counts, x, counts[x] + 1);
  }

  /** Counts the symbols of the recorded codes. */
  method TallySymbols(codes: seq<LzCode>) returns (lit: seq<nat>, dist: seq<nat>)
    requires AllValid(codes) && |codes| < 0xFFFF
    ensures lit == LitCounts(codes) && dist == DistCounts(codes) && Counts(lit, dist, |codes|)
    ensures forall i :: 0 <= i < |codes| ==> Counted(lit, dist, codes[i])
  {
    hide Sum, LenSym, DistSym, Bump;
    lit, dist := Times(0, 288), Times(0, 32);
    SumZero(lit);
    SumZero(dist);
    var i := 0;
    while i < |codes|
      invariant 0 <= i <= |codes| && Counts(lit, dist, i)
      invariant lit == LitCounts(codes[..i]) && dist == DistCounts(codes[..i])
      invariant forall k :: 0 <= k < i ==> Counted(lit, dist, codes[k])
    {
      assert codes[..i + 1][..i] == codes[..i] && codes[..i + 1][i] == codes[i];
      match codes[i] {
      case Lit(b) =>
        BumpSum(lit, b);
        lit := Bump(lit, b);
      case Match(len, d) =>
        BumpSum(dist, DistSym(d - 1));
        dist := Bump(dist, DistSym(d - 1));
        BumpSum(lit, LenSym(len - MIN_MATCH));
        lit := Bump(lit, LenSym(len - MIN_MATCH));
      }
      i := i + 1;
    }
    assert codes[..i] == codes;
  }

  // ---- The tables of a dynamic block.

  /** Code lengths and the bit patterns to send for them. */
  ghost predicate Usable(sizes: seq<nat>, codes: seq<nat>) {
    Accepted(sizes) && CodesFor(sizes, codes, |sizes|)
  }

  /** Sends the word of a symbol. */
  method PutSymbol(w: BitWriter, sizes: seq<nat>, codes: seq<nat>, x: nat)
    requires w.Valid() && Usable(sizes, codes) && x < |sizes| && sizes[x] > 0
    modifies w`out, w`all, w`bitBuffer, w`bitsIn
    ensures w.Valid() && w.Stream() == old(w.Stream()) + Word(sizes, x)
  {
    hide Accepted, LsbBits, Word, Pow2;
    w.PutBits(codes[x], sizes[x]);
  }

  /** The last coded symbol, at least `least` of them. */
  method TrimmedLength(sizes: seq<nat>, most: nat, least: nat) returns (n: nat)
    requires least <= most <= |sizes| && forall i :: most <= i < |sizes| ==> sizes[i] == 0
    ensures least <= n <= most && forall i :: n <= i < |sizes| ==> sizes[i] == 0
  {
    n := most;
    while n > least
      invariant least <= n <= most && forall i :: n <= i < |sizes| ==> sizes[i] == 0
    {
      if sizes[n - 1] > 0 { return; }
      n := n - 1;
    }
  }

  /** How many lengths of the code-length code have to be sent. */
  method ClLength(cl: seq<nat>) returns (n: nat)
    requires |cl| == 19
    ensures 4 <= n <= 19 && forall i :: n <= i < 19 ==> cl[SWIZZLE[i]] == 0
  {
    var k := 18;
    while k >= 0
      invariant -1 <= k <= 18 && forall i :: k < i < 19 ==> cl[SWIZZLE[i]] == 0
    {
      if cl[SWIZZLE[k]] > 0 { break; }
      k := k - 1;
    }
    n := if k + 1 > 4 then k + 1 else 4;
  }

  /** Enough symbols have words, and they are no longer than `limit`. */
  ghost predicate Serves(counts: seq<nat>, limit: nat, sizes: seq<nat>) {
    && (forall x :: 0 <= x < |counts| && counts[x] > 0 ==> x < |sizes| && sizes[x] > 0)
    && (forall x :: 0 <= x < |sizes| ==> sizes[x] <= limit)
  }

  /** A code for the counts, without the unused symbols at the end. */
  method CodeTable(counts: seq<nat>, limit: nat, most: nat, least: nat) returns (sizes: seq<nat>, codes: seq<nat>)
    requires |counts| <= 288 && Sum(counts) < 0x10000 && 1 <= limit <= 15 && |counts| <= Pow2(limit)
    requires least <= most <= |counts| && forall x :: most <= x < |counts| ==> counts[x] == 0
    ensures least <= |sizes| <= most && Usable(sizes, codes) && Serves(counts, limit, sizes)
    ensures TableFor(counts, limit, Padded(sizes, |counts|))
  {
    hide Sum, Accepted, CodesFor, UsedSymbols.UsedList, Complete, Pow2, Thrifty, UsedSymbols.Shortest;
    var allSizes, allCodes := OptimizeHuffmanTable(counts, limit);
    var n := TrimmedLength(allSizes[..], most, least);
    TrimUsable(allSizes[..], allCodes[..], n);
    sizes, codes := allSizes[..n], allCodes[..n];
    assert allSizes[..][..n] == sizes && allCodes[..][..n] == codes;
    assert Padded(sizes, |counts|) == allSizes[..];
  }

  lemma TrimUsable(sizes: seq<nat>, codes: seq<nat>, n: nat)
    requires Usable(sizes, codes) && n <= |sizes| && forall i :: n <= i < |sizes| ==> sizes[i] == 0
    ensures n <= |codes| && Usable(sizes[..n], codes[..n])
  {
    hide Accepted, Word, Pow2, LsbBits;
    TrimKeeps(sizes, n);
  }

  lemma CountedCoded(lit: seq<nat>, lit': seq<nat>, dist: seq<nat>, l: seq<nat>, d: seq<nat>, codes: seq<LzCode>)
    requires |lit| == 288 && |dist| == 32 && lit' == lit[256 := 1] && Serves(lit', 15, l) && Serves(dist, 15, d)
    requires forall i :: 0 <= i < |codes| ==> Counted(lit, dist, codes[i])
    ensures AllCoded(l, d, codes)
  {
    hide LenSym, DistSym, Serves;
    ServesMore(lit, lit', l);
    forall i | 0 <= i < |codes| ensures Coded(l, d, codes[i]) {
      assert Counted(lit, dist, codes[i]);
      match codes[i]
      case Lit(b) => ServesAt(lit, l, b);
      case Match(len, e) =>
        ServesAt(lit, l, LenSym(len - MIN_MATCH));
        ServesAt(dist, d, DistSym(e - 1));
    }
  }

  lemma ServesMore(lit: seq<nat>, lit': seq<nat>, l: seq<nat>)
    requires |lit| == 288 && lit' == lit[256 := 1] && Serves(lit', 15, l)
    ensures Serves(lit, 15, l)
  {
    forall x | 0 <= x < |lit| && lit[x] > 0 ensures x < |l| && l[x] > 0 { assert lit'[x] > 0; }
  }

  lemma ServesAt(counts: seq<nat>, sizes: seq<nat>, x: nat)
    requires Serves(counts, 15, sizes) && x < |counts| && counts[x] > 0
    ensures x < |sizes| && sizes[x] > 0
  {
  }

  lemma TallyCoded(counts: seq<nat>, packets: seq<Packet>, cl: seq<nat>)
    requires Tallied(counts, packets) && Serves(counts, 7, cl) && |cl| == 19 && WellFormed(packets)
    ensures CodedPackets(cl, packets)
  {
    hide Unpack, Occurs, Sum;
    forall i | 0 <= i < |packets| ensures CodedPacket(cl, packets[i]) { OccursMember(packets, i); }
  }

  lemma {:induction false} PacketsNoMore(packets: seq<Packet>)
    ensures |packets| <= Sizes(packets)
  {
    if packets != [] { PacketsNoMore(packets[..|packets| - 1]); }
  }

  lemma TableSizes()
    ensures 19 <= Pow2(7) && 288 <= Pow2(15)
  {
    Pow2Table();
    assert Pow2(7) == 128 by { assert Pow2(4) == 16; }
  }

  lemma TallySum(counts: seq<nat>, packets: seq<Packet>)
    requires Tallied(counts, packets)
    ensures |counts| == 19 && Sum(counts) == |packets|
  {
  }

  /** The tables for the given symbol counts: the header's contents and the patterns to send. */
  method BuildTables(lit: seq<nat>, dist: seq<nat>, ghost codes: seq<LzCode>)
    returns (t: Tables, litCodes: seq<nat>, distCodes: seq<nat>, clCodes: seq<nat>)
    requires AllValid(codes) && lit == LitCounts(codes) && dist == DistCounts(codes)
    requires Counts(lit, dist, |codes|) && |codes| < 0xFFFF
    requires forall i :: 0 <= i < |codes| ==> Counted(lit, dist, codes[i])
    ensures t.Valid() && AllCoded(t.lit, t.dist, codes) && MadeFor(t, codes)
    ensures Usable(t.lit, litCodes) && Usable(t.dist, distCodes) && Usable(t.cl, clCodes)
  {
    hide Sum, Accepted, CodesFor, Unpack, WellFormed, Sizes, Pow2, AllCoded, Counted, Tallied, CodedPackets, TableFor,
      Padded;
    var lit' := lit[256 := 1];
    SumUpdate(lit, 256, 1);
    TableSizes();
    var l, d, cl;
    l, litCodes := CodeTable(lit', 15, 286, 257);
    d, distCodes := CodeTable(dist, 15, 30, 1);
    CountedCoded(lit, lit', dist, l, d, codes);
    var packets, counts := Pack(l + d);
    PacketsNoMore(packets);
    TallySum(counts, packets);
    cl, clCodes := CodeTable(counts, 7, 19, 19);
    TallyCoded(counts, packets, cl);
    var numCl := ClLength(cl);
    t := Tables(l, d, cl, packets, numCl);
  }

  // ---- Sending a block.

  /** Sends the lengths of the code-length code. */
  method PutClLengths(w: BitWriter, cl: seq<nat>, n: nat)
    requires w.Valid() && |cl| == 19 && n <= 19 && forall i :: 0 <= i < 19 ==> cl[i] < 8
    modifies w`out, w`all, w`bitBuffer, w`bitsIn
    ensures w.Valid() && w.Stream() == old(w.Stream()) + ClBits(cl, 0, n)
  {
    hide LsbBits, Pow2, BitsOf, ClBits, BitWriter.Stream, BitWriter.Valid;
    ThreeBits();
    var i := 0;
    ghost var start, done: seq<bool> := w.Stream(), [];
    while i < n
      invariant 0 <= i <= n && w.Valid()
      invariant w.Stream() == start + done && done + ClBits(cl, i, n) == ClBits(cl, 0, n)
    {
      var x := Swizzle(i);
      w.PutBits(cl[x], 3);
      ghost var ext := LsbBits(cl[x], 3);
      ClBitsStep(cl, i, n);
      Regroup(start, done, ext);
      Regroup(done, ext, ClBits(cl, i + 1, n));
      done := done + ext;
      i := i + 1;
    }
    ClBitsNone(cl, n);
  }

  function Swizzle(i: nat): (x: nat)
    requires i < 19
    ensures x == SWIZZLE[i] && x < 19
  {
    SWIZZLE[i]
  }

  lemma ThreeBits()
    ensures Pow2(2) == 4 && Pow2(3) == 8 && Pow2(4) == 16 && Pow2(5) == 32 && Pow2(7) == 128
  {
    assert Pow2(3) == 8;
    assert Pow2(5) == 4 * Pow2(3);
  }

  /** Sends the packed code lengths. */
  method PutPackets(w: BitWriter, cl: seq<nat>, clCodes: seq<nat>, packets: seq<Packet>)
    requires w.Valid() && Usable(cl, clCodes) && CodedPackets(cl, packets)
    modifies w`out, w`all, w`bitBuffer, w`bitsIn
    ensures w.Valid() && w.Stream() == old(w.Stream()) + PacketsBits(cl, packets)
  {
    hide LsbBits, Pow2, Usable, Word, BitWriter.Stream, BitWriter.Valid;
    ThreeBits();
    var i := 0;
    while i < |packets|
      invariant 0 <= i <= |packets| && w.Valid()
      invariant w.Stream() + PacketsBits(cl, packets[i..]) == old(w.Stream()) + PacketsBits(cl, packets)
    {
      var p := packets[i];
      assert CodedPacket(cl, p);
      assert packets[i..][1..] == packets[i + 1..] && packets[i..][0] == p;
      ghost var s := w.Stream();
      PutSymbol(w, cl, clCodes, p.code);
      if p.code >= 16 {
        w.PutBits(p.extra, ExtraBits(p.code));
      } else {
        NoBits(p.extra);
      }
      assert w.Stream() == s + PacketBits(cl, p);
      i := i + 1;
    }
    assert w.Stream() + [] == w.Stream();
  }

  lemma HeaderJoins(s: seq<bool>, k: seq<bool>, a: seq<bool>, b: seq<bool>, c: seq<bool>, d: seq<bool>, e: seq<bool>)
    ensures s + k + a + b + c + d + e == s + (k + (a + (b + (c + (d + e)))))
  {
    Regroup4(s + k + a + b, c, d, e);
    Regroup4(s + k, a, b, c + (d + e));
    Regroup(s, k, a + (b + (c + (d + e))));
  }

  method PutHeader(w: BitWriter, t: Tables, clCodes: seq<nat>)
    requires w.Valid() && t.Valid() && Usable(t.cl, clCodes)
    modifies w`out, w`all, w`bitBuffer, w`bitsIn
    ensures w.Valid() && w.Stream() == old(w.Stream()) + (LsbBits(2, 2) + t.Header())
  {
    hide LsbBits, Pow2, Usable, ClBits, PacketsBits, Accepted, CodedPackets, WellFormed, Unpack, BitsOf,
      BitWriter.Stream, BitWriter.Valid;
    ThreeBits();
    ghost var s := w.Stream();
    ghost var a, b, c := LsbBits(|t.lit| - 257, 5), LsbBits(|t.dist| - 1, 5), LsbBits(t.numCl - 4, 4);
    ghost var d, e := ClBits(t.cl, 0, t.numCl), PacketsBits(t.cl, t.packets);
    w.PutBits(2, 2);
    w.PutBits(|t.lit| - 257, 5);
    w.PutBits(|t.dist| - 1, 5);
    w.PutBits(t.numCl - 4, 4);
    PutClLengths(w, t.cl, t.numCl);
    PutPackets(w, t.cl, clCodes, t.packets);
    HeaderJoins(s, LsbBits(2, 2), a, b, c, d, e);
  }

  /** Sends a length or distance: the symbol's word, then the low bits. */
  method PutMatchPart(w: BitWriter, sizes: seq<nat>, codes: seq<nat>, sym: nat, x: nat, n: nat)
    requires w.Valid() && Usable(sizes, codes) && sym < |sizes| && sizes[sym] > 0 && n <= 13
    modifies w`out, w`all, w`bitBuffer, w`bitsIn
    ensures w.Valid() && w.Stream() == old(w.Stream()) + (Word(sizes, sym) + ExtraOf(x, n))
  {
    hide LsbBits, Pow2, Usable, Word, Span;
    PutSymbol(w, sizes, codes, sym);
    SpanIsPow2(n);
    ModBound(x, Span(n));
    w.PutBits(x % Span(n), n);
  }

  lemma ModBound(x: nat, m: nat)
    requires m >= 1
    ensures 0 <= x % m < m
  {
  }

  /** Sends one code. */
  method PutCode(w: BitWriter, lit: seq<nat>, litCodes: seq<nat>, dist: seq<nat>, distCodes: seq<nat>, c: LzCode)
    requires w.Valid() && Usable(lit, litCodes) && Usable(dist, distCodes) && Coded(lit, dist, c)
    modifies w`out, w`all, w`bitBuffer, w`bitsIn
    ensures w.Valid() && w.Stream() == old(w.Stream()) + CodeBits(lit, dist, c)
  {
    hide LsbBits, Pow2, Usable, Word, LenSym, DistSym, LenExtra, DistExtra, ExtraOf, BitsOf;
    match c
    case Lit(b) => PutSymbol(w, lit, litCodes, b);
    case Match(len, d) =>
      PutMatchPart(w, lit, litCodes, LenSym(len - MIN_MATCH), len - MIN_MATCH, LenExtra(len - MIN_MATCH));
      PutMatchPart(w, dist, distCodes, DistSym(d - 1), d - 1, DistExtra(d - 1));
  }

  /** Sends the codes and the end of the block. */
  method PutBody(w: BitWriter, lit: seq<nat>, litCodes: seq<nat>, dist: seq<nat>, distCodes: seq<nat>,
                 codes: seq<LzCode>)
    requires w.Valid() && Usable(lit, litCodes) && Usable(dist, distCodes) && AllCoded(lit, dist, codes)
    requires |lit| > 256 && lit[256] > 0
    modifies w`out, w`all, w`bitBuffer, w`bitsIn
    ensures w.Valid() && w.Stream() == old(w.Stream()) + Body(lit, dist, codes)
  {
    hide LsbBits, Pow2, Usable, Word, CodeBits, Coded, CodesBits, BitsOf;
    var i := 0;
    CodesBitsNone(lit, dist);
    while i < |codes|
      invariant 0 <= i <= |codes| && w.Valid()
      invariant w.Stream() == old(w.Stream()) + CodesBits(lit, dist, codes[..i])
    {
      PutCode(w, lit, litCodes, dist, distCodes, codes[i]);
      CodesBitsNext(lit, dist, codes[..i], codes[i]);
      assert codes[..i + 1] == codes[..i] + [codes[i]];
      i := i + 1;
    }
    assert codes[..i] == codes;
    PutSymbol(w, lit, litCodes, 256);
  }

  /** Sends the codes as a block with fixed or with its own tables. */
  method CompressBlock(w: BitWriter, codes: seq<LzCode>, fixed: bool) returns (ghost bits: seq<bool>)
    requires w.Valid() && Buffered(codes) && |codes| < 0xFFFF
    modifies w`out, w`all, w`bitBuffer, w`bitsIn
    ensures w.Valid() && w.Stream() == old(w.Stream()) + bits && Short(bits)
    ensures if fixed then FixedBits(bits, codes) else DynamicBits(bits, codes)
  {
    hide LsbBits, Pow2, BitsOf, AllValid, DynamicBits, FixedBits, Short;
    if fixed {
      bits := PutFixed(w, codes);
    } else {
      bits := PutDynamic(w, codes);
    }
  }

  lemma NoneCounted(sizes: seq<nat>)
    ensures forall len: nat :: Count(sizes[..0], len) == 0
  {
  }

  /** The patterns for lengths that are given. */
  method FixedTable(sizes: seq<nat>) returns (codes: seq<nat>)
    requires Accepted(sizes)
    ensures Usable(sizes, codes)
  {
    hide Count, Complete, Used, CodesFor;
    var numCodes := new int[33](_ => 0);
    var i := 0;
    NoneCounted(sizes);
    while i < |sizes|
      invariant 0 <= i <= |sizes| && forall len: nat :: len < 33 ==> numCodes[len] == Count(sizes[..i], len)
    {
      forall len: nat
        ensures Count(sizes[..i + 1], len)
          == Count(sizes[..i], len) + (if sizes[i] == len then 1 else 0)
      {
        CountNext(sizes, i, len);
      }
      numCodes[sizes[i]] := numCodes[sizes[i]] + 1;
      i := i + 1;
    }
    assert sizes[..i] == sizes;
    var all := AssignCodes(sizes, numCodes, 15);
    codes := all[..];
  }

  method PutFixed(w: BitWriter, codes: seq<LzCode>) returns (ghost bits: seq<bool>)
    requires w.Valid() && Buffered(codes)
    modifies w`out, w`all, w`bitBuffer, w`bitsIn
    ensures w.Valid() && w.Stream() == old(w.Stream()) + bits && FixedBits(bits, codes) && Short(bits)
  {
    hide LsbBits, Pow2, Usable, Body, AllCoded, AllValid, Accepted, Short, Load;
    FixedAccepted();
    FixedCodes(codes);
    ThreeBits();
    var litCodes := FixedTable(FIXED_LIT);
    var distCodes := FixedTable(FIXED_DIST);
    w.PutBits(1, 2);
    PutBody(w, FIXED_LIT, litCodes, FIXED_DIST, distCodes, codes);
    bits := LsbBits(1, 2) + Body(FIXED_LIT, FIXED_DIST, codes);
    FixedShort(bits, codes);
  }

  /** Sends the codes behind a header. */
  method PutTabled(w: BitWriter, t: Tables, litCodes: seq<nat>, distCodes: seq<nat>, codes: seq<LzCode>,
                   ghost s: seq<bool>)
    returns (ghost bits: seq<bool>)
    requires w.Valid() && t.Valid() && Usable(t.lit, litCodes) && Usable(t.dist, distCodes)
      && AllCoded(t.lit, t.dist, codes)
    requires w.Stream() == s + (LsbBits(2, 2) + t.Header())
    modifies w`out, w`all, w`bitBuffer, w`bitsIn
    ensures w.Valid() && w.Stream() == s + bits && TableBits(t, bits, codes)
  {
    hide LsbBits, Pow2, Usable, Body, AllCoded, Accepted, CodedPackets, WellFormed, Unpack, BitsOf, ClBits, PacketsBits;
    ghost var head, body := LsbBits(2, 2) + t.Header(), Body(t.lit, t.dist, codes);
    PutBody(w, t.lit, litCodes, t.dist, distCodes, codes);
    bits := head + body;
    Regroup(s, head, body);
  }

  method PutDynamic(w: BitWriter, codes: seq<LzCode>) returns (ghost bits: seq<bool>)
    requires w.Valid() && Buffered(codes) && |codes| < 0xFFFF
    modifies w`out, w`all, w`bitBuffer, w`bitsIn
    ensures w.Valid() && w.Stream() == old(w.Stream()) + bits && DynamicBits(bits, codes) && Short(bits)
  {
    hide LsbBits, Pow2, Usable, Body, Counts, Counted, AllCoded, AllValid, Accepted, CodedPackets, WellFormed, Unpack,
      MadeFor, Short, Load, LitCounts, DistCounts, TableBits;
    var lit, dist := TallySymbols(codes);
    var t, litCodes, distCodes, clCodes := BuildTables(lit, dist, codes);
    PutHeader(w, t, clCodes);
    bits := PutTabled(w, t, litCodes, distCodes, codes, old(w.Stream()));
    DynamicShort(t, bits, codes);
  }

  /** Sends bytes from a byte boundary. */
  method PutBytes(w: BitWriter, bytes: seq<Byte>)
    requires w.Valid() && w.bitsIn == 0
    modifies w`out, w`all, w`bitBuffer, w`bitsIn
    ensures w.Valid() && w.bitsIn == 0 && w.Stream() == old(w.Stream()) + BitsOf(bytes)
  {
    hide LsbBits, Pow2, BitsOf;
    var i := 0;
    BitsOfNone();
    while i < |bytes|
      invariant 0 <= i <= |bytes| && w.Valid() && w.bitsIn == 0
      invariant w.Stream() == old(w.Stream()) + BitsOf(bytes[..i])
    {
      EightBits();
      BitsOfConcat(bytes[..i], [bytes[i]]);
      BitsOfOne(bytes[i]);
      assert bytes[..i + 1] == bytes[..i] + [bytes[i]];
      w.PutBits(bytes[i], 8);
      i := i + 1;
    }
    assert bytes[..i] == bytes;
  }

  /** Sends the block type and fills up the byte. */
  method PutAlign(w: BitWriter)
    requires w.Valid()
    modifies w`out, w`all, w`bitBuffer, w`bitsIn
    ensures w.Valid() && w.bitsIn == 0
    ensures w.Stream() == old(w.Stream()) + (LsbBits(0, 2) + LsbBits(0, Pad(old(|w.Stream()|) + 2)))
  {
    hide LsbBits, Pow2, BitsOf;
    ThreeBits();
    w.PutBits(0, 2);
    if w.bitsIn > 0 {
      w.PutBits(0, 8 - w.bitsIn);
    } else {
      NoBits(0);
    }
  }

  /** Sends bytes as they are. */
  method PutStored(w: BitWriter, bytes: seq<Byte>)
    requires w.Valid() && |bytes| <= 0xFFFF
    modifies w`out, w`all, w`bitBuffer, w`bitsIn
    ensures w.Valid() && w.bitsIn == 0 && w.Stream() == old(w.Stream()) + StoredBits(old(|w.Stream()|), bytes)
  {
    hide LsbBits, Pow2, BitsOf, Pad;
    Pow2Table();
    ghost var s := w.Stream();
    ghost var head := LsbBits(0, 2) + LsbBits(0, Pad(|s| + 2));
    ghost var n, m := LsbBits(|bytes|, 16), LsbBits(0xFFFF - |bytes|, 16);
    PutAlign(w);
    w.PutBits(|bytes|, 16);
    w.PutBits(0xFFFF - |bytes|, 16);
    PutBytes(w, bytes);
    Regroup4(s + head, n, m, BitsOf(bytes));
    Regroup(s, head, n + (m + BitsOf(bytes)));
  }

  const OUT_BUF_SIZE := 85196

  /** Where the output ends after `n` bits more, when it may not go beyond `end`. */
  function Clip(all: nat, bitsIn: nat, n: nat, end: nat): nat {
    var to := all + (bitsIn + n) / 8;
    if to <= end then to else end
  }

  /** The bytes themselves are sent: by request, or because the codes take about as many. */
  ghost predicate Plain(available: bool, forceRaw: bool, total: nat, grown: int) {
    available && (forceRaw || (total > 0 && grown + 1 >= total))
  }

  /** Writes the codes or, when that is no gain or by request, the bytes themselves. An attempt
      that does not fit or does not pay is taken back. */
  method PutBlock(w: BitWriter, codes: seq<LzCode>, total: nat, available: bool, bytes: seq<Byte>, forceRaw: bool,
                  forceFixed: bool)
    returns (ghost bits: seq<bool>, ghost b: Block, ghost tried: seq<bool>)
    requires w.Valid() && Buffered(codes) && |codes| < 0xFFFF
    requires available ==> |bytes| == total <= 0xFFFF
    modifies w`out, w`all, w`bitBuffer, w`bitsIn
    ensures w.Valid() && w.Stream() == old(w.Stream()) + bits
    ensures BlockBits(old(|w.Stream()|), bits, b) && Short(bits)
    ensures b == Compressed(codes) || (available && b == Stored(bytes))
    ensures forceRaw && available ==> b.Stored?
    ensures !(forceRaw && available) ==>
      && (if forceFixed || total < 48 then FixedBits(tried, codes) else DynamicBits(tried, codes))
      && Short(tried)
      && var after := Clip(old(|w.all|), old(w.bitsIn), |tried|, w.end);
         && (b.Stored? <==> Plain(available, forceRaw, total, after - old(|w.out|)))
         && (b.Compressed? ==> if after < w.end then bits == tried else FixedBits(bits, codes))
  {
    hide LsbBits, Pow2, BitsOf, AllValid, DynamicBits, FixedBits, StoredBits, Short, Buffered, BitWriter.Stream;
    var savedOut, savedBuffer, savedIn := w.out, w.bitBuffer, w.bitsIn;
    ghost var savedAll, at := w.all, |w.Stream()|;
    var useRaw := forceRaw && available;
    var fits := false;
    b, tried := Compressed(codes), [];
    if !useRaw {
      tried := CompressBlock(w, codes, forceFixed || total < 48);
      Lengthened(8 * |savedAll| + savedIn, |tried|, |w.all|, w.bitsIn, |savedAll|, savedIn);
      fits := |w.out| < w.end;
    }
    bits := tried;
    if (useRaw || (total > 0 && |w.out| - |savedOut| + 1 >= total)) && available {
      w.out, w.bitBuffer, w.bitsIn := savedOut, savedBuffer, savedIn;
      w.all := savedAll;
      SameStream(w);
      PutStored(w, bytes);
      StoredShort(at, bytes);
      bits, b := StoredBits(at, bytes), Stored(bytes);
    } else if !fits {
      w.out, w.bitBuffer, w.bitsIn := savedOut, savedBuffer, savedIn;
      w.all := savedAll;
      SameStream(w);
      bits := CompressBlock(w, codes, true);
    }
  }

  /** Bits become bytes eight at a time. */
  lemma Lengthened(stream: nat, n: nat, all: nat, bitsIn: nat, savedAll: nat, savedIn: nat)
    requires stream + n == 8 * all + bitsIn && stream == 8 * savedAll + savedIn && bitsIn < 8
    ensures all == savedAll + (savedIn + n) / 8
  {
  }

  /** The stream depends on the bytes and the register. */
  twostate lemma SameStream(w: BitWriter)
    requires w.all == old(w.all) && w.bitBuffer == old(w.bitBuffer) && w.bitsIn == old(w.bitsIn)
    ensures w.Stream() == old(w.Stream())
  {
  }

  /** Writes a block with its final-block bit. It is well within what the output buffer keeps. As long as the
      bytes are there to be sent instead, it takes at most 42 bits more than they do. */
  method FlushBlock(w: BitWriter, codes: seq<LzCode>, total: nat, available: bool, bytes: seq<Byte>,
                    forceRaw: bool, forceFixed: bool, final: bool)
    returns (ghost bits: seq<bool>, ghost b: Block, ghost tried: seq<bool>)
    requires w.Valid() && w.Complete() && Buffered(codes) && |codes| < 0xFFFF
    requires available ==> |bytes| == total <= 0xFFFF
    modifies w
    ensures w.Valid() && w.Complete() && w.Stream() == old(w.Stream()) + bits
    ensures Chops(old(|w.Stream()|), bits, |bits|, b, final)
    ensures b == Compressed(codes) || (available && b == Stored(bytes))
    ensures w.end == old(|w.all|) + OUT_BUF_SIZE - 16 && |w.all| + 100 < w.end
    ensures forceRaw && available ==> b.Stored?
    ensures !(forceRaw && available) ==>
      && (if forceFixed || total < 48 then FixedBits(tried, codes) else DynamicBits(tried, codes))
      && (b.Stored? <==> Plain(available, forceRaw, total, ((old(w.bitsIn) + 1) % 8 + |tried|) / 8))
      && (b.Compressed? ==> bits == [final] + tried)
    ensures available && total > 0 ==> |bits| <= 8 * total + 42
  {
    hide LsbBits, Pow2, BitsOf, Short, Buffered, BlockBits, FixedBits, DynamicBits, BitWriter.Stream;
    OneBit(final);
    ghost var start := w.Stream();
    w.Open(OUT_BUF_SIZE - 16);
    SameStream(w);
    w.PutBits(if final then 1 else 0, 1);
    ghost var rest;
    ghost var at, all, bitsIn := |w.Stream()|, |w.all|, w.bitsIn;
    rest, b, tried := PutBlock(w, codes, total, available, bytes, forceRaw, forceFixed);
    bits := [final] + rest;
    Regroup(start, [final], rest);
    assert bits[1..|bits|] == rest;
    ShortLength(rest);
    if !(forceRaw && available) { ShortLength(tried); }
    if b.Stored? { StoredLength(at, rest, bytes); }
  }

  lemma StoredLength(at: nat, bits: seq<bool>, bytes: seq<Byte>)
    requires BlockBits(at, bits, Stored(bytes))
    ensures |bits| <= 8 * |bytes| + 41
  {
    hide LsbBits, BitsOf;
  }

  lemma ShortLength(bits: seq<bool>)
    requires Short(bits)
    ensures |bits| <= BLOCK_MAX
  {
  }

  lemma OneBit(b: bool)
    ensures (if b then 1 else 0) < Pow2(1) && LsbBits(if b then 1 else 0, 1) == [b]
  {
    assert LsbBits(0, 0) == [];
    assert LsbBits(if b then 1 else 0, 1) == [b] + LsbBits(0, 0);
  }

  /** A flush that does not end the stream: an empty stored block. */
  method SyncFlush(w: BitWriter) returns (ghost bits: seq<bool>)
    requires w.Valid()
    modifies w`out, w`all, w`bitBuffer, w`bitsIn
    ensures w.Valid() && w.bitsIn == 0 && w.Stream() == old(w.Stream()) + bits
    ensures Chops(old(|w.Stream()|), bits, |bits|, Stored([]), false)
    ensures |w.all| <= old(|w.all|) + 6
  {
    hide LsbBits, Pow2, BitsOf, StoredBits;
    OneBit(false);
    w.PutBits(0, 1);
    ghost var rest := StoredBits(|w.Stream()|, []);
    PutStored(w, []);
    bits := [false] + rest;
    assert bits[1..|bits|] == rest;
    EmptyStored(|old(w.Stream())| + 1);
  }

  lemma EmptyStored(at: nat)
    ensures |StoredBits(at, [])| <= 41
  {
    hide LsbBits, Pad;
  }

  /** The end of the stream: zero bits to fill the last byte. */
  method Finish(w: BitWriter)
    requires w.Valid()
    modifies w`out, w`all, w`bitBuffer, w`bitsIn
    ensures w.Valid() && w.bitsIn == 0 && old(w.Stream()) <= w.Stream() == BitsOf(w.all)
    ensures |w.Stream()| < old(|w.Stream()|) + 8
  {
    hide LsbBits, Pow2, BitsOf;
    if w.bitsIn > 0 { w.PutBits(0, 8 - w.bitsIn); }
    NoBits(w.bitBuffer);
  }
}
