/** What the decoder gives for the bits that an encoder writes. */
module InflateBack {
  import opened Values
  import opened Kraft
  import opened Bits
  import opened Canonical
  import opened DecodeTable
  import opened LzCodes
  import opened MatchSymbols
  import opened LengthPacking
  import opened BitStream
  import opened HuffmanReader
  import opened Deflate
  import opened InflateSpec
  import opened InflateBounds

  // ---- What blocks stand for.

  /** What a decoder makes of `codes` after `out`. */
  ghost function ExpandFrom(out: seq<Byte>, codes: seq<LzCode>): seq<Byte>
    decreases codes
  {
    if codes == [] then out else ExpandFrom(Apply(out, codes[0]), codes[1..])
  }

  /** Every match refers to bytes already there. */
  ghost predicate ReachFrom(out: seq<Byte>, codes: seq<LzCode>)
    decreases codes
  {
    codes == [] || ((codes[0].Match? ==> 1 <= codes[0].dist <= |out|) && ReachFrom(Apply(out, codes[0]), codes[1..]))
  }

  lemma {:induction false} ExpandFromGrows(out: seq<Byte>, codes: seq<LzCode>)
    ensures |ExpandFrom(out, codes)| >= |out|
    decreases codes
  {
    if codes != [] { ExpandFromGrows(Apply(out, codes[0]), codes[1..]); }
  }

  /** Codes expanded in two parts. */
  lemma {:induction false} ExpandParts(a: seq<LzCode>, b: seq<LzCode>)
    ensures ExpandFrom(Expand(a), b) == Expand(a + b)
    ensures Reaches(a + b) ==> ReachFrom(Expand(a), b)
    decreases |b|
  {
    hide Apply;
    if b == [] {
      assert a + b == a;
    } else {
      var a' := a + [b[0]];
      assert a + b == a' + b[1..];
      ExpandNext(a, b[0]);
      ExpandParts(a', b[1..]);
      if Reaches(a + b) {
        assert (a + b)[|a|] == b[0] && (a + b)[..|a|] == a;
      }
    }
  }

  /** The bytes after one more block. */
  ghost function After(out: seq<Byte>, b: Block): seq<Byte> {
    match b
    case Compressed(codes) => ExpandFrom(out, codes)
    case Stored(bytes) => out + bytes
  }

  ghost predicate Reached(out: seq<Byte>, b: Block) {
    b.Compressed? ==> ReachFrom(out, b.codes)
  }

  ghost function AfterAll(out: seq<Byte>, bs: seq<Block>): seq<Byte>
    decreases bs
  {
    if bs == [] then out else AfterAll(After(out, bs[0]), bs[1..])
  }

  ghost predicate AllReached(out: seq<Byte>, bs: seq<Block>)
    decreases bs
  {
    bs == [] || (Reached(out, bs[0]) && AllReached(After(out, bs[0]), bs[1..]))
  }

  lemma {:induction false} AfterAllGrows(out: seq<Byte>, bs: seq<Block>)
    ensures |AfterAll(out, bs)| >= |out|
    decreases bs
  {
    if bs != [] {
      if bs[0].Compressed? { ExpandFromGrows(out, bs[0].codes); }
      AfterAllGrows(After(out, bs[0]), bs[1..]);
    }
  }

  lemma {:induction false} AfterAllNext(out: seq<Byte>, bs: seq<Block>, b: Block)
    ensures AfterAll(out, bs + [b]) == After(AfterAll(out, bs), b)
    ensures AllReached(out, bs) && Reached(AfterAll(out, bs), b) ==> AllReached(out, bs + [b])
    decreases bs
  {
    hide After, Reached;
    if bs == [] {
      assert (bs + [b])[1..] == [];
    } else {
      AfterAllNext(After(out, bs[0]), bs[1..], b);
      assert (bs + [b])[1..] == bs[1..] + [b];
    }
  }

  // ---- Fields.

  /** A field is read back, and leaves what follows it. */
  lemma FieldBack(x: nat, n: nat, tail: seq<bool>)
    requires x < Pow2(n)
    ensures var bits := LsbBits(x, n) + tail; Field(bits, n) == x && bits[n..] == tail
  {
    hide LsbBits, LsbValue, Pow2;
    LsbBitsValue(x, n);
    assert (LsbBits(x, n) + tail)[..n] == LsbBits(x, n);
  }

  lemma LenTables(x: nat)
    requires x < 256
    ensures var sym := LenSym(x); LenBits(sym) == LenExtra(x) && LenBase(sym) + x % Span(LenExtra(x)) == x + MIN_MATCH
  {
    hide Span, LenSym, LenExtra;
    LengthBack(x);
  }

  lemma DistTables(y: nat)
    requires y < 32768
    ensures var sym := DistSym(y); DistBits(sym) == DistExtra(y) && DistBase(sym) + y % Span(DistExtra(y)) == y + 1
  {
    hide Span, DistSym, DistExtra;
    DistanceBack(y);
  }

  lemma ExtraValue(x: nat, n: nat)
    requires n <= 13
    ensures LsbValue(ExtraOf(x, n)) == x % Span(n) && (n == 0 ==> x % Span(n) == 0)
  {
    hide LsbBits, LsbValue, Pow2;
    SpanIsPow2(n);
    LsbBitsValue(x % Span(n), n);
  }

  lemma MatchStarts(lit: seq<nat>, dist: seq<nat>, c: LzCode, tail: seq<bool>)
    requires Coded(lit, dist, c) && c.Match?
    ensures var x, y := c.len - MIN_MATCH, c.dist - 1;
      CodeBits(lit, dist, c) + tail ==
        Word(lit, LenSym(x)) + (ExtraOf(x, LenExtra(x)) + (Word(dist, DistSym(y)) + (ExtraOf(y, DistExtra(y)) + tail)))
  {
    hide Word, ExtraOf, LenSym, DistSym, LenExtra, DistExtra;
    var x, y := c.len - MIN_MATCH, c.dist - 1;
    Regroup5(Word(lit, LenSym(x)), ExtraOf(x, LenExtra(x)), Word(dist, DistSym(y)), ExtraOf(y, DistExtra(y)), tail);
  }

  lemma ExtraBack(x: nat, n: nat, tail: seq<bool>)
    requires n <= 13
    ensures var bits := ExtraOf(x, n) + tail; |bits| >= n && Field(bits, n) == x % Span(n) && bits[n..] == tail
  {
    hide LsbBits, LsbValue, Pow2, Span;
    ExtraValue(x, n);
    assert (ExtraOf(x, n) + tail)[..n] == ExtraOf(x, n);
  }

  // ---- The body of a block.

  lemma MatchBack(dist: seq<nat>, x: nat, y: nat, tail: seq<bool>)
    requires Accepted(dist) && |dist| <= 32 && x < 256 && y < 32768 && DistSym(y) < |dist| && dist[DistSym(y)] > 0
    ensures MatchOf(dist, LenSym(x),
                    ExtraOf(x, LenExtra(x)) + (Word(dist, DistSym(y)) + (ExtraOf(y, DistExtra(y)) + tail)))
         == Copying(LenSym(x), x + MIN_MATCH, y + 1, tail)
  {
    hide Word, ExtraOf, LenSym, DistSym, LenExtra, DistExtra, NextOf, Accepted, Field, Span, LenBits, LenBase, DistBits,
      DistBase;
    var near := ExtraOf(y, DistExtra(y)) + tail;
    var far := Word(dist, DistSym(y)) + near;
    LenTables(x);
    DistTables(y);
    ExtraBack(x, LenExtra(x), far);
    WordNext(dist, DistSym(y), near);
    ExtraBack(y, DistExtra(y), tail);
  }

  /** A code is read back, and leaves what follows it. */
  lemma TurnBack(lit: seq<nat>, dist: seq<nat>, c: LzCode, tail: seq<bool>)
    requires Accepted(lit) && Accepted(dist) && |lit| <= 288 && |dist| <= 32 && Coded(lit, dist, c)
    ensures TurnOf(lit, dist, CodeBits(lit, dist, c) + tail) ==
      match c
      case Lit(b) => Literal(b, tail)
      case Match(len, d) => Copying(LenSym(len - MIN_MATCH), len, d, tail)
  {
    hide Word, ExtraOf, LenSym, DistSym, LenExtra, DistExtra, NextOf, Accepted, MatchOf;
    match c
    case Lit(b) => WordNext(lit, b, tail);
    case Match(len, d) =>
      var x, y := len - MIN_MATCH, d - 1;
      var near := ExtraOf(x, LenExtra(x)) + (Word(dist, DistSym(y)) + (ExtraOf(y, DistExtra(y)) + tail));
      MatchStarts(lit, dist, c, tail);
      WordNext(lit, LenSym(x), near);
      MatchBack(dist, x, y, tail);
  }

  lemma EndBack(lit: seq<nat>, dist: seq<nat>, tail: seq<bool>)
    requires Accepted(lit) && 256 < |lit| <= 288 && |dist| <= 32 && lit[256] > 0
    ensures TurnOf(lit, dist, Word(lit, 256) + tail) == End(tail)
  {
    hide Word, NextOf, Accepted;
    WordNext(lit, 256, tail);
  }

  /** A match that reaches back is the byte-by-byte copy. */
  lemma {:induction false} CopyFromIs(out: seq<Byte>, mem: seq<Byte>, dist: nat, len: nat)
    requires 1 <= dist <= |out|
    ensures CopyFrom(out, mem, dist, len) == Copy(out, dist, len)
    decreases len
  {
    if len > 0 { CopyFromIs(out + [out[|out| - dist]], mem, dist, len - 1); }
  }

  /** With room for it, a turn has the effect of its code. */
  lemma PutBack(c: LzCode, t: Turn, mem: seq<Byte>, end: nat, out: seq<Byte>)
    requires c.Valid() && (c.Match? ==> c.dist <= |out|) && |Apply(out, c)| <= end
    requires c.Lit? ==> t.Literal? && t.byte == c.byte
    requires c.Match? ==> t.Copying? && t.len == c.len && t.dist == c.dist
    ensures Goes(t, |out|, end) && Put(t, mem, end, out) == Apply(out, c)
  {
    if c.Match? { CopyFromIs(out, mem, c.dist, c.len); }
  }

  lemma BodyStep(lit: seq<nat>, dist: seq<nat>, codes: seq<LzCode>, more: seq<bool>)
    requires AllCoded(lit, dist, codes) && |lit| > 256 && codes != []
    ensures AllCoded(lit, dist, codes[1..]) && Coded(lit, dist, codes[0])
    ensures Body(lit, dist, codes) + more == CodeBits(lit, dist, codes[0]) + (Body(lit, dist, codes[1..]) + more)
  {
    hide Word, Coded, CodeBits;
    Regroup4(CodeBits(lit, dist, codes[0]), CodesBits(lit, dist, codes[1..]), Word(lit, 256), more);
  }

  /** The body of a block gives what its codes expand to. */
  lemma {:induction false} BodyBack(lit: seq<nat>, dist: seq<nat>, mem: seq<Byte>, end: nat, codes: seq<LzCode>,
                                    more: seq<bool>, out: seq<Byte>)
    requires Accepted(lit) && Accepted(dist) && 256 < |lit| <= 288 && |dist| <= 32 && lit[256] > 0
    requires AllCoded(lit, dist, codes) && ReachFrom(out, codes) && |ExpandFrom(out, codes)| <= end
    ensures BodyRun(lit, dist, mem, end, Body(lit, dist, codes) + more, out)
         == Outcome(Done, ExpandFrom(out, codes), more)
    decreases codes
  {
    hide Word, Accepted, TurnOf, BodyRun, Goes, Put, Verdict, AllCoded, Body, Coded, CodeBits, Apply;
    var bits := Body(lit, dist, codes) + more;
    BodyTurn(lit, dist, mem, end, bits, out);
    if codes == [] {
      NoCodes(lit, dist);
      EndBack(lit, dist, more);
      EndStops(TurnOf(lit, dist, bits), mem, end, out);
    } else {
      BodyStep(lit, dist, codes, more);
      var c, next := codes[0], Body(lit, dist, codes[1..]) + more;
      CodedValid(lit, dist, c);
      TurnBack(lit, dist, c, next);
      ExpandFromGrows(Apply(out, c), codes[1..]);
      PutBack(c, TurnOf(lit, dist, bits), mem, end, out);
      BodyBack(lit, dist, mem, end, codes[1..], more, Apply(out, c));
    }
  }

  lemma CodedValid(lit: seq<nat>, dist: seq<nat>, c: LzCode)
    requires Coded(lit, dist, c)
    ensures c.Valid()
  {
  }

  lemma NoCodes(lit: seq<nat>, dist: seq<nat>)
    requires |lit| > 256
    ensures AllCoded(lit, dist, []) && Body(lit, dist, []) == Word(lit, 256)
  {
    hide Word;
    assert [] + Word(lit, 256) == Word(lit, 256);
  }

  lemma EndStops(t: Turn, mem: seq<Byte>, end: nat, out: seq<Byte>)
    requires t.End?
    ensures !Goes(t, |out|, end) && Put(t, mem, end, out) == out && Verdict(t, |out|) == Done
  {
  }

  // ---- The header of a dynamic block.

  lemma {:induction false} ClAt(cl: seq<nat>, i: nat, n: nat, k: nat)
    requires |cl| == 19 && i <= k <= n <= 19
    ensures |ClBits(cl, i, n)| == 3 * (n - i) && ClBits(cl, i, n)[3 * (k - i)..] == ClBits(cl, k, n)
    decreases n - i
  {
    hide LsbBits, ClBits;
    if i == n {
      ClBitsNone(cl, n);
    } else {
      ClBitsStep(cl, i, n);
      ClAt(cl, i + 1, n, if k == i then i + 1 else k);
      if k > i {
        assert ClBits(cl, i, n)[3 * (k - i)..] == ClBits(cl, i + 1, n)[3 * (k - (i + 1))..];
      }
    }
  }

  lemma ClField(cl: seq<nat>, n: nat, k: nat, tail: seq<bool>)
    requires |cl| == 19 && k < n <= 19 && cl[SWIZZLE[k]] < 8
    ensures var bits := ClBits(cl, 0, n) + tail; |bits| >= 3 * k + 3 && Field(bits[3 * k..], 3) == cl[SWIZZLE[k]]
  {
    hide LsbBits, ClBits, Field;
    FieldSizes();
    ClAt(cl, 0, n, k);
    ClAt(cl, k, n, k);
    ClBitsStep(cl, k, n);
    var rest := ClBits(cl, k + 1, n) + tail;
    assert (ClBits(cl, 0, n) + tail)[3 * k..] == LsbBits(cl[SWIZZLE[k]], 3) + rest;
    FieldBack(cl[SWIZZLE[k]], 3, rest);
  }

  /** The lengths of the code-length code are read back. */
  lemma ClBack(cl: seq<nat>, n: nat, tail: seq<bool>)
    requires |cl| == 19 && n <= 19
    requires (forall i :: 0 <= i < 19 ==> cl[i] < 8) && (forall i :: n <= i < 19 ==> cl[SWIZZLE[i]] == 0)
    ensures var bits := ClBits(cl, 0, n) + tail; |bits| >= 3 * n && ClOf(bits, n) == cl && bits[3 * n..] == tail
  {
    hide LsbBits, ClBits, Field, Unswizzle;
    var bits := ClBits(cl, 0, n) + tail;
    ClAt(cl, 0, n, 0);
    forall x | 0 <= x < 19 ensures ClOf(bits, n)[x] == cl[x] {
      SwizzleBack(x);
      var k := Unswizzle(x);
      assert cl[SWIZZLE[k]] == cl[x];
      if k < n { ClField(cl, n, k, tail); }
    }
  }

  lemma UnpackStep(ps: seq<Packet>, i: nat)
    requires WellFormed(ps) && i < |ps|
    ensures Unpack(ps[..i + 1]) == Unfold(Unpack(ps[..i]), ps[i])
    ensures |Unpack(ps[..i + 1])| > |Unpack(ps[..i])|
    ensures ps[i].Valid() && (ps[i].code == 16 ==> Unpack(ps[..i]) != [])
  {
    hide Unpack;
    Snoc(ps[..i], ps[i]);
    assert ps[..i + 1] == ps[..i] + [ps[i]];
  }

  lemma {:induction false} UnpackGrows(ps: seq<Packet>, i: nat)
    requires WellFormed(ps) && i <= |ps|
    ensures |Unpack(ps[..i])| <= |Unpack(ps)|
    ensures i < |ps| ==> |Unpack(ps[..i])| < |Unpack(ps)|
    decreases |ps| - i
  {
    hide Unpack;
    if i < |ps| {
      UnpackStep(ps, i);
      UnpackGrows(ps, i + 1);
    } else {
      assert ps[..i] == ps;
    }
  }

  lemma ExtraFits(p: Packet)
    requires p.Valid()
    ensures p.extra < Pow2(ExtraBits(p.code))
  {
    assert Pow2(2) == 4 && Pow2(3) == 8;
    assert Pow2(7) == 128 by { assert Pow2(4) == 16; }
  }

  lemma PacketStarts(cl: seq<nat>, ps: seq<Packet>, i: nat, tail: seq<bool>) returns (next: seq<bool>)
    requires CodedPackets(cl, ps) && i < |ps|
    ensures CodedPacket(cl, ps[i]) && CodedPackets(cl, ps[i..]) && CodedPackets(cl, ps[i + 1..])
    ensures next == PacketsBits(cl, ps[i + 1..]) + tail
    ensures PacketsBits(cl, ps[i..]) + tail
         == Word(cl, ps[i].code) + (LsbBits(ps[i].extra, ExtraBits(ps[i].code)) + next)
  {
    hide Word, LsbBits;
    assert ps[i..][1..] == ps[i + 1..] && ps[i..][0] == ps[i];
    next := PacketsBits(cl, ps[i + 1..]) + tail;
  }

  /** The code lengths are unpacked as they were packed. */
  lemma {:induction false} LensBack(cl: seq<nat>, ps: seq<Packet>, i: nat, tail: seq<bool>)
    requires Accepted(cl) && CodedPackets(cl, ps) && WellFormed(ps) && i <= |ps|
    ensures CodedPackets(cl, ps[i..])
    ensures LensOf(cl, |Unpack(ps)|, PacketsBits(cl, ps[i..]) + tail, Unpack(ps[..i])) == Lens(Done, Unpack(ps), tail)
    decreases |ps| - i
  {
    hide Word, LsbBits, Unpack, Unfold, NextOf, Accepted, Field, LensOf, CodedPacket, WellFormed;
    var lens := Unpack(ps[..i]);
    UnpackGrows(ps, i);
    LensStep(cl, |Unpack(ps)|, PacketsBits(cl, ps[i..]) + tail, lens);
    if i == |ps| {
      assert ps[..i] == ps && ps[i..] == [] && [] + tail == tail;
    } else {
      var next := PacketStarts(cl, ps, i, tail);
      PacketBack(cl, ps[i], next);
      UnpackStep(ps, i);
      LensBack(cl, ps, i + 1, tail);
    }
  }

  lemma PacketBack(cl: seq<nat>, p: Packet, next: seq<bool>)
    requires Accepted(cl) && CodedPacket(cl, p)
    ensures var e := ExtraBits(p.code); var rest := LsbBits(p.extra, e) + next;
      && NextOf(cl, Word(cl, p.code) + rest) == Symbol(p.code, cl[p.code])
      && (Word(cl, p.code) + rest)[cl[p.code]..] == rest
      && |rest| >= e && Field(rest, e) == p.extra && rest[e..] == next
  {
    hide Word, LsbBits, NextOf, Accepted, Field;
    ExtraFits(p);
    WordNext(cl, p.code, LsbBits(p.extra, ExtraBits(p.code)) + next);
    FieldBack(p.extra, ExtraBits(p.code), next);
  }

  /** A header is read back. */
  lemma HeaderBack(t: Tables, tail: seq<bool>)
    requires t.Valid()
    ensures HeaderOf(t.Header() + tail) == Tabled(t.lit, t.dist, tail)
  {
    hide LsbBits, ClBits, PacketsBits, Accepted, Unpack, WellFormed, CodedPackets, Field, LensOf, ClOf;
    var packets := PacketsBits(t.cl, t.packets) + tail;
    var lengths := ClBits(t.cl, 0, t.numCl) + packets;
    FieldSizes();
    var c := LsbBits(t.numCl - 4, 4) + lengths;
    var b := LsbBits(|t.dist| - 1, 5) + c;
    var bits := LsbBits(|t.lit| - 257, 5) + b;
    assert t.Header() + tail == bits;
    FieldBack(|t.lit| - 257, 5, b);
    FieldBack(|t.dist| - 1, 5, c);
    FieldBack(t.numCl - 4, 4, lengths);
    assert bits[10..] == bits[5..][5..] && bits[14..] == bits[10..][4..];
    TablesBack(t, tail);
  }

  lemma TablesBack(t: Tables, tail: seq<bool>)
    requires t.Valid()
    ensures TablesOf(|t.lit|, |t.dist|, t.numCl, ClBits(t.cl, 0, t.numCl) + (PacketsBits(t.cl, t.packets) + tail))
         == Tabled(t.lit, t.dist, tail)
  {
    hide LsbBits, ClBits, PacketsBits, Accepted, Unpack, WellFormed, Field, LensOf, ClOf;
    ClBack(t.cl, t.numCl, PacketsBits(t.cl, t.packets) + tail);
    LensBack(t.cl, t.packets, 0, tail);
    assert t.packets[0..] == t.packets && t.packets[..0] == [];
    assert Unpack([]) == [] by { UnpackNone(); }
    assert (t.lit + t.dist)[..|t.lit|] == t.lit && (t.lit + t.dist)[|t.lit|..] == t.dist;
  }

  lemma UnpackNone()
    ensures Unpack([]) == []
  {
  }

  // ---- Stored blocks.

  lemma {:induction false} BytesBack(bytes: seq<Byte>, end: nat, tail: seq<bool>, out: seq<Byte>)
    requires |out| + |bytes| <= end
    ensures BytesRun(|bytes|, end, BitsOf(bytes) + tail, out) == Outcome(Done, out + bytes, tail)
    decreases |bytes|
  {
    hide LsbBits, BitsOf, ByteOf;
    var bits := BitsOf(bytes) + tail;
    if bytes == [] {
      BitsOfNone();
      assert bits == tail && out + bytes == out;
    } else {
      var rest := BitsOf(bytes[1..]) + tail;
      BitsOfNext(bytes, 0);
      assert bytes[0..] == bytes;
      assert bits == LsbBits(bytes[0], 8) + rest;
      assert bits[..8] == LsbBits(bytes[0], 8) && bits[8..] == rest;
      ByteIs(bits, bytes[0]);
      BytesBack(bytes[1..], end, tail, out + [bytes[0]]);
      assert out + [bytes[0]] + bytes[1..] == out + bytes;
    }
  }

  /** A stored block gives back its bytes. */
  lemma StoredBack(bytes: seq<Byte>, end: nat, tail: seq<bool>, out: seq<Byte>)
    requires |bytes| <= 0xFFFF && |out| + |bytes| <= end
    ensures StoredRun(end, LsbBits(|bytes|, 16) + (LsbBits(0xFFFF - |bytes|, 16) + (BitsOf(bytes) + tail)), out)
         == Outcome(Done, out + bytes, tail)
  {
    hide LsbBits, BitsOf, Field, BytesRun, Pow2;
    Pow2Table();
    var n := |bytes|;
    var c := BitsOf(bytes) + tail;
    var b := LsbBits(0xFFFF - n, 16) + c;
    var bits := LsbBits(n, 16) + b;
    FieldBack(n, 16, b);
    FieldBack(0xFFFF - n, 16, c);
    assert bits[32..] == bits[16..][16..];
    BytesBack(bytes, end, tail, out);
  }

  // ---- Whole streams.

  /** The final-block bit and the type of a block are read back. */
  lemma TypeBack(final: bool, kind: nat, tail: seq<bool>)
    requires kind < 4
    ensures var bits := [final] + LsbBits(kind, 2) + tail;
      bits[0] == final && Field(bits[1..], 2) == kind && bits[3..] == tail
  {
    hide LsbBits, Field;
    assert Pow2(2) == 4;
    var bits := [final] + LsbBits(kind, 2) + tail;
    assert bits[1..] == LsbBits(kind, 2) + tail;
    FieldBack(kind, 2, tail);
    assert bits[3..] == bits[1..][2..];
  }

  /** The stream goes on, from bit `place`, with a block and then `more`, up to a byte boundary. */
  ghost predicate BlockAhead(place: nat, bits: seq<bool>, b: Block, final: bool, more: seq<bool>) {
    Chops(place, bits, |bits|, b, final) && (place + |bits| + |more|) % 8 == 0
  }

  /** What decoding a block at the start of `all` must give. */
  ghost predicate Given(all: seq<bool>, mem: seq<Byte>, end: nat, out: seq<Byte>, b: Block, final: bool,
                        more: seq<bool>) {
    |all| >= 3 && all[0] == final && BlockRun(mem, end, all, out) == Outcome(Done, After(out, b), more)
  }

  lemma StoredGiven(place: nat, bytes: seq<Byte>, final: bool, body: seq<bool>, more: seq<bool>, mem: seq<Byte>,
                    end: nat, out: seq<Byte>)
    requires |bytes| <= 0xFFFF && body == StoredBits(place + 1, bytes) && |out| + |bytes| <= end
    requires (place + 1 + |body| + |more|) % 8 == 0
    ensures Given([final] + body + more, mem, end, out, Stored(bytes), final, more)
  {
    hide LsbBits, BitsOf, StoredRun, Field, Pad;
    var pad := Pad(place + 3);
    var c := LsbBits(|bytes|, 16) + (LsbBits(0xFFFF - |bytes|, 16) + (BitsOf(bytes) + more));
    var tail := LsbBits(0, pad) + c;
    assert [final] + body + more == [final] + LsbBits(0, 2) + tail;
    TypeBack(final, 0, tail);
    assert |tail| % 8 == pad by { Aligned(place + 3, |tail|, |c|, pad); }
    assert tail[pad..] == c;
    StoredBack(bytes, end, more, out);
  }

  /** Up to a byte boundary from `at`, `n` bits: those left over from whole bytes are the padding. */
  lemma Aligned(at: nat, n: nat, m: nat, pad: nat)
    requires (at + n) % 8 == 0 && n == pad + m && pad == Pad(at)
    ensures n % 8 == pad
  {
    assert (at + pad) % 8 == 0 && pad < 8;
    assert m % 8 == 0;
  }

  lemma FixedGiven(codes: seq<LzCode>, final: bool, body: seq<bool>, more: seq<bool>, mem: seq<Byte>, end: nat,
                   out: seq<Byte>)
    requires FixedBits(body, codes) && ReachFrom(out, codes) && |ExpandFrom(out, codes)| <= end
    ensures Given([final] + body + more, mem, end, out, Compressed(codes), final, more)
  {
    hide LsbBits, CodesBits, Word, Body, Accepted, BodyRun, Field, AllCoded;
    FixedAccepted();
    var tail := Body(FIXED_LIT, FIXED_DIST, codes) + more;
    assert [final] + body + more == [final] + LsbBits(1, 2) + tail;
    TypeBack(final, 1, tail);
    BodyBack(FIXED_LIT, FIXED_DIST, mem, end, codes, more, out);
  }

  lemma DynamicGiven(codes: seq<LzCode>, final: bool, body: seq<bool>, more: seq<bool>, mem: seq<Byte>, end: nat,
                     out: seq<Byte>)
    requires DynamicBits(body, codes) && ReachFrom(out, codes) && |ExpandFrom(out, codes)| <= end
    ensures Given([final] + body + more, mem, end, out, Compressed(codes), final, more)
  {
    hide LsbBits, CodesBits, Word, Body, Accepted, BodyRun, Field, AllCoded, HeaderOf, Unpack, WellFormed, CodedPackets,
      PacketsBits, ClBits;
    var t :| TableBits(t, body, codes);
    var rest := Body(t.lit, t.dist, codes) + more;
    var tail := t.Header() + rest;
    assert [final] + body + more == [final] + LsbBits(2, 2) + tail;
    TypeBack(final, 2, tail);
    HeaderBack(t, rest);
    BodyBack(t.lit, t.dist, mem, end, codes, more, out);
  }

  /** A block gives what it stands for. */
  lemma BlockBack(place: nat, bits: seq<bool>, b: Block, final: bool, more: seq<bool>, mem: seq<Byte>, end: nat,
                  out: seq<Byte>)
    requires BlockAhead(place, bits, b, final, more) && Reached(out, b) && |After(out, b)| <= end
    ensures Given(bits + more, mem, end, out, b, final, more)
  {
    hide LsbBits, BitsOf, Body, FixedBits, DynamicBits, StoredBits, Given;
    var body := bits[1..|bits|];
    assert bits == [final] + body;
    if b.Stored? {
      StoredGiven(place, b.bytes, final, body, more, mem, end, out);
    } else if FixedBits(body, b.codes) {
      FixedGiven(b.codes, final, body, more, mem, end, out);
    } else {
      DynamicGiven(b.codes, final, body, more, mem, end, out);
    }
  }

  lemma {:induction false} StreamBack(place: nat, bits: seq<bool>, bs: seq<Block>, more: seq<bool>, mem: seq<Byte>,
                                      end: nat, out: seq<Byte>)
    requires BlocksBits(place, bits, bs, true) && (place + |bits| + |more|) % 8 == 0
    requires AllReached(out, bs) && |AfterAll(out, bs)| <= end
    ensures StreamRun(mem, end, bits + more, out) == Outcome(Done, AfterAll(out, bs), more)
    decreases bs
  {
    hide BlockRun, BlockBits, Reached, After;
    var k: nat :| Chops(place, bits, k, bs[0], |bs| == 1) && BlocksBits(place + k, bits[k..], bs[1..], |bs| > 1);
    var first, next := bits[..k], bits[k..];
    assert first[1..k] == bits[1..k];
    assert bits + more == first + (next + more);
    AfterAllGrows(After(out, bs[0]), bs[1..]);
    BlockBack(place, first, bs[0], |bs| == 1, next + more, mem, end, out);
    if |bs| > 1 {
      StreamBack(place + k, next, bs[1..], more, mem, end, After(out, bs[0]));
    } else {
      assert next == [] && next + more == more;
    }
  }

  /** The input starts with the bits of the blocks `bs`, whose contents fit in `room` bytes. */
  ghost predicate StandsFor(input: seq<Byte>, bits: seq<bool>, bs: seq<Block>, room: nat) {
    BlocksBits(0, bits, bs, true) && bits <= BitsOf(input) && AllReached([], bs) && |AfterAll([], bs)| <= room
  }

  /** From the bits of any sequence of blocks, whatever follows them, the decoder gives exactly the
      bytes that they stand for, and leaves the rest. */
  lemma GivesBack(input: seq<Byte>, bits: seq<bool>, bs: seq<Block>, mem: seq<Byte>, end: nat)
    requires StandsFor(input, bits, bs, end)
    ensures StreamRun(mem, end, BitsOf(input), []) == Outcome(Done, AfterAll([], bs), BitsOf(input)[|bits|..])
  {
    hide BitsOf, BlocksBits, AllReached, AfterAll, StreamRun;
    var more := BitsOf(input)[|bits|..];
    assert BitsOf(input) == bits + more;
    StreamBack(0, bits, bs, more, mem, end, []);
  }
}
