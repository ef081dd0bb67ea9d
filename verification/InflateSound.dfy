/** What the decoder accepts: bits it takes for a whole stream are those of blocks in the format, unless on the
    way it read bits that are no word of the code, or a symbol that the format leaves out. */
module InflateSound {
  import opened Values
  import opened Kraft
  import opened Bits
  import opened Canonical
  import opened LzCodes
  import opened MatchSymbols
  import opened LengthPacking
  import opened BitStream
  import opened HuffmanReader
  import opened Deflate
  import opened InflateSpec
  import opened InflateBack

  // ---- Words and fields.

  /** The bits begin with the word that is read. */
  lemma WordRead(sizes: seq<nat>, bits: seq<bool>)
    requires HasWord(sizes, bits)
    ensures var d := NextOf(sizes, bits);
      && d.Symbol? && 0 <= d.sym < |sizes| && sizes[d.sym] > 0 && d.len == sizes[d.sym]
      && |Word(sizes, d.sym)| == d.len && bits == Word(sizes, d.sym) + bits[d.len..]
  {
  }

  lemma FieldRead(bits: seq<bool>, n: nat)
    requires n <= |bits|
    ensures bits == LsbBits(Field(bits, n), n) + bits[n..] && Field(bits, n) < Pow2(n)
  {
    hide LsbBits, LsbValue, Pow2;
    LsbRoundTrip(bits[..n]);
  }

  // ---- The body of a block.

  /** What stands in the body of a block (section 3.2.5 of RFC 1951): a byte, or a length symbol with its extra
      bits and a distance symbol with its extra bits. */
  datatype Token = Plain(byte: Byte) | Back(sym: nat, more: nat, far: nat, further: nat) {
    ghost predicate Valid(lit: seq<nat>, dist: seq<nat>) {
      match this
      case Plain(b) => b < |lit| && lit[b] > 0
      case Back(s, x, d, y) =>
        && 257 <= s <= 285 && s < |lit| && lit[s] > 0 && x < Pow2(LENGTH_EXTRA[s - 257])
        && d < 30 && d < |dist| && dist[d] > 0 && y < Pow2(DIST_EXTRA[d])
    }

    ghost function Bits(lit: seq<nat>, dist: seq<nat>): seq<bool>
      requires Valid(lit, dist)
    {
      match this
      case Plain(b) => Word(lit, b)
      case Back(s, x, d, y) =>
        Word(lit, s) + (LsbBits(x, LENGTH_EXTRA[s - 257]) + (Word(dist, d) + LsbBits(y, DIST_EXTRA[d])))
    }

    ghost function Code(): LzCode
      requires Back? ==> 257 <= sym <= 285 && far < 30
    {
      match this
      case Plain(b) => Lit(b)
      case Back(s, x, d, y) => Match(LENGTH_BASE[s - 257] + x, DIST_BASE[d] + y)
    }
  }

  /** A token stands for a length from 3 to 258 and a distance from 1 to 32768. */
  lemma TokenCode(t: Token, lit: seq<nat>, dist: seq<nat>)
    requires t.Valid(lit, dist)
    ensures t.Code().Valid()
  {
    hide Pow2;
    if t.Back? {
      LengthAtMost(t.sym, t.more);
      DistanceAtMost(t.far, t.further);
    }
  }

  lemma LengthAtMost(s: nat, x: nat)
    requires 257 <= s <= 285 && x < Pow2(LENGTH_EXTRA[s - 257])
    ensures 3 <= LENGTH_BASE[s - 257] + x <= 258
  {
    assert Pow2(3) == 8 && Pow2(5) == 32;
  }

  lemma DistanceAtMost(d: nat, y: nat)
    requires d < 30 && y < Pow2(DIST_EXTRA[d])
    ensures 1 <= DIST_BASE[d] + y <= 32768
  {
    assert Pow2(3) == 8 && Pow2(6) == 64 && Pow2(9) == 512 && Pow2(12) == 4096 && Pow2(13) == 8192;
  }

  ghost predicate AllTokens(ts: seq<Token>, lit: seq<nat>, dist: seq<nat>) {
    forall i :: 0 <= i < |ts| ==> ts[i].Valid(lit, dist)
  }

  ghost function TokensBits(ts: seq<Token>, lit: seq<nat>, dist: seq<nat>): seq<bool>
    requires AllTokens(ts, lit, dist)
  {
    if ts == [] then [] else ts[0].Bits(lit, dist) + TokensBits(ts[1..], lit, dist)
  }

  ghost function Codes(ts: seq<Token>, lit: seq<nat>, dist: seq<nat>): seq<LzCode>
    requires AllTokens(ts, lit, dist)
  {
    if ts == [] then [] else [ts[0].Code()] + Codes(ts[1..], lit, dist)
  }

  /** The next symbol has a word, is one of the format, and so is the distance behind it. */
  ghost predicate Regular(lit: seq<nat>, dist: seq<nat>, bits: seq<bool>) {
    && HasWord(lit, bits)
    && (match NextOf(lit, bits)
        case Stuck => false
        case Symbol(s, n) => 0 <= s <= 285 && (s > 256 ==> RegularMatch(dist, s, bits[n..])))
  }

  ghost predicate RegularMatch(dist: seq<nat>, sym: nat, bits: seq<bool>)
    requires 256 < sym < 288
  {
    LenBits(sym) <= |bits| ==>
      var far := bits[LenBits(sym)..];
      HasWord(dist, far) && NextOf(dist, far).Symbol? && NextOf(dist, far).sym < 30
  }

  ghost predicate RegularBody(lit: seq<nat>, dist: seq<nat>, mem: seq<Byte>, end: nat, bits: seq<bool>,
                              out: seq<Byte>)
    requires |lit| <= 288 && |dist| <= 32
    decreases |bits|, end - |out|
  {
    var t := TurnOf(lit, dist, bits);
    && Regular(lit, dist, bits)
    && (Goes(t, |out|, end) ==> RegularBody(lit, dist, mem, end, t.rest, Put(t, mem, end, out)))
  }

  lemma MatchSound(dist: seq<nat>, sym: nat, bits: seq<bool>) returns (t: Token)
    requires 257 <= sym <= 285 && |dist| <= 32 && RegularMatch(dist, sym, bits) && MatchOf(dist, sym, bits).Copying?
    ensures t.Back? && t.sym == sym && t.far < 30 && t.far < |dist| && dist[t.far] > 0
    ensures t.more < Pow2(LENGTH_EXTRA[sym - 257]) && t.further < Pow2(DIST_EXTRA[t.far])
    ensures var m := MatchOf(dist, sym, bits);
      && t.Code() == Match(m.len, m.dist)
      && bits == LsbBits(t.more, LENGTH_EXTRA[sym - 257])
                 + (Word(dist, t.far) + (LsbBits(t.further, DIST_EXTRA[t.far]) + m.rest))
  {
    hide LsbBits, Pow2, NextOf, HasWord, Word, Field;
    var e := LenBits(sym);
    var far := bits[e..];
    WordRead(dist, far);
    var d := NextOf(dist, far);
    var rest := far[d.len..];
    FieldRead(bits, e);
    FieldRead(rest, DistBits(d.sym));
    t := Back(sym, Field(bits, e), d.sym, Field(rest, DistBits(d.sym)));
  }

  /** A regular turn that goes on is a token. */
  lemma TurnSound(lit: seq<nat>, dist: seq<nat>, bits: seq<bool>) returns (t: Token)
    requires |lit| <= 288 && |dist| <= 32 && Regular(lit, dist, bits)
    requires var m := TurnOf(lit, dist, bits); m.Literal? || m.Copying?
    ensures t.Valid(lit, dist)
    ensures var m := TurnOf(lit, dist, bits);
      && bits == t.Bits(lit, dist) + m.rest
      && t.Code() == if m.Literal? then Lit(m.byte) else Match(m.len, m.dist)
  {
    hide LsbBits, Pow2, NextOf, HasWord, Word, MatchOf, RegularMatch;
    WordRead(lit, bits);
    var d := NextOf(lit, bits);
    if d.sym < 256 {
      t := Plain(d.sym);
    } else {
      var rest := bits[d.len..];
      t := MatchSound(dist, d.sym, rest);
      var m := MatchOf(dist, d.sym, rest);
      Regroup4(Word(lit, d.sym), LsbBits(t.more, LENGTH_EXTRA[d.sym - 257]),
               Word(dist, t.far) + LsbBits(t.further, DIST_EXTRA[t.far]), m.rest);
      Regroup(Word(dist, t.far), LsbBits(t.further, DIST_EXTRA[t.far]), m.rest);
      Regroup(Word(lit, d.sym), LsbBits(t.more, LENGTH_EXTRA[d.sym - 257]),
              Word(dist, t.far) + LsbBits(t.further, DIST_EXTRA[t.far]));
    }
  }

  lemma EndSound(lit: seq<nat>, dist: seq<nat>, bits: seq<bool>)
    requires |lit| <= 288 && |dist| <= 32 && Regular(lit, dist, bits) && TurnOf(lit, dist, bits).End?
    ensures 256 < |lit| && lit[256] > 0 && bits == Word(lit, 256) + TurnOf(lit, dist, bits).rest
  {
    hide NextOf, HasWord, Word, MatchOf, RegularMatch;
    WordRead(lit, bits);
  }

  /** Bits taken for the body of a block are tokens and the end-of-block symbol, and give what the tokens
      stand for. */
  lemma {:induction false} BodySound(lit: seq<nat>, dist: seq<nat>, mem: seq<Byte>, end: nat, bits: seq<bool>,
                                     out: seq<Byte>) returns (ts: seq<Token>)
    requires |lit| <= 288 && |dist| <= 32 && RegularBody(lit, dist, mem, end, bits, out)
    requires BodyRun(lit, dist, mem, end, bits, out).status == Done
    ensures AllTokens(ts, lit, dist) && 256 < |lit| && lit[256] > 0
    ensures var o := BodyRun(lit, dist, mem, end, bits, out);
      && bits == TokensBits(ts, lit, dist) + (Word(lit, 256) + o.rest)
      && ReachFrom(out, Codes(ts, lit, dist)) && o.out == ExpandFrom(out, Codes(ts, lit, dist))
    decreases |bits|, end - |out|
  {
    hide Word, TurnOf, Regular, Token.Bits, Token.Code, Token.Valid, Apply;
    var t := TurnOf(lit, dist, bits);
    if Goes(t, |out|, end) {
      var tok := TurnSound(lit, dist, bits);
      StepSound(lit, dist, mem, end, t, tok, out);
      var more := BodySound(lit, dist, mem, end, t.rest, Put(t, mem, end, out));
      ts := [tok] + more;
      assert ts[1..] == more;
      Regroup(tok.Bits(lit, dist), TokensBits(more, lit, dist),
              Word(lit, 256) + BodyRun(lit, dist, mem, end, bits, out).rest);
      assert Codes(ts, lit, dist)[1..] == Codes(more, lit, dist);
    } else {
      EndSound(lit, dist, bits);
      ts := [];
    }
  }

  lemma StepSound(lit: seq<nat>, dist: seq<nat>, mem: seq<Byte>, end: nat, m: Turn, t: Token, out: seq<Byte>)
    requires t.Valid(lit, dist) && Goes(m, |out|, end)
    requires t.Code() == if m.Literal? then Lit(m.byte) else Match(m.len, m.dist)
    ensures Put(m, mem, end, out) == Apply(out, t.Code()) && (t.Code().Match? ==> 1 <= t.Code().dist <= |out|)
  {
    hide Token.Code, Token.Valid;
    TokenCode(t, lit, dist);
    if m.Copying? { CopyFromIs(out, mem, m.dist, m.len); }
  }

  // ---- The header of a dynamic block.

  ghost predicate RegularLens(cl: seq<nat>, total: nat, bits: seq<bool>, lens: seq<nat>)
    requires |cl| == 19
    decreases total - |lens|
  {
    |lens| < total ==>
      && HasWord(cl, bits)
      && match NextOf(cl, bits)
         case Stuck => true
         case Symbol(code, n) =>
           var rest, e := bits[n..], ExtraBits(code);
           !(code == 16 && lens == []) && e <= |rest| ==>
             RegularLens(cl, total, rest[e..], Unfold(lens, Packet(code, Field(rest, e))))
  }

  lemma RegularLensStep(cl: seq<nat>, total: nat, bits: seq<bool>, lens: seq<nat>)
    requires |cl| == 19 && RegularLens(cl, total, bits, lens) && |lens| < total
    ensures HasWord(cl, bits)
    ensures match NextOf(cl, bits)
      case Stuck => true
      case Symbol(code, n) =>
        var rest, e := bits[n..], ExtraBits(code);
        !(code == 16 && lens == []) && e <= |rest| ==>
          RegularLens(cl, total, rest[e..], Unfold(lens, Packet(code, Field(rest, e))))
  {
    hide NextOf, Unfold, Field, HasWord;
  }

  lemma PacketRead(cl: seq<nat>, bits: seq<bool>)
    requires |cl| == 19 && HasWord(cl, bits)
    ensures NextOf(cl, bits).Symbol? && 0 <= NextOf(cl, bits).sym && NextOf(cl, bits).len <= |bits|
    ensures
      var d := NextOf(cl, bits);
      var rest, e := bits[d.len..], ExtraBits(d.sym);
      e <= |rest| ==>
        && CodedPacket(cl, Packet(d.sym, Field(rest, e)))
        && bits == PacketBits(cl, Packet(d.sym, Field(rest, e))) + rest[e..]
  {
    hide LsbBits, NextOf, HasWord, Word, Field, Pow2;
    WordRead(cl, bits);
    var d := NextOf(cl, bits);
    var rest, e := bits[d.len..], ExtraBits(d.sym);
    if e <= |rest| {
      FieldRead(rest, e);
      RepeatSizes(d.sym);
      Regroup(Word(cl, d.sym), LsbBits(Field(rest, e), e), rest[e..]);
    }
  }

  lemma RepeatSizes(code: nat)
    requires code <= 18
    ensures Pow2(ExtraBits(code)) == if code < 16 then 1 else if code == 16 then 4 else if code == 17 then 8 else 128
  {
    assert Pow2(2) == 4 && Pow2(3) == 8 && Pow2(5) == 32 && Pow2(7) == 128;
  }

  lemma WellFormedNext(ps: seq<Packet>, p: Packet)
    requires WellFormed(ps) && p.Valid() && (p.code == 16 ==> Unpack(ps) != [])
    ensures WellFormed(ps + [p]) && Unpack(ps + [p]) == Unfold(Unpack(ps), p)
  {
    hide Unpack, Unfold;
    Snoc(ps, p);
    var qs := ps + [p];
    forall i | 0 <= i < |qs| ensures qs[i].Valid() && (qs[i].code == 16 ==> Unpack(qs[..i]) != []) {
      if i < |ps| { assert qs[..i] == ps[..i]; } else { assert qs[..i] == ps; }
    }
  }

  /** Bits taken for code lengths are packets that unpack to them. */
  lemma {:induction false} LensSound(cl: seq<nat>, total: nat, bits: seq<bool>, before: seq<Packet>)
    returns (ps: seq<Packet>)
    requires |cl| == 19 && WellFormed(before) && RegularLens(cl, total, bits, Unpack(before))
    requires LensOf(cl, total, bits, Unpack(before)).status == Done
    ensures CodedPackets(cl, ps) && WellFormed(before + ps)
    ensures var r := LensOf(cl, total, bits, Unpack(before));
      Unpack(before + ps) == r.lens && bits == PacketsBits(cl, ps) + r.rest
    decreases total - |Unpack(before)|
  {
    hide Word, LsbBits, Unpack, Unfold, NextOf, HasWord, Field, LensOf, RegularLens, CodedPacket, PacketBits;
    hide WellFormed;
    var lens := Unpack(before);
    LensStep(cl, total, bits, lens);
    if |lens| >= total {
      ps := [];
      assert before + ps == before;
    } else {
      RegularLensStep(cl, total, bits, lens);
      PacketRead(cl, bits);
      var d := NextOf(cl, bits);
      var rest, e := bits[d.len..], ExtraBits(d.sym);
      var p := Packet(d.sym, Field(rest, e));
      PacketValid(cl, p);
      WellFormedNext(before, p);
      UnfoldGrows(lens, p);
      var more := LensSound(cl, total, rest[e..], before + [p]);
      ps := [p] + more;
      assert ps[1..] == more && before + [p] + more == before + ps;
      Regroup(PacketBits(cl, p), PacketsBits(cl, more), LensOf(cl, total, bits, lens).rest);
    }
  }

  lemma PacketValid(cl: seq<nat>, p: Packet)
    requires CodedPacket(cl, p)
    ensures p.Valid()
  {
  }

  lemma UnfoldGrows(lens: seq<nat>, p: Packet)
    requires p.code == 16 ==> lens != []
    ensures |Unfold(lens, p)| > |lens|
  {
  }

  lemma ClPlace(bits: seq<bool>, n: nat, k: nat)
    requires n <= 19 && 3 * n <= |bits| && k < 19
    ensures ClOf(bits, n)[SWIZZLE[k]] == if k < n then Field(bits[3 * k..], 3) else 0
    ensures forall i :: 0 <= i < 19 ==> ClOf(bits, n)[i] < 8
  {
    hide Field;
    FieldSizes();
    assert Unswizzle(SWIZZLE[k]) == k;
  }

  /** The lengths of the code-length code are those that the bits say. */
  lemma {:induction false} ClSound(bits: seq<bool>, n: nat, k: nat)
    requires k <= n <= 19 && 3 * n <= |bits|
    ensures bits[3 * k..] == ClBits(ClOf(bits, n), k, n) + bits[3 * n..]
    decreases n - k
  {
    hide LsbBits, ClBits, Field, ClOf;
    var cl := ClOf(bits, n);
    if k == n {
      ClBitsNone(cl, n);
    } else {
      ClSound(bits, n, k + 1);
      ClBitsStep(cl, k, n);
      ClPlace(bits, n, k);
      FieldRead(bits[3 * k..], 3);
      assert bits[3 * k..][3..] == bits[3 * (k + 1)..];
    }
  }

  ghost predicate RegularHeader(bits: seq<bool>) {
    if |bits| < 14 then true
    else
      FieldSizes();
      RegularTables(Field(bits, 5) + 257, Field(bits[5..], 5) + 1, Field(bits[10..], 4) + 4, bits[14..])
  }

  ghost predicate RegularTables(numLit: nat, numDist: nat, numCl: nat, bits: seq<bool>)
    requires numCl <= 19
  {
    3 * numCl <= |bits| ==> RegularLens(ClOf(bits, numCl), numLit + numDist, bits[3 * numCl..], [])
  }

  lemma TablesSound(numLit: nat, numDist: nat, numCl: nat, bits: seq<bool>) returns (t: Tables)
    requires 257 <= numLit <= 288 && 1 <= numDist <= 32 && 4 <= numCl <= 19
    requires TablesOf(numLit, numDist, numCl, bits).Tabled? && TablesOf(numLit, numDist, numCl, bits).lit[256] > 0
    requires 3 * numCl <= |bits| && RegularTables(numLit, numDist, numCl, bits)
    ensures t.Valid() && |t.lit| == numLit && |t.dist| == numDist && t.numCl == numCl
    ensures var h := TablesOf(numLit, numDist, numCl, bits);
      && t.lit == h.lit && t.dist == h.dist
      && bits == ClBits(t.cl, 0, numCl) + (PacketsBits(t.cl, t.packets) + h.rest)
  {
    hide LsbBits, ClBits, PacketsBits, Accepted, Unpack, WellFormed, Field, LensOf, ClOf, CodedPackets, RegularLens;
    var cl := ClOf(bits, numCl);
    var r := LensOf(cl, numLit + numDist, bits[3 * numCl..], []);
    UnpackNone();
    assert WellFormed([]) by { NoPackets(); }
    var ps := LensSound(cl, numLit + numDist, bits[3 * numCl..], []);
    assert [] + ps == ps;
    t := Tables(r.lens[..numLit], r.lens[numLit..], cl, ps, numCl);
    ClSound(bits, numCl, 0);
    assert bits[0..] == bits;
    forall i | numCl <= i < 19 ensures cl[SWIZZLE[i]] == 0 { ClPlace(bits, numCl, i); }
    ClPlace(bits, numCl, 0);
  }

  lemma NoPackets()
    ensures WellFormed([])
  {
  }

  /** Bits taken for the header of a dynamic block are a header with these codes. */
  lemma HeaderSound(bits: seq<bool>) returns (t: Tables)
    requires RegularHeader(bits) && HeaderOf(bits).Tabled? && 256 < |HeaderOf(bits).lit| && HeaderOf(bits).lit[256] > 0
    ensures t.Valid() && t.lit == HeaderOf(bits).lit && t.dist == HeaderOf(bits).dist
    ensures bits == t.Header() + HeaderOf(bits).rest
  {
    hide LsbBits, ClBits, PacketsBits, Field, TablesOf, RegularLens, ClOf, Tables.Valid;
    FieldSizes();
    var a, b, c := Field(bits, 5), Field(bits[5..], 5), Field(bits[10..], 4);
    var tail := bits[14..];
    EnoughForCl(a + 257, b + 1, c + 4, tail);
    t := TablesSound(a + 257, b + 1, c + 4, tail);
    FieldRead(bits, 5);
    FieldRead(bits[5..], 5);
    FieldRead(bits[10..], 4);
    assert bits[5..][5..] == bits[10..] && bits[10..][4..] == tail;
    TableShape(t);
    Regroup5Header(LsbBits(a, 5), LsbBits(b, 5), LsbBits(c, 4), ClBits(t.cl, 0, t.numCl), PacketsBits(t.cl, t.packets),
                   HeaderOf(bits).rest);
  }

  lemma EnoughForCl(numLit: nat, numDist: nat, numCl: nat, bits: seq<bool>)
    requires numLit <= 288 && numDist <= 32 && numCl <= 19 && TablesOf(numLit, numDist, numCl, bits).Tabled?
    ensures 3 * numCl <= |bits|
  {
    hide LensOf, ClOf, Accepted;
  }

  lemma TableShape(t: Tables)
    requires t.Valid()
    ensures |t.cl| == 19 && t.numCl <= 19 && CodedPackets(t.cl, t.packets)
  {
    hide Accepted, Unpack, WellFormed;
  }

  lemma Regroup5Header(a: seq<bool>, b: seq<bool>, c: seq<bool>, d: seq<bool>, e: seq<bool>, f: seq<bool>)
    ensures a + (b + (c + (d + (e + f)))) == (a + (b + (c + (d + e)))) + f
  {
    Regroup(d, e, f);
    Regroup(c, d + e, f);
    Regroup(b, c + (d + e), f);
    Regroup(a, b + (c + (d + e)), f);
  }

  // ---- Stored blocks.

  /** Bits taken for the bytes of a stored block are those bytes. */
  lemma {:induction false} BytesSound(n: nat, end: nat, bits: seq<bool>, out: seq<Byte>) returns (bytes: seq<Byte>)
    requires BytesRun(n, end, bits, out).status == Done
    ensures |bytes| == n
    ensures var o := BytesRun(n, end, bits, out); o.out == out + bytes && bits == BitsOf(bytes) + o.rest
    decreases n
  {
    hide LsbBits, BitsOf, ByteOf;
    if n == 0 {
      bytes := [];
      BitsOfNone();
    } else {
      var c := ByteOf(bits);
      var more := BytesSound(n - 1, end, bits[8..], out + [c]);
      bytes := [c] + more;
      ByteBits(bits);
      BitsOfConcat([c], more);
      BitsOfOne(c);
    }
  }

  lemma ByteBits(bits: seq<bool>)
    requires |bits| >= 8
    ensures bits == LsbBits(ByteOf(bits), 8) + bits[8..]
  {
    hide LsbBits, Field;
    FieldRead(bits, 8);
  }

  /** Bits taken for a stored block are its length, the complement of that and its bytes. */
  lemma StoredSound(end: nat, bits: seq<bool>, out: seq<Byte>) returns (bytes: seq<Byte>)
    requires StoredRun(end, bits, out).status == Done
    ensures |bytes| <= 0xFFFF
    ensures var o := StoredRun(end, bits, out);
      && o.out == out + bytes
      && bits == LsbBits(|bytes|, 16) + (LsbBits(0xFFFF - |bytes|, 16) + (BitsOf(bytes) + o.rest))
  {
    hide LsbBits, BitsOf, Field, BytesRun, Pow2;
    var n, m := Field(bits, 16), Field(bits[16..], 16);
    bytes := BytesSound(n, end, bits[32..], out);
    FieldRead(bits, 16);
    FieldRead(bits[16..], 16);
    assert bits[16..][16..] == bits[32..];
  }

  // ---- Blocks and streams.

  /** A block as it stands in the stream; before the bytes of a stored one there may be any bits. */
  datatype Read =
    | AsStored(skipped: seq<bool>, bytes: seq<Byte>)
    | AsFixed(tokens: seq<Token>)
    | AsDynamic(tables: Tables, tokens: seq<Token>)
  {
    ghost predicate Valid() {
      match this
      case AsStored(skipped, bytes) => |skipped| < 8 && |bytes| <= 0xFFFF
      case AsFixed(ts) => |FIXED_LIT| > 256 && AllTokens(ts, FIXED_LIT, FIXED_DIST)
      case AsDynamic(t, ts) => t.Valid() && AllTokens(ts, t.lit, t.dist)
    }

    /** The bits after the final-block bit. */
    ghost function Bits(): seq<bool>
      requires Valid()
    {
      match this
      case AsStored(skipped, bytes) =>
        LsbBits(0, 2) + (skipped + (LsbBits(|bytes|, 16) + (LsbBits(0xFFFF - |bytes|, 16) + BitsOf(bytes))))
      case AsFixed(ts) => LsbBits(1, 2) + (TokensBits(ts, FIXED_LIT, FIXED_DIST) + Word(FIXED_LIT, 256))
      case AsDynamic(t, ts) => LsbBits(2, 2) + (t.Header() + (TokensBits(ts, t.lit, t.dist) + Word(t.lit, 256)))
    }

    ghost function Block(): Block
      requires Valid()
    {
      match this
      case AsStored(_, bytes) => Stored(bytes)
      case AsFixed(ts) => Compressed(Codes(ts, FIXED_LIT, FIXED_DIST))
      case AsDynamic(t, ts) => Compressed(Codes(ts, t.lit, t.dist))
    }
  }

  ghost predicate RegularBlock(mem: seq<Byte>, end: nat, bits: seq<bool>, out: seq<Byte>) {
    |bits| >= 3 && Field(bits[1..], 2) != 0 ==>
      && (Field(bits[1..], 2) == 2 ==> RegularHeader(bits[3..]))
      && (match CodesOf(Field(bits[1..], 2), bits[3..])
          case Refused(_) => true
          case Tabled(lit, dist, rest) => RegularBody(lit, dist, mem, end, rest, out))
  }

  /** The type of the block is in the first two bits. */
  lemma TypeRead(bits: seq<bool>)
    requires |bits| >= 3
    ensures bits == [bits[0]] + (LsbBits(Field(bits[1..], 2), 2) + bits[3..]) && Field(bits[1..], 2) < 4
  {
    hide LsbBits, Field;
    assert Pow2(2) == 4;
    FieldRead(bits[1..], 2);
    assert bits[1..][2..] == bits[3..];
  }

  lemma StoredRead(end: nat, bits: seq<bool>, out: seq<Byte>) returns (r: Read)
    requires StoredRun(end, bits[|bits| % 8..], out).status == Done
    ensures r.AsStored? && r.Valid()
    ensures var o := StoredRun(end, bits[|bits| % 8..], out);
      LsbBits(0, 2) + bits == r.Bits() + o.rest && After(out, r.Block()) == o.out
  {
    hide LsbBits, BitsOf, StoredRun;
    var k := |bits| % 8;
    var bytes := StoredSound(end, bits[k..], out);
    var rest := StoredRun(end, bits[k..], out).rest;
    r := AsStored(bits[..k], bytes);
    Regroup5Header(LsbBits(0, 2), bits[..k], LsbBits(|bytes|, 16), LsbBits(0xFFFF - |bytes|, 16), BitsOf(bytes), rest);
    assert bits == bits[..k] + bits[k..];
  }

  lemma BodyRead(lit: seq<nat>, dist: seq<nat>, mem: seq<Byte>, end: nat, head: seq<bool>, bits: seq<bool>,
                 out: seq<Byte>) returns (ts: seq<Token>)
    requires |lit| <= 288 && |dist| <= 32 && RegularBody(lit, dist, mem, end, bits, out)
    requires BodyRun(lit, dist, mem, end, bits, out).status == Done
    ensures AllTokens(ts, lit, dist) && 256 < |lit| && lit[256] > 0
    ensures var o := BodyRun(lit, dist, mem, end, bits, out);
      && head + bits == head + (TokensBits(ts, lit, dist) + Word(lit, 256)) + o.rest
      && ReachFrom(out, Codes(ts, lit, dist)) && o.out == ExpandFrom(out, Codes(ts, lit, dist))
  {
    hide RegularBody, BodyRun, TokensBits, Codes, Word;
    ts := BodySound(lit, dist, mem, end, bits, out);
    Regroup4(head, TokensBits(ts, lit, dist), Word(lit, 256), BodyRun(lit, dist, mem, end, bits, out).rest);
    Regroup(head, TokensBits(ts, lit, dist), Word(lit, 256));
  }

  /** Bits taken for a block are a block of the format, and give what it stands for. */
  lemma BlockSound(mem: seq<Byte>, end: nat, bits: seq<bool>, out: seq<Byte>) returns (r: Read)
    requires BlockRun(mem, end, bits, out).status == Done && RegularBlock(mem, end, bits, out)
    ensures r.Valid() && |bits| >= 1 && Reached(out, r.Block())
    ensures var o := BlockRun(mem, end, bits, out);
      bits == [bits[0]] + (r.Bits() + o.rest) && o.out == After(out, r.Block())
  {
    hide LsbBits, Field, BodyRun, StoredRun, RegularBody, RegularHeader, HeaderOf, TokensBits, Codes, Word, BitsOf,
      Tables.Valid, Tables.Header, AllTokens, ExpandFrom, ReachFrom;
    TypeRead(bits);
    var kind, tail := Field(bits[1..], 2), bits[3..];
    if kind == 0 {
      r := StoredRead(end, tail, out);
    } else if kind == 1 {
      FixedAccepted();
      var ts := BodyRead(FIXED_LIT, FIXED_DIST, mem, end, LsbBits(1, 2), tail, out);
      r := AsFixed(ts);
    } else {
      var h := HeaderOf(tail);
      var ts := BodyRead(h.lit, h.dist, mem, end, [], h.rest, out);
      var t := HeaderSound(tail);
      r := AsDynamic(t, ts);
      DynamicParts(LsbBits(2, 2), t.Header(), TokensBits(ts, h.lit, h.dist) + Word(h.lit, 256), h.rest,
                   BodyRun(h.lit, h.dist, mem, end, h.rest, out).rest, tail);
    }
  }

  lemma DynamicParts(a: seq<bool>, b: seq<bool>, c: seq<bool>, rest: seq<bool>, d: seq<bool>, tail: seq<bool>)
    requires tail == b + rest && [] + rest == [] + c + d
    ensures a + tail == (a + (b + c)) + d
  {
    assert rest == [] + rest && c == [] + c;
    Regroup(b, c, d);
    Regroup(a, b + c, d);
  }

  ghost predicate RegularStream(mem: seq<Byte>, end: nat, bits: seq<bool>, out: seq<Byte>)
    decreases |bits|
  {
    var o := BlockRun(mem, end, bits, out);
    && RegularBlock(mem, end, bits, out)
    && (o.status == Done && !bits[0] ==> RegularStream(mem, end, o.rest, o.out))
  }

  ghost predicate AllRead(rs: seq<Read>) {
    forall i :: 0 <= i < |rs| ==> rs[i].Valid()
  }

  /** The bits of blocks one after another, the final-block bit set on the last one only. */
  ghost function StreamBits(rs: seq<Read>): seq<bool>
    requires AllRead(rs)
  {
    if rs == [] then [] else [|rs| == 1] + rs[0].Bits() + StreamBits(rs[1..])
  }

  ghost function Blocks(rs: seq<Read>): seq<Block>
    requires AllRead(rs)
  {
    if rs == [] then [] else [rs[0].Block()] + Blocks(rs[1..])
  }

  /** Bits that the decoder takes for a whole stream are those of blocks of the format, up to the bits it
      leaves, and the output is what these blocks stand for. */
  lemma {:induction false} StreamSound(mem: seq<Byte>, end: nat, bits: seq<bool>, out: seq<Byte>)
    returns (rs: seq<Read>)
    requires StreamRun(mem, end, bits, out).status == Done && RegularStream(mem, end, bits, out)
    ensures rs != [] && AllRead(rs)
    ensures var o := StreamRun(mem, end, bits, out);
      && bits == StreamBits(rs) + o.rest
      && AllReached(out, Blocks(rs)) && o.out == AfterAll(out, Blocks(rs))
    decreases |bits|
  {
    hide BlockRun, RegularBlock, Read.Bits, Read.Block, Read.Valid, After, Reached;
    var o := BlockRun(mem, end, bits, out);
    var r := BlockSound(mem, end, bits, out);
    if bits[0] {
      rs := [r];
      LastRead(r, o.rest);
    } else {
      var more := StreamSound(mem, end, o.rest, o.out);
      rs := [r] + more;
      assert rs[1..] == more;
      assert Blocks(rs)[1..] == Blocks(more);
      Regroup4([false], r.Bits(), StreamBits(more), StreamRun(mem, end, bits, out).rest);
    }
  }

  lemma LastRead(r: Read, rest: seq<bool>)
    requires r.Valid()
    ensures AllRead([r]) && StreamBits([r]) + rest == [true] + (r.Bits() + rest) && Blocks([r]) == [r.Block()]
    ensures forall out :: AfterAll(out, [r.Block()]) == After(out, r.Block())
    ensures forall out :: AllReached(out, [r.Block()]) == Reached(out, r.Block())
  {
    hide Read.Bits, Read.Block, Read.Valid, After, Reached;
    assert [r][1..] == [] && [r.Block()][1..] == [];
  }
}
