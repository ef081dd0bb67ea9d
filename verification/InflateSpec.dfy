/** What the decoder does with any bits, said without tables, bit register and output buffer: the
    decoder of `Inflate` is proved to do exactly this. */
module InflateSpec {
  import opened Values
  import opened Kraft
  import opened Bits
  import opened Canonical
  import opened MatchSymbols
  import opened LengthPacking
  import opened BitStream
  import opened HuffmanReader
  import opened Deflate

  datatype Status = Done | NeedsMoreInput | HasMoreOutput | Failed | Overrun

  /** The number in the first `n` bits. */
  ghost function Field(bits: seq<bool>, n: nat): (x: nat)
    requires n <= |bits|
    ensures x < Pow2(n)
  {
    LsbValueBound(bits[..n]);
    LsbValue(bits[..n])
  }

  // ---- The tables of lengths and distances.

  function LenBits(sym: nat): (n: nat)
    requires 256 < sym < 288
    ensures n <= 13
  {
    LENGTH_EXTRA[sym - 257]
  }

  function LenBase(sym: nat): nat
    requires 256 < sym < 288
  {
    LENGTH_BASE[sym - 257]
  }

  function DistBits(sym: nat): (n: nat)
    requires sym < 32
    ensures n <= 13
  {
    DIST_EXTRA[sym]
  }

  function DistBase(sym: nat): nat
    requires sym < 32
  {
    DIST_BASE[sym]
  }

  // ---- The body of a block.

  /** What comes next in the body of a block, and the bits behind it; `Short` when the stream ends
      before that. */
  datatype Turn =
    | Short
    | End(rest: seq<bool>)
    | Literal(byte: Byte, rest: seq<bool>)
    | Copying(sym: nat, len: nat, dist: nat, rest: seq<bool>)

  ghost function TurnOf(lit: seq<nat>, dist: seq<nat>, bits: seq<bool>): (t: Turn)
    requires |lit| <= 288 && |dist| <= 32
    ensures (t.End? || t.Literal?) ==> |t.rest| <= |bits|
    ensures t.Copying? ==> |t.rest| < |bits|
  {
    match NextOf(lit, bits)
    case Stuck => Short
    case Symbol(sym, n) =>
      if sym < 256 then Literal(sym, bits[n..])
      else if sym == 256 then End(bits[n..])
      else MatchOf(dist, sym, bits[n..])
  }

  /** A match, after its length symbol: the extra bits of the length, a distance symbol, the extra
      bits of the distance. */
  ghost function MatchOf(dist: seq<nat>, sym: nat, bits: seq<bool>): (t: Turn)
    requires 256 < sym < 288 && |dist| <= 32
    ensures t.Short? || (t.Copying? && t.sym == sym && |t.rest| <= |bits|)
  {
    if |bits| < LenBits(sym) then Short
    else
      var far := bits[LenBits(sym)..];
      match NextOf(dist, far)
      case Stuck => Short
      case Symbol(d, n) =>
        var rest := far[n..];
        if |rest| < DistBits(d) then Short
        else
          Copying(sym, LenBase(sym) + Field(bits, LenBits(sym)), DistBase(d) + Field(rest, DistBits(d)),
                  rest[DistBits(d)..])
  }

  /** What memory held at `i` before. */
  ghost function Cell(mem: seq<Byte>, i: nat): Byte {
    if i < |mem| then mem[i] else 0
  }

  /** `len` bytes more, each a copy of the one `dist` back; at distance zero, what memory held. */
  ghost function CopyFrom(out: seq<Byte>, mem: seq<Byte>, dist: nat, len: nat): (r: seq<Byte>)
    requires dist <= |out|
    ensures |r| == |out| + len && out <= r
    decreases len
  {
    if len == 0 then out
    else CopyFrom(out + [if dist == 0 then Cell(mem, |out|) else out[|out| - dist]], mem, dist, len - 1)
  }

  /** How many bytes the copy three at a time writes: at least three. */
  function AtLeastThree(len: nat): nat {
    if len < 3 then 3 else len
  }

  /** A match copied into an output of `end` bytes: as a whole if there is room, and then at least
      three bytes; else as far as there is room. */
  ghost function CopyInto(out: seq<Byte>, mem: seq<Byte>, end: nat, dist: nat, len: nat): (r: seq<Byte>)
    requires dist <= |out|
    ensures out <= r
  {
    if |out| + len <= end then CopyFrom(out, mem, dist, AtLeastThree(len))
    else if |out| < end then CopyFrom(out, mem, dist, end - |out|)
    else out
  }

  /** Decoding goes on after this turn: there was room, and the distance was there. A length of zero
      never lacks room. */
  ghost predicate Goes(t: Turn, at: nat, end: nat) {
    || (t.Literal? && at < end)
    || (t.Copying? && t.dist <= at && (t.len == 0 || at + t.len <= end))
  }

  /** Why it does not go on. */
  ghost function Verdict(t: Turn, at: nat): Status {
    match t
    case Short => NeedsMoreInput
    case End(_) => Done
    case Literal(_, _) => HasMoreOutput
    case Copying(_, _, d, _) => if d > at then Failed else HasMoreOutput
  }

  /** The output after this turn, when it may be `end` bytes long. */
  ghost function Put(t: Turn, mem: seq<Byte>, end: nat, out: seq<Byte>): (r: seq<Byte>)
    ensures out <= r
  {
    if t.Literal? && |out| < end then out + [t.byte]
    else if t.Copying? && t.dist <= |out| then CopyInto(out, mem, end, t.dist, t.len)
    else out
  }

  /** How decoding ended, all bytes written, and when it is done the bits left. */
  datatype Outcome = Outcome(status: Status, out: seq<Byte>, rest: seq<bool>)

  ghost function BodyRun(lit: seq<nat>, dist: seq<nat>, mem: seq<Byte>, end: nat, bits: seq<bool>, out: seq<Byte>)
    : (o: Outcome)
    requires |lit| <= 288 && |dist| <= 32
    ensures |o.rest| <= |bits| && out <= o.out && o.status != Overrun
    decreases |bits|, end - |out|
  {
    var t := TurnOf(lit, dist, bits);
    if Goes(t, |out|, end) then BodyRun(lit, dist, mem, end, t.rest, Put(t, mem, end, out))
    else Outcome(Verdict(t, |out|), Put(t, mem, end, out), if t.End? then t.rest else [])
  }

  // ---- The header of a dynamic block.

  /** The place of `x` in the swizzled order. */
  function Unswizzle(x: nat): nat
    requires x < 19
  {
    [3, 17, 15, 13, 11, 9, 7, 5, 4, 6, 8, 10, 12, 14, 16, 18, 0, 1, 2][x]
  }

  /** The swizzled order visits every place once. */
  lemma SwizzleBack(x: nat)
    requires x < 19
    ensures Unswizzle(x) < 19 && SWIZZLE[Unswizzle(x)] == x
  {
  }

  /** The lengths of the code-length code: `n` of three bits each in the swizzled order, the others
      zero. */
  ghost function ClOf(bits: seq<bool>, n: nat): (cl: seq<nat>)
    requires n <= 19 && 3 * n <= |bits|
    ensures |cl| == 19
  {
    seq(19, x requires 0 <= x < 19 => if Unswizzle(x) < n then Field(bits[3 * Unswizzle(x)..], 3) else 0)
  }

  datatype Lens = Lens(status: Status, lens: seq<nat>, rest: seq<bool>)

  /** Unpacks code lengths until there are `total`. */
  ghost function LensOf(cl: seq<nat>, total: nat, bits: seq<bool>, lens: seq<nat>): (r: Lens)
    requires |cl| == 19
    ensures |r.rest| <= |bits| && (r.status == Done ==> |r.lens| == total)
    ensures r.status == Done || r.status == NeedsMoreInput || r.status == Failed
    decreases total - |lens|
  {
    if |lens| >= total then Lens(if |lens| == total then Done else Failed, lens, bits)
    else
      match NextOf(cl, bits)
      case Stuck => Lens(NeedsMoreInput, lens, [])
      case Symbol(code, n) =>
        var rest, e := bits[n..], ExtraBits(code);
        if code == 16 && lens == [] then Lens(Failed, lens, [])
        else if |rest| < e then Lens(NeedsMoreInput, lens, [])
        else LensOf(cl, total, rest[e..], Unfold(lens, Packet(code, Field(rest, e))))
  }

  lemma LensStep(cl: seq<nat>, total: nat, bits: seq<bool>, lens: seq<nat>)
    requires |cl| == 19
    ensures LensOf(cl, total, bits, lens) ==
      if |lens| >= total then Lens(if |lens| == total then Done else Failed, lens, bits)
      else
        match NextOf(cl, bits)
        case Stuck => Lens(NeedsMoreInput, lens, [])
        case Symbol(code, n) =>
          var rest, e := bits[n..], ExtraBits(code);
          if code == 16 && lens == [] then Lens(Failed, lens, [])
          else if |rest| < e then Lens(NeedsMoreInput, lens, [])
          else LensOf(cl, total, rest[e..], Unfold(lens, Packet(code, Field(rest, e))))
  {
    hide NextOf, Unfold, Field, ExtraBits;
  }

  datatype Header = Tabled(lit: seq<nat>, dist: seq<nat>, rest: seq<bool>) | Refused(status: Status)

  /** The code lengths of the two codes of a dynamic block. */
  ghost function HeaderOf(bits: seq<bool>): (h: Header)
    ensures h.Tabled? ==> |h.lit| <= 288 && |h.dist| <= 32 && |h.rest| <= |bits|
    ensures h.Refused? ==> h.status == NeedsMoreInput || h.status == Failed
  {
    if |bits| < 14 then Refused(NeedsMoreInput)
    else
      FieldSizes();
      TablesOf(Field(bits, 5) + 257, Field(bits[5..], 5) + 1, Field(bits[10..], 4) + 4, bits[14..])
  }

  ghost function TablesOf(numLit: nat, numDist: nat, numCl: nat, bits: seq<bool>): (h: Header)
    requires numLit <= 288 && numDist <= 32 && numCl <= 19
    ensures h.Tabled? ==> |h.lit| <= 288 && |h.dist| <= 32 && |h.rest| <= |bits|
    ensures h.Refused? ==> h.status == NeedsMoreInput || h.status == Failed
  {
    if |bits| < 3 * numCl then Refused(NeedsMoreInput)
    else if !Accepted(ClOf(bits, numCl)) then Refused(Failed)
    else SplitOf(numLit, LensOf(ClOf(bits, numCl), numLit + numDist, bits[3 * numCl..], []))
  }

  ghost function SplitOf(numLit: nat, r: Lens): (h: Header)
    requires r.status == Done ==> numLit <= |r.lens|
    ensures h.Tabled? ==> |h.lit| == numLit && |h.dist| == |r.lens| - numLit && h.rest == r.rest
    ensures h.Refused? ==> h.status == if r.status == Done then Failed else r.status
  {
    if r.status != Done then Refused(r.status)
    else if Accepted(r.lens[..numLit]) && Accepted(r.lens[numLit..]) then
      Tabled(r.lens[..numLit], r.lens[numLit..], r.rest)
    else Refused(Failed)
  }

  lemma FieldSizes()
    ensures Pow2(3) == 8 && Pow2(4) == 16 && Pow2(5) == 32
  {
    assert Pow2(3) == 8;
  }

  // ---- Stored blocks.

  ghost function ByteOf(bits: seq<bool>): Byte
    requires |bits| >= 8
  {
    EightBits();
    Field(bits, 8)
  }

  lemma ByteIs(bits: seq<bool>, c: Byte)
    requires |bits| >= 8 && LsbBits(c, 8) == bits[..8]
    ensures ByteOf(bits) == c
  {
    hide LsbBits, LsbValue, Pow2;
    EightBits();
    LsbBitsValue(c, 8);
  }

  ghost function BytesRun(n: nat, end: nat, bits: seq<bool>, out: seq<Byte>): (o: Outcome)
    ensures |o.rest| <= |bits| && out <= o.out && o.status != Overrun
    decreases n
  {
    if n == 0 then Outcome(Done, out, bits)
    else if |out| >= end then Outcome(HasMoreOutput, out, [])
    else if |bits| < 8 then Outcome(NeedsMoreInput, out, [])
    else BytesRun(n - 1, end, bits[8..], out + [ByteOf(bits)])
  }

  /** A stored block from a byte boundary on: its length, the complement of that, the bytes. */
  ghost function StoredRun(end: nat, bits: seq<bool>, out: seq<Byte>): (o: Outcome)
    ensures |o.rest| <= |bits| && out <= o.out && o.status != Overrun
  {
    if |bits| < 32 then Outcome(NeedsMoreInput, out, [])
    else if Field(bits, 16) + Field(bits[16..], 16) != 0xFFFF then Outcome(Failed, out, [])
    else BytesRun(Field(bits, 16), end, bits[32..], out)
  }

  // ---- Whole streams.

  /** The codes of a block of the given type, and the bits behind them. */
  ghost function CodesOf(kind: nat, bits: seq<bool>): (h: Header)
    ensures h.Tabled? ==> |h.lit| <= 288 && |h.dist| <= 32 && |h.rest| <= |bits|
    ensures h.Refused? ==> h.status == NeedsMoreInput || h.status == Failed
  {
    if kind == 1 then
      FixedAccepted();
      Tabled(FIXED_LIT, FIXED_DIST, bits)
    else if kind == 2 then HeaderOf(bits)
    else Refused(Failed)
  }

  /** One block. The stream ends at a byte boundary, so that the bits left over from whole bytes
      are those up to the next one. */
  ghost function BlockRun(mem: seq<Byte>, end: nat, bits: seq<bool>, out: seq<Byte>): (o: Outcome)
    ensures (o.status == Done ==> |o.rest| < |bits|) && out <= o.out && o.status != Overrun
  {
    if |bits| < 3 then Outcome(NeedsMoreInput, out, [])
    else
      var kind, tail := Field(bits[1..], 2), bits[3..];
      if kind == 0 then StoredRun(end, tail[|tail| % 8..], out)
      else
        match CodesOf(kind, tail)
        case Refused(status) => Outcome(status, out, [])
        case Tabled(lit, dist, rest) => BodyRun(lit, dist, mem, end, rest, out)
  }

  /** Blocks until the final one. */
  ghost function StreamRun(mem: seq<Byte>, end: nat, bits: seq<bool>, out: seq<Byte>): (o: Outcome)
    ensures out <= o.out && o.status != Overrun
    decreases |bits|
  {
    var o := BlockRun(mem, end, bits, out);
    if o.status != Done || bits[0] then o else StreamRun(mem, end, o.rest, o.out)
  }
}
