/** How far the decoder writes, on any input. */
module InflateBounds {
  import opened Values
  import opened Kraft
  import opened HuffmanReader
  import opened InflateSpec

  // ---- One turn, one block.

  /** The first turn of a body. */
  lemma BodyTurn(lit: seq<nat>, dist: seq<nat>, mem: seq<Byte>, end: nat, bits: seq<bool>, out: seq<Byte>)
    requires |lit| <= 288 && |dist| <= 32
    ensures var t := TurnOf(lit, dist, bits);
      BodyRun(lit, dist, mem, end, bits, out) ==
        if Goes(t, |out|, end) then BodyRun(lit, dist, mem, end, t.rest, Put(t, mem, end, out))
        else Outcome(Verdict(t, |out|), Put(t, mem, end, out), if t.End? then t.rest else [])
  {
    hide TurnOf, Goes, Put, Verdict;
  }

  /** Past the end, nothing more is written. */
  lemma {:induction false} BodyFrozen(lit: seq<nat>, dist: seq<nat>, mem: seq<Byte>, end: nat, bits: seq<bool>,
                                      out: seq<Byte>)
    requires |lit| <= 288 && |dist| <= 32 && |out| > end
    ensures BodyRun(lit, dist, mem, end, bits, out).out == out
    ensures !AnySpills(BodySteps(lit, dist, mem, end, bits, out), end)
    decreases |bits|
  {
    hide TurnOf, BodyRun;
    var t := TurnOf(lit, dist, bits);
    BodyTurn(lit, dist, mem, end, bits, out);
    if Goes(t, |out|, end) { BodyFrozen(lit, dist, mem, end, t.rest, out); }
  }

  lemma {:induction false} BytesBounded(n: nat, end: nat, bits: seq<bool>, out: seq<Byte>)
    ensures |out| <= end ==> |BytesRun(n, end, bits, out).out| <= end
    ensures |out| > end ==> BytesRun(n, end, bits, out).out == out
    decreases n
  {
    if n > 0 && |bits| >= 8 && |out| < end { BytesBounded(n - 1, end, bits[8..], out + [ByteOf(bits)]); }
  }

  lemma StoredBounded(end: nat, bits: seq<bool>, out: seq<Byte>)
    ensures |out| <= end ==> |StoredRun(end, bits, out).out| <= end
    ensures |out| > end ==> StoredRun(end, bits, out).out == out
  {
    hide BytesRun, Field;
    if |bits| >= 32 { BytesBounded(Field(bits, 16), end, bits[32..], out); }
  }

  // ---- What the decoder reads, turn by turn.

  /** A turn, and how long the output was before it. */
  datatype Step = Step(at: nat, turn: Turn)

  /** The turns that the decoder takes in a body. */
  ghost function BodySteps(lit: seq<nat>, dist: seq<nat>, mem: seq<Byte>, end: nat, bits: seq<bool>, out: seq<Byte>)
    : seq<Step>
    requires |lit| <= 288 && |dist| <= 32
    decreases |bits|, end - |out|
  {
    var t := TurnOf(lit, dist, bits);
    [Step(|out|, t)]
    + if Goes(t, |out|, end) then BodySteps(lit, dist, mem, end, t.rest, Put(t, mem, end, out)) else []
  }

  ghost function BlockSteps(mem: seq<Byte>, end: nat, bits: seq<bool>, out: seq<Byte>): seq<Step> {
    if |bits| < 3 || Field(bits[1..], 2) == 0 then []
    else
      match CodesOf(Field(bits[1..], 2), bits[3..])
      case Refused(_) => []
      case Tabled(lit, dist, rest) => BodySteps(lit, dist, mem, end, rest, out)
  }

  /** The turns that the decoder takes in all blocks of a stream. */
  ghost function StreamSteps(mem: seq<Byte>, end: nat, bits: seq<bool>, out: seq<Byte>): seq<Step>
    decreases |bits|
  {
    var o := BlockRun(mem, end, bits, out);
    BlockSteps(mem, end, bits, out)
    + if o.status != Done || bits[0] then [] else StreamSteps(mem, end, o.rest, o.out)
  }

  /** The step copies three bytes where fewer are left: one of the two length symbols without a
      length, with a distance that is there. */
  ghost predicate Spills(s: Step, end: nat) {
    s.turn.Copying? && s.turn.sym >= 286 && s.turn.dist <= s.at <= end < s.at + 3
  }

  ghost predicate AnySpills(steps: seq<Step>, end: nat) {
    exists i :: 0 <= i < |steps| && Spills(steps[i], end)
  }

  lemma SpillsJoin(a: seq<Step>, b: seq<Step>, end: nat)
    ensures AnySpills(a + b, end) <==> AnySpills(a, end) || AnySpills(b, end)
  {
    hide Spills;
    var all := a + b;
    if AnySpills(a, end) {
      var i :| 0 <= i < |a| && Spills(a[i], end);
      assert Spills(all[i], end);
    }
    if AnySpills(b, end) {
      var i :| 0 <= i < |b| && Spills(b[i], end);
      assert Spills(all[|a| + i], end);
    }
    if AnySpills(all, end) {
      var i :| 0 <= i < |all| && Spills(all[i], end);
      if i >= |a| { assert Spills(b[i - |a|], end); }
    }
  }

  // ---- When it writes past the end.

  lemma BaseLength(sym: nat)
    requires 256 < sym < 288
    ensures if sym >= 286 then LenBase(sym) == 0 && Pow2(LenBits(sym)) == 1 else LenBase(sym) >= 3
  {
    hide Pow2;
    Pow2Zero();
  }

  lemma MatchLength(dist: seq<nat>, sym: nat, bits: seq<bool>)
    requires 256 < sym < 288 && |dist| <= 32
    ensures var t := MatchOf(dist, sym, bits);
      t.Copying? ==> (t.len == 0 <==> t.sym >= 286) && (t.len == 0 || t.len >= 3)
  {
    hide NextOf, Field, LenBits, LenBase, DistBits, DistBase, Pow2;
    BaseLength(sym);
  }

  /** Only the two unused length symbols have no length. */
  lemma LengthOf(lit: seq<nat>, dist: seq<nat>, bits: seq<bool>)
    requires |lit| <= 288 && |dist| <= 32
    ensures var t := TurnOf(lit, dist, bits);
      t.Copying? ==> 256 < t.sym < 288 && (t.len == 0 <==> t.sym >= 286) && (t.len == 0 || t.len >= 3)
  {
    hide NextOf, MatchOf;
    match NextOf(lit, bits)
    case Symbol(sym, n) => if sym > 256 { MatchLength(dist, sym, bits[n..]); }
    case Stuck =>
  }

  /** One turn passes the end exactly when it spills. */
  lemma TurnBounded(t: Turn, mem: seq<Byte>, end: nat, out: seq<Byte>)
    requires |out| <= end && (t.Copying? ==> (t.len == 0 <==> t.sym >= 286) && (t.len == 0 || t.len >= 3))
    ensures |Put(t, mem, end, out)| <= end + 3
    ensures |Put(t, mem, end, out)| > end <==> Spills(Step(|out|, t), end)
  {
  }

  lemma {:induction false} BodyBounded(lit: seq<nat>, dist: seq<nat>, mem: seq<Byte>, end: nat, bits: seq<bool>,
                                       out: seq<Byte>)
    requires |lit| <= 288 && |dist| <= 32 && |out| <= end
    ensures |BodyRun(lit, dist, mem, end, bits, out).out| <= end + 3
    ensures |BodyRun(lit, dist, mem, end, bits, out).out| > end
       <==> AnySpills(BodySteps(lit, dist, mem, end, bits, out), end)
    decreases |bits|, end - |out|
  {
    hide TurnOf, BodyRun, Put, Spills, AnySpills;
    var t := TurnOf(lit, dist, bits);
    var p := Put(t, mem, end, out);
    BodyTurn(lit, dist, mem, end, bits, out);
    LengthOf(lit, dist, bits);
    TurnBounded(t, mem, end, out);
    OneSpills(Step(|out|, t), end);
    if Goes(t, |out|, end) {
      SpillsJoin([Step(|out|, t)], BodySteps(lit, dist, mem, end, t.rest, p), end);
      if |p| > end {
        BodyFrozen(lit, dist, mem, end, t.rest, p);
      } else {
        if t.Literal? { BodyGoes(t, mem, end, out); }
        BodyBounded(lit, dist, mem, end, t.rest, p);
      }
    }
  }

  lemma BodyGoes(t: Turn, mem: seq<Byte>, end: nat, out: seq<Byte>)
    requires Goes(t, |out|, end) && t.Literal?
    ensures |out| < end && |Put(t, mem, end, out)| == |out| + 1
  {
  }

  lemma OneSpills(s: Step, end: nat)
    ensures AnySpills([s], end) <==> Spills(s, end)
    ensures !AnySpills([], end) && [s] + [] == [s]
  {
    hide Spills;
    if Spills(s, end) { assert Spills([s][0], end); }
  }

  lemma BlockBounded(mem: seq<Byte>, end: nat, bits: seq<bool>, out: seq<Byte>)
    ensures |out| <= end ==> |BlockRun(mem, end, bits, out).out| <= end + 3
    ensures |out| <= end ==>
      (|BlockRun(mem, end, bits, out).out| > end <==> AnySpills(BlockSteps(mem, end, bits, out), end))
    ensures |out| > end ==>
      BlockRun(mem, end, bits, out).out == out && !AnySpills(BlockSteps(mem, end, bits, out), end)
  {
    hide BodyRun, BodySteps, StoredRun, CodesOf, Field, Spills;
    if |bits| >= 3 {
      var kind, tail := Field(bits[1..], 2), bits[3..];
      if kind == 0 {
        StoredBounded(end, tail[|tail| % 8..], out);
      } else if CodesOf(kind, tail).Tabled? {
        var h := CodesOf(kind, tail);
        if |out| > end {
          BodyFrozen(h.lit, h.dist, mem, end, h.rest, out);
        } else {
          BodyBounded(h.lit, h.dist, mem, end, h.rest, out);
        }
      }
    }
  }

  /** On any stream, the decoder writes at most three bytes past the end of its output, and it writes
      past the end if and only if one of the turns it takes spills. */
  lemma {:induction false} StreamBounded(mem: seq<Byte>, end: nat, bits: seq<bool>, out: seq<Byte>)
    ensures |out| <= end ==> |StreamRun(mem, end, bits, out).out| <= end + 3
    ensures |out| <= end ==>
      (|StreamRun(mem, end, bits, out).out| > end <==> AnySpills(StreamSteps(mem, end, bits, out), end))
    ensures |out| > end ==>
      StreamRun(mem, end, bits, out).out == out && !AnySpills(StreamSteps(mem, end, bits, out), end)
    decreases |bits|
  {
    hide BlockRun, BlockSteps, Spills, AnySpills;
    BlockBounded(mem, end, bits, out);
    var o := BlockRun(mem, end, bits, out);
    if o.status == Done && !bits[0] {
      StreamBounded(mem, end, o.rest, o.out);
      SpillsJoin(BlockSteps(mem, end, bits, out), StreamSteps(mem, end, o.rest, o.out), end);
    } else {
      assert BlockSteps(mem, end, bits, out) + [] == BlockSteps(mem, end, bits, out);
    }
  }

  /** The first block of a stream. */
  lemma StreamStep(mem: seq<Byte>, end: nat, bits: seq<bool>, out: seq<Byte>)
    ensures var o, all := BlockRun(mem, end, bits, out), StreamRun(mem, end, bits, out);
      && (o.status == Done ==> |o.rest| < |bits|)
      && all == (if o.status != Done || bits[0] then o else StreamRun(mem, end, o.rest, o.out))
      && (|o.out| > end ==> all.out == o.out)
  {
    hide BlockRun;
    var o := BlockRun(mem, end, bits, out);
    if o.status == Done && !bits[0] && |o.out| > end { StreamBounded(mem, end, o.rest, o.out); }
  }
}
