/** Run-length packing of a block's code lengths (section 3.2.7 of RFC 1951). */
module LengthPacking {
  import opened Kraft

  /** A symbol of the code-length alphabet and, from 16 on, the repeat count that follows it. */
  datatype Packet = Packet(code: nat, extra: nat)
  {
    predicate Valid() {
      code <= 18 && extra < if code < 16 then 1 else if code == 16 then 4 else if code == 17 then 8 else 128
    }

    /** Places it takes in the packed array. */
    function Size(): nat {
      if code < 16 then 1 else 2
    }
  }

  /** Bits of the repeat count. */
  function ExtraBits(code: nat): nat {
    if code == 16 then 2 else if code == 17 then 3 else if code == 18 then 7 else 0
  }

  /** How many lengths a repeat stands for. */
  function Run(p: Packet): nat {
    if p.code < 16 then 1 else if p.code == 18 then p.extra + 11 else p.extra + 3
  }

  function Times(x: nat, n: nat): (s: seq<nat>)
    ensures |s| == n && forall i :: 0 <= i < n ==> s[i] == x
  {
    seq(n, _ => x)
  }

  /** The lengths after one more packet; a repeat of nothing is not allowed. */
  function Unfold(lens: seq<nat>, p: Packet): seq<nat> {
    if p.code < 16 then lens + [p.code]
    else if p.code == 16 then (if lens == [] then [] else lens + Times(lens[|lens| - 1], Run(p)))
    else lens + Times(0, Run(p))
  }

  function Unpack(ps: seq<Packet>): seq<nat> {
    if ps == [] then [] else Unfold(Unpack(ps[..|ps| - 1]), ps[|ps| - 1])
  }

  /** No packet repeats a length that is not there. */
  ghost predicate WellFormed(ps: seq<Packet>) {
    forall i :: 0 <= i < |ps| ==> ps[i].Valid() && (ps[i].code == 16 ==> Unpack(ps[..i]) != [])
  }

  function Sizes(ps: seq<Packet>): nat {
    if ps == [] then 0 else Sizes(ps[..|ps| - 1]) + ps[|ps| - 1].Size()
  }

  function Occurs(ps: seq<Packet>, code: nat): nat {
    if ps == [] then 0 else Occurs(ps[..|ps| - 1], code) + if ps[|ps| - 1].code == code then 1 else 0
  }

  lemma Snoc(ps: seq<Packet>, p: Packet)
    ensures Unpack(ps + [p]) == Unfold(Unpack(ps), p)
    ensures Sizes(ps + [p]) == Sizes(ps) + p.Size()
    ensures forall code :: Occurs(ps + [p], code) == Occurs(ps, code) + if p.code == code then 1 else 0
    ensures WellFormed(ps) && p.Valid() && (p.code == 16 ==> Unpack(ps) != []) ==> WellFormed(ps + [p])
  {
    hide Unfold;
    var qs := ps + [p];
    assert qs[..|ps|] == ps;
    if WellFormed(ps) && p.Valid() && (p.code == 16 ==> Unpack(ps) != []) {
      forall i | 0 <= i < |qs| ensures qs[i].Valid() && (qs[i].code == 16 ==> Unpack(qs[..i]) != []) {
        assert qs[..i] == ps[..i];
        if i == |ps| { assert ps[..i] == ps; }
      }
    }
  }

  lemma {:induction false} OccursMember(ps: seq<Packet>, i: nat)
    requires i < |ps|
    ensures Occurs(ps, ps[i].code) > 0
  {
    if i < |ps| - 1 { OccursMember(ps[..|ps| - 1], i); }
  }

  /** `counts` is the histogram of the packets' symbols. */
  ghost predicate Tallied(counts: seq<nat>, ps: seq<Packet>) {
    |counts| == 19 && (forall code :: 0 <= code < 19 ==> counts[code] == Occurs(ps, code)) && Sum(counts) == |ps|
  }

  // ---- The packed form, run by run.

  ghost function Each(x: nat, n: nat): (ps: seq<Packet>)
    ensures |ps| == n
  {
    seq(n, _ => Packet(x, 0))
  }

  /** A run of zeros: as many 138 at a time as there are, then the rest. */
  ghost function Zeros(n: nat): seq<Packet> {
    if n >= 138 then [Packet(18, 127)] + Zeros(n - 138)
    else if n >= 11 then [Packet(18, n - 11)]
    else if n >= 3 then [Packet(17, n - 3)]
    else Each(0, n)
  }

  /** Repeats of a length: six at a time, then the rest. */
  ghost function Repeats(x: nat, n: nat): seq<Packet> {
    if n >= 6 then [Packet(16, 3)] + Repeats(x, n - 6)
    else if n >= 3 then [Packet(16, n - 3)]
    else Each(x, n)
  }

  /** `n` times `x` on end. */
  ghost function RunPackets(x: nat, n: nat): seq<Packet>
    requires n >= 1
  {
    if x == 0 then Zeros(n) else [Packet(x, 0)] + Repeats(x, n - 1)
  }

  /** How many equal lengths the list ends with. */
  ghost function LastRun(lens: seq<nat>): (n: nat)
    ensures n <= |lens| && (lens != [] ==> n >= 1)
  {
    if |lens| < 2 then |lens|
    else if lens[|lens| - 2] == lens[|lens| - 1] then LastRun(lens[..|lens| - 1]) + 1
    else 1
  }

  lemma {:induction false} LastRunIs(lens: seq<nat>)
    requires lens != []
    ensures var n := LastRun(lens);
      && (forall i :: |lens| - n <= i < |lens| ==> lens[i] == lens[|lens| - 1])
      && (n < |lens| ==> lens[|lens| - n - 1] != lens[|lens| - 1])
  {
    if |lens| >= 2 { LastRunIs(lens[..|lens| - 1]); }
  }

  /** What comes before them. */
  ghost function Front(lens: seq<nat>): (front: seq<nat>)
    ensures lens != [] ==> |front| < |lens|
  {
    lens[..|lens| - LastRun(lens)]
  }

  /** The packets of the runs of equal lengths, one after another. */
  ghost function Packing(lens: seq<nat>): seq<Packet> {
    if lens == [] then [] else Packing(Front(lens)) + RunPackets(lens[|lens| - 1], LastRun(lens))
  }

  lemma PackingIs(lens: seq<nat>)
    requires lens != []
    ensures Packing(lens) == Packing(Front(lens)) + RunPackets(lens[|lens| - 1], LastRun(lens))
  {
    hide RunPackets, LastRun, Front;
  }

  lemma {:induction false} ZerosMore(k: nat, r: nat)
    requires k % 138 == 0
    ensures Zeros(k + r) == Zeros(k) + Zeros(r)
    decreases k
  {
    if k == 0 {
      assert Zeros(0) == [];
    } else {
      assert k >= 138;
      ZerosMore(k - 138, r);
    }
  }

  lemma {:induction false} RepeatsMore(x: nat, k: nat, r: nat)
    requires k % 6 == 0
    ensures Repeats(x, k + r) == Repeats(x, k) + Repeats(x, r)
    decreases k
  {
    if k == 0 {
      assert Repeats(x, 0) == [];
    } else {
      assert k >= 6;
      RepeatsMore(x, k - 6, r);
    }
  }

  lemma RunLonger(lens: seq<nat>, x: nat)
    ensures LastRun(lens + [x]) == if lens != [] && lens[|lens| - 1] == x then LastRun(lens) + 1 else 1
  {
    assert (lens + [x])[..|lens|] == lens;
  }

  lemma RunGrows(lens: seq<nat>, x: nat)
    ensures if lens != [] && lens[|lens| - 1] == x
      then LastRun(lens + [x]) == LastRun(lens) + 1 && Front(lens + [x]) == Front(lens)
      else LastRun(lens + [x]) == 1 && Front(lens + [x]) == lens
  {
    hide LastRun;
    RunLonger(lens, x);
  }

  lemma PackingNone()
    ensures Packing([]) == []
  {
  }

  /** The packets so far are those of `lens`, but for the pending zeros or repeats. */
  ghost predicate Behind(packed: seq<Packet>, zeros: nat, repeats: nat, lens: seq<nat>) {
    if lens == [] then packed == [] && zeros == 0 && repeats == 0
    else
      var n, x := LastRun(lens), lens[|lens| - 1];
      var base := Packing(Front(lens));
      if x == 0 then
        && repeats == 0 && zeros <= n && (n - zeros) % 138 == 0
        && packed == base + Zeros(n - zeros)
      else
        && zeros == 0 && repeats < n && (n - 1 - repeats) % 6 == 0
        && packed == base + ([Packet(x, 0)] + Repeats(x, n - 1 - repeats))
  }

  /** Written out, the pending zeros complete the packed form. */
  lemma ZerosOut(packed: seq<Packet>, zeros: nat, lens: seq<nat>)
    requires Behind(packed, zeros, 0, lens) && lens != [] && lens[|lens| - 1] == 0
    ensures packed + Zeros(zeros) == Packing(lens)
    ensures zeros == 138 ==> Behind(packed + Zeros(zeros), 0, 0, lens)
  {
    hide Zeros, Packing, LastRun, Front;
    PackingIs(lens);
    var n := LastRun(lens);
    ZerosMore(n - zeros, zeros);
    Assemble(Packing(Front(lens)), Zeros(n - zeros), Zeros(zeros));
  }

  lemma Assemble(a: seq<Packet>, b: seq<Packet>, c: seq<Packet>)
    ensures (a + b) + c == a + (b + c)
  {
  }

  /** So do the pending repeats. */
  lemma RepeatsOut(packed: seq<Packet>, repeats: nat, lens: seq<nat>)
    requires Behind(packed, 0, repeats, lens) && lens != [] && lens[|lens| - 1] != 0
    ensures packed + Repeats(lens[|lens| - 1], repeats) == Packing(lens)
    ensures repeats == 6 ==> Behind(packed + Repeats(lens[|lens| - 1], repeats), 0, 0, lens)
  {
    hide Repeats, Packing, LastRun, Front;
    PackingIs(lens);
    var n, x := LastRun(lens), lens[|lens| - 1];
    RepeatsMore(x, n - 1 - repeats, repeats);
    Assemble([Packet(x, 0)], Repeats(x, n - 1 - repeats), Repeats(x, repeats));
    Assemble(Packing(Front(lens)), [Packet(x, 0)] + Repeats(x, n - 1 - repeats), Repeats(x, repeats));
  }

  lemma CaughtUp(packed: seq<Packet>, zeros: nat, repeats: nat, lens: seq<nat>)
    requires Behind(packed, zeros, repeats, lens)
    ensures lens == [] ==> packed == Packing(lens)
    ensures lens != [] && lens[|lens| - 1] == 0 ==> packed + Zeros(zeros) == Packing(lens)
    ensures lens != [] && lens[|lens| - 1] != 0 ==> packed + Repeats(lens[|lens| - 1], repeats) == Packing(lens)
  {
    hide Zeros, Repeats, LastRun, Front, Packing;
    PackingNone();
    if lens != [] {
      if lens[|lens| - 1] == 0 { ZerosOut(packed, zeros, lens); } else { RepeatsOut(packed, repeats, lens); }
    }
  }

  lemma NonePending()
    ensures Zeros(0) == [] && forall x :: Repeats(x, 0) == []
  {
  }

  /** One more of the same is pending. */
  lemma OneMore(packed: seq<Packet>, zeros: nat, repeats: nat, lens: seq<nat>, x: nat)
    requires Behind(packed, zeros, repeats, lens) && lens != [] && lens[|lens| - 1] == x
    ensures if x == 0 then Behind(packed, zeros + 1, 0, lens + [x]) else Behind(packed, 0, repeats + 1, lens + [x])
  {
    hide Zeros, Repeats, Packing, LastRun, Front;
    RunGrows(lens, x);
  }

  /** A new run begins. */
  lemma NewRun(packed: seq<Packet>, lens: seq<nat>, x: nat)
    requires packed == Packing(lens) && (lens == [] || lens[|lens| - 1] != x)
    ensures if x == 0 then Behind(packed, 1, 0, lens + [x]) else Behind(packed + [Packet(x, 0)], 0, 0, lens + [x])
  {
    hide Zeros, Repeats, Packing, LastRun, Front;
    NonePending();
    RunGrows(lens, x);
    if x == 0 {
      assert packed == packed + [];
    } else {
      assert packed + [Packet(x, 0)] == packed + ([Packet(x, 0)] + []);
    }
  }

  class Packer {
    var packed: seq<Packet>
    var counts: seq<nat>
    var zeros: nat
    var repeats: nat

    /** The packets, then the pending zeros or repeats of `prev`, make `lens`. */
    ghost predicate Holds(lens: seq<nat>, prev: nat)
      reads this
    {
      && WellFormed(packed) && Tallied(counts, packed)
      && zeros <= 138 && repeats <= 6 && (zeros == 0 || repeats == 0)
      && Unpack(packed) + Times(0, zeros) + Times(prev, repeats) == lens
      && (repeats > 0 ==> prev != 0 && Unpack(packed) != [] && Unpack(packed)[|Unpack(packed)| - 1] == prev)
      && Sizes(packed) <= |Unpack(packed)|
    }

    constructor ()
      ensures packed == [] && Holds([], 255) && zeros == 0 && repeats == 0
    {
      packed, counts, zeros, repeats := [], seq(19, _ => 0), 0, 0;
      new;
      SumZero(counts);
    }

    method Emit(p: Packet)
      requires p.Valid() && WellFormed(packed) && Tallied(counts, packed) && (p.code == 16 ==> Unpack(packed) != [])
      modifies `packed, `counts
      ensures packed == old(packed) + [p] && WellFormed(packed) && Tallied(counts, packed)
      ensures Unpack(packed) == Unfold(old(Unpack(packed)), p)
      ensures Sizes(packed) == old(Sizes(packed)) + p.Size()
    {
      hide Unpack, Sizes, Occurs, Sum, WellFormed;
      Snoc(packed, p);
      SumUpdate(counts, p.code, counts[p.code] + 1);
      counts := counts[p.code := counts[p.code] + 1];
      packed := packed + [p];
    }

    /** Writes `n` copies of `x` one by one. */
    method EmitEach(x: nat, n: nat)
      requires x < 16 && n < 3 && WellFormed(packed) && Tallied(counts, packed)
      modifies `packed, `counts
      ensures WellFormed(packed) && Tallied(counts, packed) && packed == old(packed) + Each(x, n)
      ensures Unpack(packed) == old(Unpack(packed)) + Times(x, n) && Sizes(packed) == old(Sizes(packed)) + n
    {
      hide Unpack, Sizes, WellFormed, Tallied;
      var k := 0;
      while k < n
        invariant 0 <= k <= n && WellFormed(packed) && Tallied(counts, packed) && packed == old(packed) + Each(x, k)
        invariant Unpack(packed) == old(Unpack(packed)) + Times(x, k) && Sizes(packed) == old(Sizes(packed)) + k
      {
        Emit(Packet(x, 0));
        k := k + 1;
      }
    }

    /** Writes out pending repeats of `prev`. */
    method FlushRepeats(prev: nat, ghost lens: seq<nat>)
      requires Holds(lens, prev) && (repeats > 0 ==> prev < 16)
      modifies this
      ensures Holds(lens, prev) && repeats == 0 && zeros == old(zeros)
      ensures packed == old(packed) + Repeats(prev, old(repeats)) && (old(repeats) == 0 ==> packed == old(packed))
    {
      hide Unpack, Sizes, WellFormed, Tallied;
      if repeats > 0 {
        if repeats < 3 {
          EmitEach(prev, repeats);
        } else {
          Emit(Packet(16, repeats - 3));
        }
        repeats := 0;
      }
    }

    /** Writes out pending zeros. */
    method FlushZeros(prev: nat, ghost lens: seq<nat>)
      requires Holds(lens, prev)
      modifies this
      ensures Holds(lens, prev) && zeros == 0 && repeats == old(repeats)
      ensures packed == old(packed) + Zeros(old(zeros)) && (old(zeros) == 0 ==> packed == old(packed))
    {
      hide Unpack, Sizes, WellFormed, Tallied;
      if zeros > 0 {
        if zeros < 3 {
          EmitEach(0, zeros);
        } else if zeros <= 10 {
          Emit(Packet(17, zeros - 3));
        } else {
          Emit(Packet(18, zeros - 11));
        }
        zeros := 0;
      }
    }

    /** What holds between two lengths. */
    ghost predicate Ready(lens: seq<nat>, prev: nat)
      reads this
    {
      && Holds(lens, prev) && zeros < 138 && repeats < 6 && Behind(packed, zeros, repeats, lens)
      && prev == (if lens == [] then 255 else lens[|lens| - 1])
      && (prev != 0 ==> zeros == 0) && (prev == 0 ==> repeats == 0)
    }

    /** One more zero. */
    method AddZero(prev: nat, ghost lens: seq<nat>)
      requires Ready(lens, prev) && (lens != [] ==> prev < 16)
      modifies this
      ensures Ready(lens + [0], 0)
    {
      hide Unpack, Sizes, WellFormed, Tallied, Zeros, Repeats, Behind, Packing;
      CaughtUp(packed, zeros, repeats, lens);
      if prev == 0 { OneMore(packed, zeros, repeats, lens, 0); }
      FlushRepeats(prev, lens);
      if prev != 0 { NewRun(packed, lens, 0); }
      zeros := zeros + 1;
      assert Times(0, zeros - 1) + [0] == Times(0, zeros);
      if zeros == 138 {
        ZerosOut(packed, 138, lens + [0]);
        FlushZeros(0, lens + [0]);
      }
    }

    /** One more length that is not zero. */
    method AddLength(size: nat, prev: nat, ghost lens: seq<nat>)
      requires Ready(lens, prev) && (lens != [] ==> prev < 16) && 0 < size < 16
      modifies this
      ensures Ready(lens + [size], size)
    {
      hide Unpack, Sizes, WellFormed, Tallied, Zeros, Repeats, Behind, Packing;
      CaughtUp(packed, zeros, repeats, lens);
      if size == prev { OneMore(packed, zeros, repeats, lens, size); }
      FlushZeros(prev, lens);
      if size != prev {
        FlushRepeats(prev, lens);
        NewRun(packed, lens, size);
        Emit(Packet(size, 0));
      } else {
        repeats := repeats + 1;
        assert Times(size, repeats - 1) + [size] == Times(size, repeats);
        if repeats == 6 {
          RepeatsOut(packed, 6, lens + [size]);
          FlushRepeats(prev, lens + [size]);
        }
      }
    }
  }

  /** Packs the lengths, run by run: unpacking gives them back, the packed form is no longer than they
      are, and the histogram of its symbols is kept. */
  method Pack(sizes: seq<nat>) returns (packed: seq<Packet>, counts: seq<nat>)
    requires forall i :: 0 <= i < |sizes| ==> sizes[i] < 16
    ensures packed == Packing(sizes)
    ensures WellFormed(packed) && Unpack(packed) == sizes && Sizes(packed) <= |sizes|
    ensures Tallied(counts, packed)
  {
    hide Unpack, Sizes, WellFormed, Tallied, Zeros, Repeats, Behind, Packing;
    var p := new Packer();
    var prev := 255;
    NothingBehind();
    var i := 0;
    while i < |sizes|
      invariant 0 <= i <= |sizes| && fresh(p) && p.Ready(sizes[..i], prev)
    {
      assert sizes[..i + 1] == sizes[..i] + [sizes[i]];
      if sizes[i] == 0 { p.AddZero(prev, sizes[..i]); } else { p.AddLength(sizes[i], prev, sizes[..i]); }
      prev := sizes[i];
      i := i + 1;
    }
    assert sizes[..i] == sizes;
    CaughtUp(p.packed, p.zeros, p.repeats, sizes);
    if p.repeats > 0 { p.FlushRepeats(prev, sizes); } else { p.FlushZeros(prev, sizes); }
    NonePending();
    return p.packed, p.counts;
  }

  lemma NothingBehind()
    ensures Behind([], 0, 0, [])
  {
  }

  lemma {:induction false} SumZero(s: seq<nat>)
    requires forall i :: 0 <= i < |s| ==> s[i] == 0
    ensures Sum(s) == 0
  {
    if s != [] { SumZero(s[1..]); }
  }
}
