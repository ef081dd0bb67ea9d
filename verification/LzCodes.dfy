/** LZ77 codes and what they expand to. */
module LzCodes {
  import opened Values

  const MIN_MATCH := 3
  const MAX_MATCH := 258
  const DICT_SIZE := 32768


  datatype LzCode = Lit(byte: Byte) | Match(len: nat, dist: nat)
  {
    /** A byte, or a length of 3 to 258 and a distance of 1 to 32768. */
    predicate Valid() {
      match this
      case Lit(_) => true
      case Match(len, dist) => MIN_MATCH <= len <= MAX_MATCH && 1 <= dist <= DICT_SIZE
    }
  }

  /** `len` bytes appended one at a time, each a copy of the one `dist` back. */
  function Copy(out: seq<Byte>, dist: nat, len: nat): (r: seq<Byte>)
    requires 1 <= dist <= |out|
    ensures |r| == |out| + len
    decreases len
  {
    if len == 0 then out else Copy(out + [out[|out| - dist]], dist, len - 1)
  }

  /** The bytes after `out` and one more code; a distance that reaches too far adds nothing. */
  function Apply(out: seq<Byte>, c: LzCode): seq<Byte> {
    match c
    case Lit(b) => out + [b]
    case Match(len, dist) => if 1 <= dist <= |out| then Copy(out, dist, len) else out
  }

  /** What a decoder makes of `codes`, starting from nothing. */
  function Expand(codes: seq<LzCode>): seq<Byte> {
    if codes == [] then [] else Apply(Expand(codes[..|codes| - 1]), codes[|codes| - 1])
  }

  /** Every match refers to bytes already expanded. */
  ghost predicate Reaches(codes: seq<LzCode>) {
    forall i :: 0 <= i < |codes| && codes[i].Match? ==> 1 <= codes[i].dist <= |Expand(codes[..i])|
  }

  lemma ExpandNext(codes: seq<LzCode>, c: LzCode)
    ensures Expand(codes + [c]) == Apply(Expand(codes), c)
  {
    assert (codes + [c])[..|codes|] == codes;
  }

  lemma ReachesNext(codes: seq<LzCode>, c: LzCode)
    requires Reaches(codes) && (c.Match? ==> 1 <= c.dist <= |Expand(codes)|)
    ensures Reaches(codes + [c])
  {
    hide Expand;
    var d := codes + [c];
    forall i | 0 <= i < |d| && d[i].Match? ensures 1 <= d[i].dist <= |Expand(d[..i])| {
      assert d[..i] == codes[..i];
      if i == |codes| { assert codes[..i] == codes; }
    }
  }

  /** `len` bytes of `h` from `p` on repeat those `dist` back. */
  ghost predicate MatchAt(h: seq<Byte>, p: nat, len: nat, dist: nat) {
    && 1 <= dist <= p && p + len <= |h|
    && forall x :: p <= x < p + len ==> h[x] == h[x - dist]
  }

  /** Expanding a verified match extends the history it was found in. */
  lemma {:induction false} CopyIsHistory(h: seq<Byte>, p: nat, len: nat, dist: nat)
    requires MatchAt(h, p, len, dist)
    ensures Copy(h[..p], dist, len) == h[..p + len]
    decreases len
  {
    if len > 0 {
      assert h[..p] + [h[..p][p - dist]] == h[..p + 1];
      CopyIsHistory(h, p + 1, len - 1, dist);
    }
  }

  /** A recorded literal or match extends a faithful expansion. */
  lemma Faithful(codes: seq<LzCode>, h: seq<Byte>, p: nat, c: LzCode)
    requires p <= |h| && Expand(codes) == h[..p] && Reaches(codes)
    requires match c
      case Lit(b) => p < |h| && h[p] == b
      case Match(len, dist) => MatchAt(h, p, len, dist)
    ensures Reaches(codes + [c])
    ensures Expand(codes + [c]) == h[..p + (match c case Lit(_) => 1 case Match(len, _) => len)]
  {
    hide Expand, Copy, Reaches, MatchAt;
    ExpandNext(codes, c);
    assert c.Match? ==> 1 <= c.dist <= p by { if c.Match? { MatchReach(h, p, c.len, c.dist); } }
    ReachesNext(codes, c);
    if c.Match? { CopyIsHistory(h, p, c.len, c.dist); }
  }

  lemma MatchReach(h: seq<Byte>, p: nat, len: nat, dist: nat)
    requires MatchAt(h, p, len, dist)
    ensures 1 <= dist <= p && p + len <= |h|
  {
  }

  /** More bytes after the match do not matter. */
  lemma MatchLater(h: seq<Byte>, h': seq<Byte>, p: nat, len: nat, dist: nat)
    requires MatchAt(h, p, len, dist) && h <= h'
    ensures MatchAt(h', p, len, dist)
  {
  }
}

/** The packed code buffer: groups of up to eight codes, each after a byte of flags. */
module CodeBuffer {
  import opened Values
  import opened LzCodes

  const CODE_BUF_SIZE := 65536

  ghost predicate AllValid(codes: seq<LzCode>) {
    forall i :: 0 <= i < |codes| ==> codes[i].Valid()
  }

  /** A literal is one byte; a match is its length less 3 and its distance less 1, low byte first. */
  function CodeBytes(c: LzCode): seq<Byte>
    requires c.Valid()
  {
    match c
    case Lit(b) => [b]
    case Match(len, dist) => [len - MIN_MATCH, (dist - 1) % 256, (dist - 1) / 256]
  }

  ghost function Bytes(codes: seq<LzCode>): seq<Byte>
    requires AllValid(codes)
  {
    if codes == [] then [] else CodeBytes(codes[0]) + Bytes(codes[1..])
  }

  function FlagBit(c: LzCode): nat {
    if c.Match? then 1 else 0
  }

  /** Flag bits of a group, the first code in the lowest bit. */
  ghost function Flags(codes: seq<LzCode>): nat {
    if codes == [] then 0 else FlagBit(codes[0]) + 2 * Flags(codes[1..])
  }

  /** The finished buffer for `codes`: the flag byte of each group of eight, then its codes. */
  ghost function Packed(codes: seq<LzCode>): seq<nat>
    requires AllValid(codes)
    decreases |codes|
  {
    if codes == [] then []
    else if |codes| <= 8 then [Flags(codes)] + Bytes(codes)
    else [Flags(codes[..8])] + Bytes(codes[..8]) + Packed(codes[8..])
  }

  lemma {:induction false} BytesNext(codes: seq<LzCode>, c: LzCode)
    requires AllValid(codes) && c.Valid()
    ensures AllValid(codes + [c]) && Bytes(codes + [c]) == Bytes(codes) + CodeBytes(c)
  {
    if codes == [] {
      assert (codes + [c])[1..] == [];
    } else {
      BytesNext(codes[1..], c);
      assert (codes + [c])[1..] == codes[1..] + [c];
    }
  }

  function Pow2Small(m: nat): nat
    requires m <= 8
  {
    [1, 2, 4, 8, 16, 32, 64, 128, 256][m]
  }

  lemma {:induction false} FlagsNext(codes: seq<LzCode>, c: LzCode)
    requires |codes| <= 7
    ensures Flags(codes + [c]) == Flags(codes) + Pow2Small(|codes|) * FlagBit(c)
  {
    if codes == [] {
      assert (codes + [c])[1..] == [];
    } else {
      FlagsNext(codes[1..], c);
      assert (codes + [c])[1..] == codes[1..] + [c];
    }
  }

  lemma PackedUnfold(codes: seq<LzCode>)
    requires AllValid(codes) && codes != []
    ensures |codes| <= 8 ==> Packed(codes) == [Flags(codes)] + Bytes(codes)
    ensures |codes| >= 8 ==> AllValid(codes[..8]) && AllValid(codes[8..])
    ensures |codes| >= 8 ==> Packed(codes) == [Flags(codes[..8])] + Bytes(codes[..8]) + Packed(codes[8..])
  {
    hide Bytes, Flags;
    if |codes| == 8 { assert codes[..8] == codes && codes[8..] == []; }
  }

  /** Whole groups packed one after another. */
  lemma {:induction false} PackedGroup(codes: seq<LzCode>, group: seq<LzCode>)
    requires AllValid(codes) && AllValid(group) && |codes| % 8 == 0 && 0 < |group| <= 8
    ensures AllValid(codes + group) && Packed(codes + group) == Packed(codes) + [Flags(group)] + Bytes(group)
    decreases |codes|
  {
    hide Bytes, Flags, Packed;
    var all := codes + group;
    PackedUnfold(all);
    if codes == [] {
      assert all == group;
      PackedNone();
    } else {
      PackedUnfold(codes);
      assert all[..8] == codes[..8] && all[8..] == codes[8..] + group;
      PackedGroup(codes[8..], group);
    }
  }

  lemma PackedNone()
    ensures Packed([]) == []
  {
  }

  ghost function Part(codes: seq<LzCode>): seq<LzCode> {
    codes[|codes| - |codes| % 8..]
  }

  ghost function Whole(codes: seq<LzCode>): seq<LzCode> {
    codes[..|codes| - |codes| % 8]
  }

  /** The buffer while codes are recorded: whole groups, then a flag byte whose top bits
      hold the flags so far, then the codes of the open group. */
  ghost predicate Holds(b: seq<Byte>, codes: seq<LzCode>, codeAt: nat, flagsAt: nat, flagsLeft: nat) {
    && AllValid(codes) && AllValid(Whole(codes)) && AllValid(Part(codes))
    && flagsLeft == 8 - |codes| % 8
    && flagsAt == |Packed(Whole(codes))| && codeAt == flagsAt + 1 + |Bytes(Part(codes))| <= |b|
    && b[..flagsAt] == Packed(Whole(codes))
    && b[flagsAt + 1..codeAt] == Bytes(Part(codes))
    && b[flagsAt] / Pow2Small(flagsLeft) == Flags(Part(codes))
  }

  lemma HoldsNothing(b: seq<Byte>)
    requires |b| >= 1
    ensures Holds(b, [], 1, 0, 8)
  {
  }

  /** Shifting a flag in at the top. */
  lemma ShiftFlag(f: nat, m: nat, bit: nat)
    requires f < 256 && m <= 7 && bit <= 1
    ensures f / 2 + 128 * bit < 256
    ensures (f / 2 + 128 * bit) / Pow2Small(7 - m) == f / Pow2Small(8 - m) + Pow2Small(m) * bit
  {
    var g := f / 2;
    assert f / Pow2Small(8 - m) == g / Pow2Small(7 - m);
  }

  /** `b'` is `b` after code `c` is written at `codeAt` and its flag shifted in. */
  ghost predicate Wrote(b: seq<Byte>, b': seq<Byte>, c: LzCode, codeAt: nat, flagsAt: nat)
    requires c.Valid()
  {
    var n := |CodeBytes(c)|;
    && |b| == |b'| && flagsAt < codeAt && codeAt + n <= |b|
    && b'[..flagsAt] == b[..flagsAt] && b'[flagsAt + 1..codeAt] == b[flagsAt + 1..codeAt]
    && b'[codeAt..codeAt + n] == CodeBytes(c)
    && b'[flagsAt] as int == b[flagsAt] as int / 2 + 128 * FlagBit(c)
  }

  lemma PartNext(codes: seq<LzCode>, c: LzCode)
    ensures |codes| % 8 < 7 ==> Part(codes + [c]) == Part(codes) + [c] && Whole(codes + [c]) == Whole(codes)
    ensures |codes| % 8 == 7 ==> Part(codes + [c]) == [] && Whole(codes + [c]) == Whole(codes) + (Part(codes) + [c])
    ensures |Part(codes)| == |codes| % 8 && |Whole(codes)| % 8 == 0
  {
    var n, m := |codes|, |codes| % 8;
    assert (n + 1) % 8 == if m == 7 then 0 else m + 1;
  }

  /** Recording one code, the group still open. */
  lemma RecordOpen(b: seq<Byte>, b': seq<Byte>, codes: seq<LzCode>, c: LzCode, codeAt: nat, flagsAt: nat,
                   flagsLeft: nat)
    requires Holds(b, codes, codeAt, flagsAt, flagsLeft) && c.Valid() && Wrote(b, b', c, codeAt, flagsAt)
      && flagsLeft > 1
    ensures Holds(b', codes + [c], codeAt + |CodeBytes(c)|, flagsAt, flagsLeft - 1)
  {
    hide Packed, Bytes, Flags, Part, Whole, CodeBytes, Pow2Small;
    PartNext(codes, c);
    BytesNext(Part(codes), c);
    FlagsNext(Part(codes), c);
    ShiftFlag(b[flagsAt], |codes| % 8, FlagBit(c));
    var n := |CodeBytes(c)|;
    assert b'[flagsAt + 1..codeAt + n] == b'[flagsAt + 1..codeAt] + b'[codeAt..codeAt + n];
  }

  /** Recording the eighth code closes the group and reserves the next flag byte. */
  lemma RecordLast(b: seq<Byte>, b': seq<Byte>, codes: seq<LzCode>, c: LzCode, codeAt: nat, flagsAt: nat)
    requires Holds(b, codes, codeAt, flagsAt, 1) && c.Valid() && Wrote(b, b', c, codeAt, flagsAt)
    requires codeAt + |CodeBytes(c)| < |b|
    ensures Holds(b', codes + [c], codeAt + |CodeBytes(c)| + 1, codeAt + |CodeBytes(c)|, 8)
  {
    hide Packed, Bytes, Flags, Part, Whole, CodeBytes, Pow2Small;
    PartNext(codes, c);
    var group, n := Part(codes) + [c], |CodeBytes(c)|;
    BytesNext(Part(codes), c);
    FlagsNext(Part(codes), c);
    ShiftFlag(b[flagsAt], 7, FlagBit(c));
    PackedGroup(Whole(codes), group);
    BytesFlagsNone();
    assert b'[..codeAt + n] == b'[..flagsAt] + [b'[flagsAt]] + (b'[flagsAt + 1..codeAt] + b'[codeAt..codeAt + n]);
  }

  lemma BytesFlagsNone()
    ensures Bytes([]) == [] && Flags([]) == 0 && Pow2Small(0) == 1 && Pow2Small(1) == 2 && Pow2Small(8) == 256
  {
  }

  /** Closing the buffer: the open group's flags move down, or an empty group is dropped. */
  lemma CloseBuffer(b: seq<Byte>, b': seq<Byte>, codes: seq<LzCode>, codeAt: nat, flagsAt: nat, flagsLeft: nat)
    requires Holds(b, codes, codeAt, flagsAt, flagsLeft)
    requires b' == b[flagsAt := b[flagsAt] / Pow2Small(flagsLeft)]
    ensures flagsLeft == 8 ==> b'[..codeAt - 1] == Packed(codes)
    ensures flagsLeft < 8 ==> b'[..codeAt] == Packed(codes)
  {
    hide Packed, Bytes, Flags;
    if flagsLeft == 8 {
      BytesFlagsNone();
      assert Whole(codes) == codes && Part(codes) == [];
    } else {
      assert codes == Whole(codes) + Part(codes);
      PackedGroup(Whole(codes), Part(codes));
      assert b'[..codeAt] == b'[..flagsAt] + [b'[flagsAt]] + b'[flagsAt + 1..codeAt];
    }
  }

  // ---- Replaying.

  /** The read position inside a group of which `g` is left, in `slots` places, with `after` behind it. */
  ghost predicate Reading(b: seq<Byte>, g: seq<LzCode>, after: seq<LzCode>, slots: nat, flags: nat) {
    && AllValid(g) && AllValid(after) && |g| <= slots <= 8 && (after != [] ==> |g| == slots)
    && flags == Flags(g) + Pow2Small(slots)
    && b == Bytes(g) + Packed(after)
  }

  /** Loading the next flag byte. */
  lemma LoadGroup(b: seq<Byte>, after: seq<LzCode>) returns (g: seq<LzCode>, rest: seq<LzCode>)
    requires AllValid(after) && after != [] && b == Packed(after)
    ensures after == g + rest && b != [] && Reading(b[1..], g, rest, 8, b[0] as int + 256) && g != []
  {
    hide Bytes, Flags, Pow2Small;
    BytesFlagsNone();
    if |after| <= 8 {
      g, rest := after, [];
      assert Bytes(g) + Packed(rest) == Bytes(g);
    } else {
      g, rest := after[..8], after[8..];
      assert b[1..] == Bytes(g) + Packed(rest);
    }
  }

  lemma ReadOne(b: seq<Byte>, g: seq<LzCode>, after: seq<LzCode>, slots: nat, flags: nat)
    requires Reading(b, g, after, slots, flags) && g != []
    ensures g[0].Valid() && flags % 2 == FlagBit(g[0]) && |CodeBytes(g[0])| <= |b|
      && b[..|CodeBytes(g[0])|] == CodeBytes(g[0])
    ensures Reading(b[|CodeBytes(g[0])|..], g[1..], after, slots - 1, flags / 2)
  {
    hide Packed, CodeBytes;
    assert Pow2Small(slots) == 2 * Pow2Small(slots - 1);
    var n := |CodeBytes(g[0])|;
    assert b == CodeBytes(g[0]) + (Bytes(g[1..]) + Packed(after));
  }

  /** The length and distance of a match, or the literal, read back from its bytes. */
  lemma CodeFromBytes(c: LzCode)
    requires c.Valid()
    ensures var y := CodeBytes(c);
      match c
      case Lit(b) => y == [b]
      case Match(len, dist) => |y| == 3 && len == y[0] as int + 3 && dist == y[1] as int + y[2] as int * 256 + 1
  {
  }

  /** One code at `p`. */
  method ReadCode(buf: array<Byte>, p: nat, end: nat, flags: nat, ghost c: LzCode) returns (out: LzCode, q: nat)
    requires c.Valid() && flags % 2 == FlagBit(c)
    requires p + |CodeBytes(c)| <= end <= buf.Length && buf[p..end][..|CodeBytes(c)|] == CodeBytes(c)
    ensures out == c && q == p + |CodeBytes(c)| > p
  {
    hide CodeBytes;
    CodeFromBytes(c);
    ghost var n := |CodeBytes(c)|;
    assert forall i :: 0 <= i < n ==> buf[p + i] == CodeBytes(c)[i];
    if flags % 2 == 1 {
      out, q := Match(buf[p] as int + 3, buf[p + 1] as int + buf[p + 2] as int * 256 + 1), p + 3;
    } else {
      out, q := Lit(buf[p]), p + 1;
    }
  }

  /** Walks the closed buffer the way the block writer does. */
  method Replay(buf: array<Byte>, end: nat, ghost codes: seq<LzCode>) returns (out: seq<LzCode>)
    requires end <= buf.Length && AllValid(codes) && buf[..end] == Packed(codes)
    ensures out == codes
  {
    hide Packed, Bytes, Flags, CodeBytes, Reading, Pow2Small, AllValid;
    out := [];
    var flags: nat, p := 1, 0;
    ghost var g: seq<LzCode>, after, slots: nat := [], codes, 0;
    ReplayStart(buf[0..end], codes);
    while p < end
      invariant 0 <= p <= end && codes == out + g + after
      invariant Reading(buf[p..end], g, after, slots, flags)
      invariant p < end ==> g != [] || after != []
      decreases end - p
    {
      ReadingShape(buf[p..end], g, after, slots, flags);
      if flags == 1 {
        flags := buf[p] as int + 256;
        ghost var rest;
        g, rest := LoadGroup(buf[p..end], after);
        after, slots := rest, 8;
        assert buf[p..end][1..] == buf[p + 1..end];
        p := p + 1;
      }
      ReadOne(buf[p..end], g, after, slots, flags);
      var c, q := ReadCode(buf, p, end, flags, g[0]);
      assert buf[p..end][q - p..] == buf[q..end];
      assert out + g + after == out + [g[0]] + g[1..] + after;
      out := out + [c];
      g, slots, flags, p := g[1..], slots - 1, flags / 2, q;
      ReadingShape(buf[p..end], g, after, slots, flags);
    }
    ReadingShape(buf[p..end], g, after, slots, flags);
  }

  lemma ReplayStart(b: seq<Byte>, codes: seq<LzCode>)
    requires AllValid(codes) && b == Packed(codes)
    ensures Reading(b, [], codes, 0, 1) && (b != [] ==> codes != [])
  {
    BytesFlagsNone();
    assert Bytes([]) + Packed(codes) == Packed(codes);
  }

  lemma ReadingShape(b: seq<Byte>, g: seq<LzCode>, after: seq<LzCode>, slots: nat, flags: nat)
    requires Reading(b, g, after, slots, flags)
    ensures flags == 1 <==> slots == 0
    ensures g == [] && after == [] <==> b == []
    ensures slots == 0 ==> g == [] && b == Packed(after) && AllValid(after)
    ensures g == [] && after != [] ==> slots == 0
  {
    hide CodeBytes;
    assert g == [] ==> Bytes(g) == [] && Flags(g) == 0;
    assert g != [] ==> |Bytes(g)| > 0 by { if g != [] { CodeFromBytes(g[0]); } }
    assert Pow2Small(0) == 1 && (slots > 0 ==> Pow2Small(slots) >= 2);
  }
}
