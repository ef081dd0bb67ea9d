/** The host's side of the serial line: packets are escaped and unescaped by replacing byte strings, and agree
    with what the firmware does byte by byte. */
module SerialHost {
  import opened Values
  import opened SerialEscape

  const MAGIC: seq<Byte> := [0xE7, 0x4D, 0x50, 0x4B, 0x54]

  // ---- Replacing.

  /** Every occurrence of `from`, taken from the left, replaced. */
  ghost function Replaced(s: seq<Byte>, from: seq<Byte>, into: seq<Byte>): seq<Byte>
    requires from != []
    decreases |s|
  {
    if s == [] then []
    else if from <= s then into + Replaced(s[|from|..], from, into)
    else [s[0]] + Replaced(s[1..], from, into)
  }

  /** The first place at or after `start` where `from` begins, or -1. */
  method IndexOf(s: seq<Byte>, from: seq<Byte>, start: nat) returns (i: int)
    requires start <= |s|
    ensures i >= 0 ==> start <= i <= |s| && from <= s[i..] && forall k :: start <= k < i ==> !(from <= s[k..])
    ensures i < 0 ==> forall k :: start <= k <= |s| ==> !(from <= s[k..])
  {
    i := start;
    while i <= |s|
      invariant start <= i <= |s| + 1 && forall k :: start <= k < i ==> !(from <= s[k..])
    {
      if |from| <= |s| - i && s[i..i + |from|] == from { return; }
      i := i + 1;
    }
    i := -1;
  }

  /** Nothing changes before the first occurrence. */
  lemma {:induction false} KeepsUntil(s: seq<Byte>, from: seq<Byte>, into: seq<Byte>, start: nat, i: nat)
    requires from != [] && start <= i <= |s| && forall k :: start <= k < i ==> !(from <= s[k..])
    ensures Replaced(s[start..], from, into) == s[start..i] + Replaced(s[i..], from, into)
    decreases i - start
  {
    if start < i {
      KeepsUntil(s, from, into, start + 1, i);
      assert s[start..][1..] == s[start + 1..];
      assert s[start..i] == [s[start]] + s[start + 1..i];
    }
  }

  lemma AtOnce(s: seq<Byte>, from: seq<Byte>, into: seq<Byte>)
    requires from != [] && from <= s
    ensures Replaced(s, from, into) == into + Replaced(s[|from|..], from, into)
  {
  }

  lemma Parts(s: seq<Byte>, i: nat, j: nat, x: seq<Byte>, y: seq<Byte>)
    requires i <= j <= |s|
    ensures s[..i] + (s[i..j] + (x + y)) == (s[..j] + x) + y
  {
    assert s[..j] == s[..i] + s[i..j];
  }

  /** One occurrence replaced: what is left to do is behind it. */
  lemma OneReplaced(s: seq<Byte>, from: seq<Byte>, into: seq<Byte>, current: nat, index: nat)
    requires from != [] && current <= index <= |s| && from <= s[index..]
    requires forall k :: current <= k < index ==> !(from <= s[k..])
    ensures index + |from| <= |s|
    ensures s[..current] + Replaced(s[current..], from, into)
      == (s[..index] + into) + Replaced(s[index + |from|..], from, into)
  {
    KeepsUntil(s, from, into, current, index);
    AtOnce(s[index..], from, into);
    hide Replaced;
    var after := Replaced(s[index + |from|..], from, into);
    assert s[index..][|from|..] == s[index + |from|..];
    Parts(s, current, index, into, after);
  }

  method BufferReplace(buf: seq<Byte>, from: seq<Byte>, into: seq<Byte>) returns (r: seq<Byte>)
    requires from != []
    ensures r == Replaced(buf, from, into)
  {
    hide Replaced;
    r := buf;
    var current := 0;
    assert buf[0..] == buf && buf[..0] + Replaced(buf, from, into) == Replaced(buf, from, into);
    while true
      invariant current <= |r| && r[..current] + Replaced(r[current..], from, into) == Replaced(buf, from, into)
      decreases |r| - current
    {
      var index := IndexOf(r, from, current);
      if index < 0 {
        KeepsUntil(r, from, into, current, |r|);
        NothingReplaced();
        assert r[..current] + (r[current..|r|] + []) == r && r[|r|..] == [];
        return;
      }
      OneReplaced(r, from, into, current, index);
      var before, after := r[..index], r[index + |from|..];
      r := before + into + after;
      current := index + |into|;
      assert r[..current] == before + into && r[current..] == after;
    }
  }

  // ---- Escaping.

  /** The two replacements in the order in which the host makes them. */
  ghost function HostEscape(p: seq<Byte>): seq<Byte> {
    Replaced(Replaced(p, [0xEE], [0xEE, 0xE1]), [0x0A], [0xEE, 0xE0])
  }

  ghost function HostUnescape(e: seq<Byte>): seq<Byte> {
    Replaced(Replaced(e, [0xEE, 0xE0], [0x0A]), [0xEE, 0xE1], [0xEE])
  }

  lemma StepOne(b: Byte, s: seq<Byte>, x: Byte, into: seq<Byte>)
    ensures Replaced([b] + s, [x], into) == (if b == x then into else [b]) + Replaced(s, [x], into)
  {
    var t := [b] + s;
    assert t[1..] == s && t[0] == b;
    if b == x { assert t == [x] + s; }
  }

  /** The host escapes as the firmware does. */
  lemma {:induction false} EscapesAlike(p: seq<Byte>)
    ensures HostEscape(p) == Escape(p)
    decreases p
  {
    hide Replaced, EscapeByte;
    if p == [] {
      NothingReplaced();
    } else {
      var rest := Replaced(p[1..], [0xEE], [0xEE, 0xE1]);
      assert p == [p[0]] + p[1..];
      StepOne(p[0], p[1..], 0xEE, [0xEE, 0xE1]);
      if p[0] == 0xEE {
        assert [0xEE, 0xE1] + rest == [0xEE] + ([0xE1] + rest);
        StepOne(0xEE, [0xE1] + rest, 0x0A, [0xEE, 0xE0]);
        StepOne(0xE1, rest, 0x0A, [0xEE, 0xE0]);
      } else {
        StepOne(p[0], rest, 0x0A, [0xEE, 0xE0]);
      }
      EscapesAlike(p[1..]);
      EscapeFirst(p);
      Spelled(p[0]);
    }
  }

  lemma NothingReplaced()
    ensures forall from, into :: from != [] ==> Replaced([], from, into) == []
  {
  }

  /** What the two sides agreed on. */
  lemma Spelled(b: Byte)
    ensures EscapeByte(b) == if b == 0x0A then [0xEE, 0xE0] else if b == 0xEE then [0xEE, 0xE1] else [b]
  {
  }

  lemma {:induction false} EscapeFirst(p: seq<Byte>)
    requires p != []
    ensures Escape(p) == EscapeByte(p[0]) + Escape(p[1..])
    decreases p
  {
    hide EscapeByte;
    var n := |p| - 1;
    if n == 0 {
      assert p[..0] == [] && p[1..] == [];
    } else {
      EscapeFirst(p[..n]);
      assert p[..n][1..] == p[1..][..n - 1];
    }
  }

  // ---- Unescaping.

  lemma StepTwo(b: Byte, s: seq<Byte>, x: Byte, y: Byte, into: seq<Byte>)
    ensures Replaced([b] + s, [x, y], into)
      == if b == x && s != [] && s[0] == y then into + Replaced(s[1..], [x, y], into)
         else [b] + Replaced(s, [x, y], into)
  {
    var t := [b] + s;
    assert t[1..] == s;
    if s != [] { assert t[2..] == s[1..]; }
    assert [x, y] <= t <==> b == x && s != [] && s[0] == y;
  }

  /** Whatever the firmware accepts, the host makes the same of it. */
  lemma {:induction false} UnescapesAlike(e: seq<Byte>)
    requires Unescape(e).Some?
    ensures HostUnescape(e) == Unescape(e).value
    decreases |e|
  {
    hide Replaced;
    if e == [] {
      NothingReplaced();
    } else {
      var s := e[1..];
      assert e == [e[0]] + s;
      StepTwo(e[0], s, 0xEE, 0xE0, [0x0A]);
      if e[0] == 0xEE && s != [] {
        assert s[1..] == e[2..];
        UnescapesAlike(e[2..]);
        var rest := Replaced(e[2..], [0xEE, 0xE0], [0x0A]);
        if s[0] == 0xE0 {
          StepTwo(0x0A, rest, 0xEE, 0xE1, [0xEE]);
        } else {
          assert s == [0xE1] + e[2..];
          StepTwo(0xE1, e[2..], 0xEE, 0xE0, [0x0A]);
          StepTwo(0xEE, [0xE1] + rest, 0xEE, 0xE1, [0xEE]);
          assert ([0xE1] + rest)[1..] == rest;
        }
      } else {
        var rest := Replaced(s, [0xEE, 0xE0], [0x0A]);
        UnescapesAlike(s);
        if s == [] { NothingReplaced(); }
        StepTwo(e[0], rest, 0xEE, 0xE1, [0xEE]);
      }
    }
  }

  /** On both sides what was escaped comes back. */
  lemma BackOnBothSides(p: seq<Byte>)
    ensures HostUnescape(Escape(p)) == p && Unescape(HostEscape(p)) == Some(p)
  {
    hide Replaced, Unescape, Escape;
    RoundTrip(p);
    UnescapesAlike(Escape(p));
    EscapesAlike(p);
  }

  /** A sequence that neither side writes: the firmware refuses it, the host lets it through. */
  lemma HostLetsThrough()
    ensures Unescape([0xEE, 0x41]).None? && HostUnescape([0xEE, 0x41]) == [0xEE, 0x41]
  {
    hide Replaced;
    NothingReplaced();
    StepTwo(0xEE, [0x41], 0xEE, 0xE0, [0x0A]);
    StepTwo(0x41, [], 0xEE, 0xE0, [0x0A]);
    StepTwo(0xEE, [0x41], 0xEE, 0xE1, [0xEE]);
    StepTwo(0x41, [], 0xEE, 0xE1, [0xEE]);
    assert [0xEE] + [0x41] == [0xEE, 0x41] && [0x41] + [] == [0x41];
  }

  // ---- Packets.

  method EncodePacket(payload: seq<Byte>) returns (packet: seq<Byte>)
    ensures packet == [0x0A] + MAGIC + Escape(payload) + [0x0A]
  {
    EscapesAlike(payload);
    var p := BufferReplace(payload, [0xEE], [0xEE, 0xE1]);
    p := BufferReplace(p, [0x0A], [0xEE, 0xE0]);
    packet := [0x0A] + MAGIC + p + [0x0A];
  }

  /** What stands between two delimiters; it is refused exactly when it does not begin with the magic. */
  method DecodePacket(packet: seq<Byte>) returns (r: Option<seq<Byte>>)
    ensures r.Some? <==> MAGIC <= packet
    ensures r.Some? ==> r.value == HostUnescape(packet[5..])
    ensures forall p :: packet == MAGIC + Escape(p) ==> r == Some(p)
  {
    forall p | packet == MAGIC + Escape(p) ensures HostUnescape(packet[5..]) == p && MAGIC <= packet {
      assert packet[5..] == Escape(p);
      BackOnBothSides(p);
    }
    if |packet| < 5 || packet[..5] != MAGIC { return None; }
    var p := BufferReplace(packet[5..], [0xEE, 0xE0], [0x0A]);
    p := BufferReplace(p, [0xEE, 0xE1], [0xEE]);
    return Some(p);
  }
}
