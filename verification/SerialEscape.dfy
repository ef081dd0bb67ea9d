/** Escaping of packet payloads on the serial line, in place: a packet must not contain its
    delimiter 0x0a. */
module SerialEscape {
  import opened Values

  const DELIMITER: Byte := 0x0A
  const ESCAPE: Byte := 0xEE

  function EscapeByte(b: Byte): (r: seq<Byte>)
    ensures 1 <= |r| <= 2
  {
    if IsSpecial(b) then [ESCAPE, Second(b)] else [b]
  }

  function Escape(p: seq<Byte>): seq<Byte> {
    if p == [] then [] else Escape(p[..|p| - 1]) + EscapeByte(p[|p| - 1])
  }

  /** How many bytes need escaping. */
  function Special(p: seq<Byte>): nat {
    if p == [] then 0 else Special(p[..|p| - 1]) + if IsSpecial(p[|p| - 1]) then 1 else 0
  }

  lemma {:induction false} EscapedLength(p: seq<Byte>)
    ensures |Escape(p)| == |p| + Special(p)
  {
    if p != [] { EscapedLength(p[..|p| - 1]); }
  }

  /** The delimiter does not occur in an escaped payload. */
  lemma {:induction false} NoDelimiter(p: seq<Byte>)
    ensures DELIMITER !in Escape(p)
  {
    if p != [] { NoDelimiter(p[..|p| - 1]); }
  }

  predicate IsSpecial(b: Byte) {
    b == DELIMITER || b == ESCAPE
  }

  function Second(b: Byte): Byte {
    if b == DELIMITER then 0xE0 else 0xE1
  }

  lemma EscapeNext(p: seq<Byte>, k: nat)
    requires k < |p|
    ensures Escape(p[..k + 1]) == Escape(p[..k]) + if IsSpecial(p[k]) then [ESCAPE, Second(p[k])] else [p[k]]
    ensures Special(p[..k + 1]) == Special(p[..k]) + if IsSpecial(p[k]) then 1 else 0
  {
    assert p[..k + 1][..k] == p[..k];
  }

  lemma {:induction false} SpecialMore(p: seq<Byte>, k: nat)
    requires k <= |p|
    ensures Special(p[..k]) <= Special(p)
    decreases |p| - k
  {
    if k < |p| {
      SpecialMore(p, k + 1);
      EscapeNext(p, k);
    } else {
      assert p[..k] == p;
    }
  }

  /** Copies `n` bytes within the buffer, whether or not the places overlap. */
  method MemMove(buf: array<Byte>, dst: nat, src: nat, n: nat)
    requires dst + n <= buf.Length && src + n <= buf.Length
    modifies buf
    ensures buf[dst..dst + n] == old(buf[src..src + n])
    ensures buf[..dst] == old(buf[..dst]) && buf[dst + n..] == old(buf[dst + n..])
  {
    var copy := buf[src..src + n];
    var i := 0;
    while i < n
      invariant 0 <= i <= n
      invariant forall x :: 0 <= x < buf.Length ==> buf[x] == if dst <= x < dst + i then copy[x - dst] else old(buf[x])
    {
      buf[dst + i] := copy[i];
      i := i + 1;
    }
  }

  /** Moves the rest of the payload up and writes an escape sequence in its place. */
  method Insert(buf: array<Byte>, i: nat, shifts: nat, payloadLen: nat, second: Byte, ghost payload: seq<Byte>)
    returns (ghost reach: nat)
    requires shifts <= i && i - shifts < payloadLen == |payload| && payloadLen + shifts + 1 < buf.Length
    requires buf[i..payloadLen + shifts] == payload[i - shifts..]
    modifies buf
    ensures buf[..i + 2] == old(buf[..i]) + [ESCAPE, second]
    ensures buf[i + 2..payloadLen + shifts + 1] == payload[i - shifts + 1..]
    ensures reach == payloadLen + shifts + 2
  {
    ghost var was, n := buf[..], payloadLen - (i - shifts);
    MemMove(buf, i + 2, i + 1, payloadLen - (i - shifts));
    reach := i + 2 + n;
    ghost var moved := buf[..];
    assert moved[i + 2..i + 2 + n] == was[i + 1..i + 1 + n] && moved[..i] == was[..i];
    buf[i], buf[i + 1] := ESCAPE, second;
    Shifted(was, moved, buf[..], payload, i, shifts, n, second);
    assert buf[..i + 2] == buf[..][..i + 2] && buf[i + 2..i + 1 + n] == buf[..][i + 2..i + 1 + n];
  }

  /** How far into the buffer escaping reaches: one past the highest place a move writes, or the
      payload itself when nothing is moved. A move takes one byte more than is left of the
      payload. */
  function Reach(payload: seq<Byte>, bufLen: nat): nat
    requires |payload| <= bufLen
  {
    var moves := if Special(payload) <= bufLen - |payload| then Special(payload) else bufLen - |payload|;
    if moves == 0 then |payload| else |payload| + moves + 1
  }

  /** `room` bytes are enough when there is one beyond `bufLen`, when no move is made because the
      payload fills `bufLen`, or when the escaped payload leaves a byte of `bufLen` over. */
  predicate Roomy(payload: seq<Byte>, bufLen: nat, room: nat) {
    bufLen < room || |payload| == bufLen || |Escape(payload)| < bufLen
  }

  /** Escaping stays inside the buffer exactly then. */
  lemma StaysInside(payload: seq<Byte>, bufLen: nat, room: nat)
    requires |payload| <= bufLen <= room
    ensures Reach(payload, bufLen) <= room <==> Roomy(payload, bufLen, room)
  {
    hide Escape, Special;
    EscapedLength(payload);
  }

  /** The next move stays inside. */
  lemma MoveInside(payload: seq<Byte>, bufLen: nat, room: nat, shifts: nat)
    requires Roomy(payload, bufLen, room) && bufLen <= room && |payload| + shifts + 1 <= bufLen
      && shifts < Special(payload)
    ensures |payload| + shifts + 1 < room
  {
    EscapedLength(payload);
  }

  lemma ReachIs(payload: seq<Byte>, bufLen: nat, moves: nat)
    requires |payload| + moves <= bufLen
      && (moves == Special(payload) || (moves < Special(payload) && |payload| + moves == bufLen))
    ensures Reach(payload, bufLen) == if moves == 0 then |payload| else |payload| + moves + 1
  {
  }

  /** A delimiter alone in a buffer of two bytes: the result fits, the move does not. */
  lemma OneByteOver()
    ensures |Escape([DELIMITER])| == 2 && Reach([DELIMITER], 2) == 3 && !Roomy([DELIMITER], 2, 2)
  {
    assert [DELIMITER][..0] == [];
    EscapedLength([DELIMITER]);
  }

  /** Escapes the payload in place. Nothing is returned when the escaped payload does not fit in
      `bufLen`. `reach` is how far the moves went. */
  method EscapePayload(buf: array<Byte>, bufLen: nat, payloadLen: nat) returns (n: nat, ghost reach: nat)
    requires payloadLen <= bufLen <= buf.Length && Roomy(buf[..payloadLen], bufLen, buf.Length)
    modifies buf
    ensures |Escape(old(buf[..payloadLen]))| <= bufLen ==>
      n == |Escape(old(buf[..payloadLen]))| && buf[..n] == Escape(old(buf[..payloadLen]))
    ensures |Escape(old(buf[..payloadLen]))| > bufLen ==> n == 0
    ensures reach == Reach(old(buf[..payloadLen]), bufLen)
  {
    hide Escape, Special, Roomy, Reach, IsSpecial, Second, Halfway;
    ghost var payload := buf[..payloadLen];
    EscapedLength(payload);
    var i, shifts := 0, 0;
    reach := payloadLen;
    NothingYet(buf[..], payload);
    while i < payloadLen + shifts
      invariant Halfway(buf[..], payload, i, shifts) && payloadLen + shifts <= bufLen
      invariant reach == if shifts == 0 then payloadLen else payloadLen + shifts + 1
      decreases payloadLen + shifts - i
    {
      var byte := buf[i];
      HalfwayAt(buf[..], payload, i, shifts);
      if IsSpecial(byte) {
        ShiftsAre(buf[..], payload, i, shifts);
        MoreSpecial(payload, i - shifts);
        if bufLen < payloadLen + shifts + 1 {
          ReachIs(payload, bufLen, shifts);
          n := 0;
          return;
        }
        MoveInside(payload, bufLen, buf.Length, shifts);
        ghost var was := buf[..];
        assert buf[i..payloadLen + shifts] == was[i..payloadLen + shifts];
        reach := Insert(buf, i, shifts, payloadLen, Second(byte), payload);
        assert buf[..][..i + 2] == buf[..i + 2]
          && buf[..][i + 2..payloadLen + shifts + 1] == buf[i + 2..payloadLen + shifts + 1];
        SpecialStep(was, buf[..], payload, i, shifts);
        i, shifts := i + 2, shifts + 1;
      } else {
        PlainStep(buf[..], payload, i, shifts);
        i := i + 1;
      }
    }
    AllDone(buf[..], payload, i, shifts);
    ReachIs(payload, bufLen, shifts);
    assert buf[..][..i] == buf[..i];
    n := i;
  }

  /** The first `i` bytes of `b` are escaped, with `shifts` bytes added; the rest of the payload
      follows. */
  ghost predicate Halfway(b: seq<Byte>, payload: seq<Byte>, i: nat, shifts: nat) {
    && shifts <= i <= |payload| + shifts <= |b| && shifts == Special(payload[..i - shifts])
    && b[..i] == Escape(payload[..i - shifts]) && b[i..|payload| + shifts] == payload[i - shifts..]
  }

  lemma NothingYet(b: seq<Byte>, payload: seq<Byte>)
    requires payload <= b
    ensures Halfway(b, payload, 0, 0)
  {
    Nothing();
    assert payload[..0] == [];
  }

  lemma HalfwayAt(b: seq<Byte>, payload: seq<Byte>, i: nat, shifts: nat)
    requires Halfway(b, payload, i, shifts) && i < |payload| + shifts
    ensures shifts <= i < |b| && b[i] == payload[i - shifts] && b[i..|payload| + shifts] == payload[i - shifts..]
  {
    hide Escape, Special;
    assert b[i] == b[i..|payload| + shifts][0];
  }

  lemma MoreSpecial(payload: seq<Byte>, k: nat)
    requires k < |payload| && IsSpecial(payload[k])
    ensures Special(payload[..k]) < Special(payload)
  {
    hide Escape, Special, IsSpecial;
    EscapeNext(payload, k);
    SpecialMore(payload, k + 1);
  }

  lemma ShiftsAre(b: seq<Byte>, payload: seq<Byte>, i: nat, shifts: nat)
    requires Halfway(b, payload, i, shifts)
    ensures shifts <= i <= |payload| + shifts <= |b| && shifts == Special(payload[..i - shifts])
  {
  }

  lemma PlainStep(b: seq<Byte>, payload: seq<Byte>, i: nat, shifts: nat)
    requires Halfway(b, payload, i, shifts) && i < |payload| + shifts && !IsSpecial(b[i])
    ensures Halfway(b, payload, i + 1, shifts)
  {
    hide Escape, Special, IsSpecial;
    HalfwayAt(b, payload, i, shifts);
    EscapeNext(payload, i - shifts);
    assert b[..i + 1] == b[..i] + [b[i]];
    assert b[i + 1..|payload| + shifts] == b[i..|payload| + shifts][1..];
  }

  lemma SpecialStep(was: seq<Byte>, b: seq<Byte>, payload: seq<Byte>, i: nat, shifts: nat)
    requires Halfway(was, payload, i, shifts) && i < |payload| + shifts && IsSpecial(was[i])
    requires |b| == |was| && |payload| + shifts + 1 <= |b| && b[..i + 2] == was[..i] + [ESCAPE, Second(was[i])]
    requires b[i + 2..|payload| + shifts + 1] == payload[i - shifts + 1..]
    ensures Halfway(b, payload, i + 2, shifts + 1)
  {
    hide Escape, Special, IsSpecial, Second;
    HalfwayAt(was, payload, i, shifts);
    EscapeNext(payload, i - shifts);
  }

  lemma AllDone(b: seq<Byte>, payload: seq<Byte>, i: nat, shifts: nat)
    requires Halfway(b, payload, i, shifts) && i >= |payload| + shifts
    ensures i == |payload| + shifts <= |b| && shifts == Special(payload) && b[..i] == Escape(payload)
  {
    assert payload[..i - shifts] == payload;
  }

  lemma Nothing()
    ensures Escape([]) == [] && Special([]) == 0
  {
  }

  /** After the move and the two writes: the escape sequence, then the rest one place further. */
  lemma Shifted(was: seq<Byte>, moved: seq<Byte>, now: seq<Byte>, payload: seq<Byte>, i: nat, shifts: nat, n: nat,
                second: Byte)
    requires |was| == |moved| && shifts <= i && n >= 1 && |payload| == i - shifts + n && i + 2 + n <= |was|
    requires was[i..i + n] == payload[i - shifts..]
    requires moved[i + 2..i + 2 + n] == was[i + 1..i + 1 + n] && moved[..i] == was[..i]
    requires now == moved[i := ESCAPE][i + 1 := second]
    ensures now[..i + 2] == was[..i] + [ESCAPE, second]
    ensures now[i + 2..i + 1 + n] == payload[i - shifts + 1..]
  {
    assert now[..i] == moved[..i];
    assert now[i + 2..i + 2 + n] == moved[i + 2..i + 2 + n];
    assert now[i + 2..i + 1 + n] == now[i + 2..i + 2 + n][..n - 1];
    assert was[i + 1..i + 1 + n][..n - 1] == was[i..i + n][1..];
  }

  // ---- Unescaping.

  function Unescape(e: seq<Byte>): Option<seq<Byte>>
    decreases |e|
  {
    if e == [] then Some([])
    else if e[0] == ESCAPE && |e| > 1 then
      if e[1] != 0xE0 && e[1] != 0xE1 then None
      else
        match Unescape(e[2..])
        case None => None
        case Some(r) => Some([if e[1] == 0xE0 then DELIMITER else ESCAPE] + r)
    else
      match Unescape(e[1..])
      case None => None
      case Some(r) => Some([e[0]] + r)
  }

  /** Unescaping an escaped byte and more. */
  lemma UnescapeFirst(b: Byte, rest: seq<Byte>)
    ensures Unescape(EscapeByte(b) + rest) == match Unescape(rest) case None => None case Some(r) => Some([b] + r)
  {
    var e := EscapeByte(b) + rest;
    if |EscapeByte(b)| == 2 { assert e[2..] == rest; } else { assert e[1..] == rest; }
  }

  lemma {:induction false} UnescapePrefix(p: seq<Byte>, rest: seq<Byte>)
    ensures Unescape(Escape(p) + rest) == match Unescape(rest) case None => None case Some(r) => Some(p + r)
    decreases p
  {
    hide Unescape, EscapeByte;
    if p == [] {
      assert Escape(p) + rest == rest;
      if Unescape(rest).Some? { assert p + Unescape(rest).value == Unescape(rest).value; }
    } else {
      var n := |p| - 1;
      UnescapePrefix(p[..n], EscapeByte(p[n]) + rest);
      assert Escape(p) + rest == Escape(p[..n]) + (EscapeByte(p[n]) + rest);
      UnescapeFirst(p[n], rest);
      if Unescape(rest).Some? { assert p[..n] + ([p[n]] + Unescape(rest).value) == p + Unescape(rest).value; }
    }
  }

  /** Unescaping undoes escaping. */
  lemma RoundTrip(p: seq<Byte>)
    ensures Unescape(Escape(p)) == Some(p)
  {
    UnescapePrefix(p, []);
    assert Escape(p) + [] == Escape(p) && p + [] == p;
  }

  /** What is left to do after the bytes written so far. */
  ghost function Joined(head: seq<Byte>, rest: Option<seq<Byte>>): Option<seq<Byte>> {
    match rest case None => None case Some(r) => Some(head + r)
  }

  lemma UnescapeStep(e: seq<Byte>, i: nat, head: seq<Byte>)
    requires i <= |e|
    ensures i == |e| ==> Joined(head, Unescape(e[i..])) == Some(head)
    ensures i + 1 < |e| && e[i] == ESCAPE && e[i + 1] != 0xE0 && e[i + 1] != 0xE1 ==> Unescape(e[i..]) == None
    ensures i + 1 < |e| && e[i] == ESCAPE && (e[i + 1] == 0xE0 || e[i + 1] == 0xE1) ==>
      Joined(head, Unescape(e[i..]))
        == Joined(head + [if e[i + 1] == 0xE0 then DELIMITER else ESCAPE], Unescape(e[i + 2..]))
    ensures i < |e| && !(i + 1 < |e| && e[i] == ESCAPE) ==>
      Joined(head, Unescape(e[i..])) == Joined(head + [e[i]], Unescape(e[i + 1..]))
  {
    if i == |e| {
      assert head + [] == head;
    } else if i + 1 < |e| && e[i] == ESCAPE {
      assert e[i..][2..] == e[i + 2..] && e[i..][1] == e[i + 1];
      Grouped(head, if e[i + 1] == 0xE0 then DELIMITER else ESCAPE, Unescape(e[i + 2..]));
    } else {
      assert e[i..][1..] == e[i + 1..];
      Grouped(head, e[i], Unescape(e[i + 1..]));
    }
  }

  lemma Grouped(head: seq<Byte>, b: Byte, rest: Option<seq<Byte>>)
    ensures Joined(head, Joined([b], rest)) == Joined(head + [b], rest)
  {
    if rest.Some? { assert head + ([b] + rest.value) == (head + [b]) + rest.value; }
  }

  /** Unescapes in place; an unknown escape sequence is refused. */
  method UnescapePayload(buf: array<Byte>, escapedLen: nat) returns (ok: bool, n: nat)
    requires escapedLen <= buf.Length
    modifies buf
    ensures ok <==> Unescape(old(buf[..escapedLen])).Some?
    ensures ok ==> n <= escapedLen && buf[..n] == Unescape(old(buf[..escapedLen])).value
  {
    hide Unescape;
    ghost var e := buf[..escapedLen];
    var w, r := 0, 0;
    assert e[0..] == e;
    Starts(Unescape(e));
    while r < escapedLen
      invariant 0 <= w <= r <= escapedLen && buf[r..escapedLen] == e[r..]
      invariant Joined(buf[..w], Unescape(e[r..])) == Unescape(e)
      decreases escapedLen - r
    {
      assert buf[r] == buf[r..escapedLen][0] == e[r];
      assert r + 1 < escapedLen ==> buf[r + 1] == buf[r..escapedLen][1] == e[r + 1];
      UnescapeStep(e, r, buf[..w]);
      ghost var head := buf[..w];
      if buf[r] == ESCAPE && r + 1 < escapedLen {
        if buf[r + 1] != 0xE0 && buf[r + 1] != 0xE1 { return false, 0; }
        buf[w] := if buf[r + 1] == 0xE0 then DELIMITER else ESCAPE;
        assert buf[..w + 1] == head + [if e[r + 1] == 0xE0 then DELIMITER else ESCAPE];
        assert buf[r + 2..escapedLen] == e[r + 2..];
        r := r + 2;
      } else {
        buf[w] := buf[r];
        assert buf[..w + 1] == head + [e[r]];
        assert buf[r + 1..escapedLen] == e[r + 1..];
        r := r + 1;
      }
      w := w + 1;
    }
    UnescapeStep(e, r, buf[..w]);
    return true, w;
  }

  lemma Starts(r: Option<seq<Byte>>)
    ensures Joined([], r) == r
  {
    if r.Some? { assert [] + r.value == r.value; }
  }
}
