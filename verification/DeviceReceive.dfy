/** How the device reads what the server sends: commands are handed to a callback one after another, an update
    ends the reading. */
module DeviceReceive {
  import opened Values
  import opened Telemata

  const UPDATE_KIND: Byte := 0x0A
  const COMMAND_KIND: Byte := 0x0B
  const STRING_TYPE: Byte := 0x01

  /** What came of a payload: the calls made, the version of an update, and the value returned; or the device
      looked past the end of memory. */
  datatype Outcome = Outcome(calls: seq<(Bytes, Bytes)>, update: Option<nat>, status: int) | Outside

  /** A string as the callback sees it: up to the first zero. */
  function CString(s: Bytes): Bytes {
    if s == [] || s[0] == 0 then [] else [s[0]] + CString(s[1..])
  }

  /** The digits of a number that does not end. */
  function Sum7(buf: Bytes): nat {
    if buf == [] then 0 else buf[0] as nat % 128 + 128 * Sum7(buf[1..])
  }

  // ---- What the device does with any bytes.

  /** A command whose data of length `len` starts at `p`: its call, if it makes one. `rem` bytes are counted as
      left. */
  function CallOf(mem: Bytes, p: nat, rem: nat, len: nat): (r: Option<seq<(Bytes, Bytes)>>) {
    var window := Slice(mem, p + 1, p + rem);
    var v := ParseVar(window);
    if v.None? && p + rem > |mem| then None
    else
      var keyLen := if v.Some? then v.value.0 else Sum7(window);
      var keyAt := if v.Some? then p + 1 + v.value.1 else p;
      if keyAt + keyLen > p + len || len > rem then Some([])
      else if p + len > |mem| || p >= |mem| then None
      else if mem[p] != STRING_TYPE then Some([])
      else Some([(CString(mem[keyAt..keyAt + keyLen]), CString(mem[keyAt + keyLen..p + len]))])
  }

  function Loop(mem: Bytes, at: nat, remaining: int, calls: seq<(Bytes, Bytes)>): Outcome
    decreases remaining
  {
    if remaining <= 2 then Outcome(calls, None, 0)
    else if at >= |mem| then Outside
    else
      match ParseVar(Slice(mem, at + 1, at + remaining))
      case None => if at + remaining <= |mem| then Outcome(calls, None, -1) else Outside
      case Some(v) =>
        var p, rem, len := at + 1 + v.1, remaining - 1 - v.1, v.0;
        if mem[at] == COMMAND_KIND then
          match CallOf(mem, p, rem, len)
          case None => Outside
          case Some(call) => Loop(mem, p + len, rem - len, calls + call)
        else if mem[at] == UPDATE_KIND && len >= 5 then
          (if p + 5 <= |mem| then Outcome(calls, Some(Big32(mem[p..p + 5])), 1) else Outside)
        else Loop(mem, p + len, rem - len, calls)
  }

  lemma LoopStep(mem: Bytes, at: nat, remaining: int, calls: seq<(Bytes, Bytes)>)
    requires remaining > 2 && at < |mem|
    ensures Loop(mem, at, remaining, calls) ==
      match ParseVar(Slice(mem, at + 1, at + remaining))
      case None => (if at + remaining <= |mem| then Outcome(calls, None, -1) else Outside)
      case Some(v) =>
        var p, rem, len := at + 1 + v.1, remaining - 1 - v.1, v.0;
        if mem[at] == COMMAND_KIND then
          match CallOf(mem, p, rem, len)
          case None => Outside
          case Some(call) => Loop(mem, p + len, rem - len, calls + call)
        else if mem[at] == UPDATE_KIND && len >= 5 then
          (if p + 5 <= |mem| then Outcome(calls, Some(Big32(mem[p..p + 5])), 1) else Outside)
        else Loop(mem, p + len, rem - len, calls)
  {
    hide ParseVar, CallOf, Big32;
  }

  lemma LoopEnds(mem: Bytes, at: nat, remaining: int, calls: seq<(Bytes, Bytes)>)
    ensures remaining <= 2 ==> Loop(mem, at, remaining, calls) == Outcome(calls, None, 0)
    ensures remaining > 2 && at >= |mem| ==> Loop(mem, at, remaining, calls) == Outside
  {
  }

  /** The payload is the first `n` bytes of memory. */
  function Received(mem: Bytes, n: nat): Outcome
    requires n <= |mem|
  {
    if n < 2 || mem[0] / 16 != 1 then Outcome([], None, -1)
    else
      match ParseVar(mem[1..n])
      case None => Outcome([], None, -1)
      case Some(v) => Loop(mem, 1 + v.1, n, [])
  }

  // ---- The device's loops.

  /** The number at the start, or -1 and what its digits make so far. */
  method ParseVariable(buf: Bytes) returns (length: nat, used: int)
    ensures ParseVar(buf).Some? ==> ParseVar(buf).value == (length, used)
    ensures ParseVar(buf).None? ==> used == -1 && length == Sum7(buf)
  {
    hide ParseVar, Sum7;
    length := 0;
    var base: nat, i := 1, 0;
    assert buf[0..] == buf;
    while i < |buf|
      invariant i <= |buf| && ParseVar(buf) == Shifted(length, base, i, ParseVar(buf[i..]))
      invariant Sum7(buf) == length + base * Sum7(buf[i..])
    {
      NextDigit(buf, i, length, base);
      NextSum(buf, i, base);
      length := length + buf[i] as nat % 128 * base;
      if buf[i] < 128 { return length, i + 1; }
      base := base * 128;
      i := i + 1;
    }
    NoDigits();
    assert buf[i..] == [];
    assert Sum7([]) == 0 by { NoSum(); }
    used := -1;
  }

  lemma NoSum()
    ensures Sum7([]) == 0
  {
  }

  lemma NextSum(buf: Bytes, i: nat, base: nat)
    requires i < |buf|
    ensures base * Sum7(buf[i..]) == buf[i] as nat % 128 * base + base * 128 * Sum7(buf[i + 1..])
  {
    assert buf[i..][1..] == buf[i + 1..];
    MoreDigits(base, buf[i] as nat % 128, Sum7(buf[i + 1..]));
  }

  method Command(mem: Bytes, p: nat, rem: nat, len: nat) returns (r: Option<seq<(Bytes, Bytes)>>)
    ensures r == CallOf(mem, p, rem, len)
  {
    hide ParseVar, Sum7, CString;
    var window := Slice(mem, p + 1, p + rem);
    var keyLen, used := ParseVariable(window);
    if used < 0 && p + rem > |mem| { return None; }
    var valueLen := len - used - keyLen - 1;
    if valueLen < 0 || 1 + used + keyLen + valueLen > rem { return Some([]); }
    if p + len > |mem| || p >= |mem| { return None; }
    if mem[p] != STRING_TYPE { return Some([]); }
    var keyAt := p + 1 + used;
    return Some([(CString(mem[keyAt..keyAt + keyLen]), CString(mem[keyAt + keyLen..p + len]))]);
  }

  method ReceivePayload(mem: Bytes, n: nat) returns (r: Outcome)
    requires n <= |mem|
    ensures r == Received(mem, n)
  {
    hide ParseVar, CallOf, Loop, Big32;
    if n < 2 || mem[0] / 16 != 1 { return Outcome([], None, -1); }
    var total, used := ParseVariable(mem[1..n]);
    if used < 0 { return Outcome([], None, -1); }
    var at: nat, remaining: int, calls := 1 + used, n, [];
    while remaining > 2
      invariant Loop(mem, at, remaining, calls) == Received(mem, n)
      decreases remaining
    {
      LoopEnds(mem, at, remaining, calls);
      if at >= |mem| { return Outside; }
      LoopStep(mem, at, remaining, calls);
      var len, k := ParseVariable(Slice(mem, at + 1, at + remaining));
      if k < 0 {
        return if at + remaining <= |mem| then Outcome(calls, None, -1) else Outside;
      }
      var kind, p, rem := mem[at], at + 1 + k, remaining - 1 - k;
      if kind == COMMAND_KIND {
        var call := Command(mem, p, rem, len);
        if call.None? { return Outside; }
        calls := calls + call.value;
      } else if kind == UPDATE_KIND && len >= 5 {
        if p + 5 > |mem| { return Outside; }
        return Outcome(calls, Some(Big32(mem[p..p + 5])), 1);
      }
      at, remaining := p + len, rem - len;
    }
    LoopEnds(mem, at, remaining, calls);
    r := Outcome(calls, None, 0);
  }

  // ---- What the server sends.

  /** The calls that commands make, in order. */
  ghost function CallsOf(commands: seq<(Bytes, Bytes)>): seq<(Bytes, Bytes)> {
    if commands == [] then []
    else
      CallsOf(commands[..|commands| - 1])
      + [(CString(commands[|commands| - 1].0), CString(commands[|commands| - 1].1))]
  }

  /** A message that stands at `at` is taken as a whole. */
  lemma MessageTaken(mem: Bytes, at: nat, remaining: int, kind: Byte, data: Bytes)
    requires at + |Message(kind, data)| <= |mem| && |Message(kind, data)| <= remaining
    requires mem[at..at + |Message(kind, data)|] == Message(kind, data)
    ensures at < |mem| && mem[at] == kind
    ensures ParseVar(Slice(mem, at + 1, at + remaining)) == Some((|data|, |VarLen(|data|)|))
    ensures var p := at + 1 + |VarLen(|data|)|; p + |data| <= |mem| && mem[p..p + |data|] == data
    ensures |Message(kind, data)| == 1 + |VarLen(|data|)| + |data|
  {
    hide VarLen, ParseVar;
    MessageParts(mem, at, kind, data);
    var hi := if at + remaining < |mem| then at + remaining else |mem|;
    var stop := at + |Message(kind, data)|;
    var len := VarLen(|data|);
    assert Slice(mem, at + 1, at + remaining) == mem[at + 1..hi];
    assert mem[at + 1..hi] == mem[at + 1..][..hi - at - 1] == len + (data + mem[stop..hi]);
    VarLenBack(|data|, data + mem[stop..hi]);
  }

  /** Where the parts of a command stand. */
  lemma CommandParts(mem: Bytes, p: nat, hi: nat, key: Bytes, value: Bytes)
    requires var data := CommandData(key, value);
      p + |data| <= hi <= |mem| && mem[p..p + |data|] == data
    ensures var len, stop := VarLen(|key|), p + |CommandData(key, value)|;
      && stop == p + 1 + |len| + |key| + |value| && mem[p] == STRING_TYPE
      && mem[p + 1..hi] == len + (key + value + mem[stop..hi])
      && mem[p + 1 + |len|..p + 1 + |len| + |key|] == key && mem[p + 1 + |len| + |key|..stop] == value
  {
    hide VarLen, CommandData;
    var data, len := CommandData(key, value), VarLen(|key|);
    var stop, k := p + |data|, 1 + |len|;
    DataParts(key, value);
    Within(mem, p, stop, 1, |data|);
    Within(mem, p, stop, k, k + |key|);
    Within(mem, p, stop, k + |key|, |data|);
    assert mem[p] == mem[p..stop][0];
    assert mem[p + 1..hi] == mem[p + 1..stop] + mem[stop..hi];
    Joined3(len, key + value, mem[stop..hi]);
  }

  lemma Joined3(a: Bytes, b: Bytes, c: Bytes)
    ensures (a + b) + c == a + (b + c)
  {
  }

  lemma Within(mem: Bytes, p: nat, stop: nat, a: nat, b: nat)
    requires a <= b && p + b <= stop <= |mem|
    ensures mem[p + a..p + b] == mem[p..stop][a..b]
  {
    var s := mem[p..stop];
    assert forall i :: 0 <= i < b - a ==> mem[p + a..p + b][i] == s[a..b][i];
  }

  lemma DataParts(key: Bytes, value: Bytes)
    ensures var data, k := CommandData(key, value), 1 + |VarLen(|key|)|;
      && |data| == k + |key| + |value| && data[0] == STRING_TYPE && data[1..|data|] == VarLen(|key|) + (key + value)
      && data[k..k + |key|] == key && data[k + |key|..|data|] == value
  {
    hide VarLen;
    var data, k := CommandData(key, value), 1 + |VarLen(|key|)|;
    assert data == [STRING_TYPE] + VarLen(|key|) + key + value;
    assert data[1..|data|] == VarLen(|key|) + (key + value);
    assert data[k..k + |key|] == key && data[k + |key|..|data|] == value;
  }

  /** A command's call is its key and its value. */
  lemma CommandCalled(mem: Bytes, p: nat, rem: nat, key: Bytes, value: Bytes)
    requires var data := CommandData(key, value); |data| <= rem && p + |data| <= |mem| && mem[p..p + |data|] == data
    ensures CallOf(mem, p, rem, |CommandData(key, value)|) == Some([(CString(key), CString(value))])
  {
    hide VarLen, ParseVar, CString, Sum7, CommandData;
    var hi := if p + rem < |mem| then p + rem else |mem|;
    CommandParts(mem, p, hi, key, value);
    var stop := p + |CommandData(key, value)|;
    VarLenBack(|key|, key + value + mem[stop..hi]);
  }

  /** The commands are called one after another. */
  lemma {:induction false} CommandsCalled(mem: Bytes, start: nat, remaining: int, commands: seq<(Bytes, Bytes)>,
                                          i: nat)
    requires i <= |commands| && start + |CommandsBytes(commands[..i])| <= |mem|
    requires |CommandsBytes(commands[..i])| + 2 <= remaining
    requires mem[start..start + |CommandsBytes(commands[..i])|] == CommandsBytes(commands[..i])
    ensures var b := |CommandsBytes(commands[..i])|;
      Loop(mem, start, remaining, []) == Loop(mem, start + b, remaining - b, CallsOf(commands[..i]))
    decreases i
  {
    hide VarLen, ParseVar, Message, Loop, CallOf, CString;
    if i > 0 {
      var prev, all, c := CommandsBytes(commands[..i - 1]), CommandsBytes(commands[..i]), commands[i - 1];
      assert commands[..i][..i - 1] == commands[..i - 1] && commands[..i][i - 1] == c;
      var data := CommandData(c.0, c.1);
      var msg := Message(COMMAND_MSG, data);
      assert all == prev + msg;
      var at := start + |prev|;
      assert mem[start..at] == mem[start..start + |all|][..|prev|] == prev;
      assert mem[at..at + |msg|] == mem[start..start + |all|][|prev|..] == msg;
      CommandsCalled(mem, start, remaining, commands, i - 1);
      CommandStep(mem, at, remaining - |prev|, c, CallsOf(commands[..i - 1]));
    }
  }

  lemma CommandStep(mem: Bytes, at: nat, remaining: int, c: (Bytes, Bytes), calls: seq<(Bytes, Bytes)>)
    requires var msg := Message(COMMAND_MSG, CommandData(c.0, c.1));
      at + |msg| <= |mem| && |msg| + 2 <= remaining && mem[at..at + |msg|] == msg
    ensures var msg := Message(COMMAND_MSG, CommandData(c.0, c.1));
      Loop(mem, at, remaining, calls)
        == Loop(mem, at + |msg|, remaining - |msg|, calls + [(CString(c.0), CString(c.1))])
  {
    hide VarLen, ParseVar, CallOf, CString, Slice;
    var data := CommandData(c.0, c.1);
    MessageTaken(mem, at, remaining, COMMAND_MSG, data);
    CommandCalled(mem, at + 1 + |VarLen(|data|)|, remaining - 1 - |VarLen(|data|)|, c.0, c.1);
  }

  lemma UpdateTaken(mem: Bytes, at: nat, remaining: int, version: nat, calls: seq<(Bytes, Bytes)>)
    requires version < 0x1_0000_0000
    requires var msg := Message(UPDATE_MSG, UpdateData(version));
      at + |msg| <= |mem| && |msg| + 2 <= remaining && mem[at..at + |msg|] == msg
    ensures Loop(mem, at, remaining, calls) == Outcome(calls, Some(version), 1)
  {
    hide VarLen, ParseVar, CallOf, Slice, UpdateData, Big32;
    UpdateLong(version);
    MessageTaken(mem, at, remaining, UPDATE_MSG, UpdateData(version));
    Big32Back(version);
  }

  lemma UpdateLong(version: nat)
    requires version < 0x1_0000_0000
    ensures |UpdateData(version)| == 5
  {
  }

  /** What the device makes of a payload from the server, whatever lies behind it in memory: the commands, as
      strings that end at a zero, in order, and the update. Without an update it then goes on where the payload
      ends, with as many bytes counted as left as the header took. */
  lemma DeviceObeys(commands: seq<(Bytes, Bytes)>, update: Option<nat>, beyond: Bytes)
    requires update.Some? ==> update.value < 0x1_0000_0000
    ensures
      var sent := Serialized(commands, update);
      var header := |sent| - |CommandsBytes(commands) + UpdateBytes(update)|;
      Received(sent + beyond, |sent|) ==
        if update.Some? then Outcome(CallsOf(commands), update, 1)
        else Loop(sent + beyond, |sent|, header, CallsOf(commands))
  {
    hide VarLen, ParseVar, Loop, CString, CallsOf;
    var sent := Serialized(commands, update);
    var mem := sent + beyond;
    var cs, us := CommandsBytes(commands), UpdateBytes(update);
    var len := VarLen(|cs + us|);
    assert sent == [16] + len + (cs + us);
    assert mem[1..|sent|] == len + (cs + us);
    VarLenBack(|cs + us|, cs + us);
    var start := 1 + |len|;
    assert commands[..|commands|] == commands;
    assert mem[start..start + |cs|] == cs;
    CommandsCalled(mem, start, |sent|, commands, |commands|);
    var at := start + |cs|;
    if update.Some? {
      assert mem[at..at + |us|] == us;
      UpdateTaken(mem, at, |sent| - |cs|, update.value, CallsOf(commands));
    }
  }

  lemma HeaderLong(n: nat)
    ensures |VarLen(n)| == 1 <==> n < 128
  {
  }

  /** The device stops at the end of a payload without an update exactly when its messages take fewer than 128
      bytes; with longer ones it looks at the byte behind it. */
  lemma StopsAtEnd(commands: seq<(Bytes, Bytes)>, beyond: Bytes)
    ensures
      var sent := Serialized(commands, None);
      && (|CommandsBytes(commands)| < 128 ==> Received(sent + beyond, |sent|) == Outcome(CallsOf(commands), None, 0))
      && (Received(sent + [], |sent|) == Outside <==> |CommandsBytes(commands)| >= 128)
  {
    hide VarLen, Loop, CallsOf, Received;
    var sent := Serialized(commands, None);
    var header := |sent| - |CommandsBytes(commands)|;
    assert CommandsBytes(commands) + UpdateBytes(None) == CommandsBytes(commands);
    HeaderLong(|CommandsBytes(commands)|);
    DeviceObeys(commands, None, beyond);
    DeviceObeys(commands, None, []);
    LoopEnds(sent + beyond, |sent|, header, CallsOf(commands));
    LoopEnds(sent + [], |sent|, header, CallsOf(commands));
  }
}
