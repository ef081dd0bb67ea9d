/** The device protocol's messages: variable-length integers, typed messages, and the command
    map and update version they carry. */
module Telemata {
  import opened Values

  type Bytes = seq<Byte>

  datatype Result<T> = Ok(value: T) | Err

  const VERSION: nat := 1
  const DEVICE_NAME_MSG: Byte := 0x01
  const LOG_MSG: Byte := 0x02
  const DEVICE_STATE_MSG: Byte := 0x03
  const UPDATE_MSG: Byte := 0x0A
  const COMMAND_MSG: Byte := 0x0B
  const DEVICE_TYPE_ESP32: Byte := 1

  /** The name __proto__. */
  const PROTO: Bytes := [95, 95, 112, 114, 111, 116, 111, 95, 95]

  // ---- Variable-length integers.

  /** Seven bits at a time, the lowest first; the top bit says that more follow. */
  function VarLen(n: nat): (r: Bytes)
    ensures |r| >= 1
  {
    if n < 128 then [n] else [128 + n % 128] + VarLen(n / 128)
  }

  /** The integer at the start of `buf` and how many bytes it takes. */
  function ParseVar(buf: Bytes): (r: Option<(nat, nat)>)
    ensures r.Some? ==> 1 <= r.value.1 <= |buf|
  {
    if buf == [] then None
    else if buf[0] < 128 then Some((buf[0] as nat, 1))
    else
      match ParseVar(buf[1..])
      case None => None
      case Some(v) => Some((buf[0] as nat % 128 + 128 * v.0, v.1 + 1))
  }

  /** Every integer is read back, whatever follows it. */
  lemma {:induction false} VarLenBack(n: nat, rest: Bytes)
    ensures ParseVar(VarLen(n) + rest) == Some((n, |VarLen(n)|))
  {
    if n >= 128 {
      VarLenBack(n / 128, rest);
      assert (VarLen(n) + rest)[1..] == VarLen(n / 128) + rest;
    }
  }

  method GenerateVariableLength(length: nat) returns (lenbuf: Bytes)
    ensures lenbuf == VarLen(length)
  {
    var len := length;
    lenbuf := [];
    while len > 0
      invariant if len > 0 then lenbuf + VarLen(len) == VarLen(length)
                else (lenbuf == [] && length == 0) || lenbuf == VarLen(length)
    {
      var digit := len % 128;
      len := len / 128;
      lenbuf := lenbuf + [if len > 0 then 128 + digit else digit];
    }
    if lenbuf == [] { lenbuf := [0]; }
  }

  /** What the digits read so far and the rest make together. */
  ghost function Shifted(length: nat, base: nat, i: nat, rest: Option<(nat, nat)>): Option<(nat, nat)> {
    match rest case None => None case Some(v) => Some((length + base * v.0, i + v.1))
  }

  lemma NextDigit(buf: Bytes, i: nat, length: nat, base: nat)
    requires i < |buf|
    ensures buf[i] < 128 ==>
      Shifted(length, base, i, ParseVar(buf[i..])) == Some((length + buf[i] as nat * base, i + 1))
    ensures buf[i] >= 128 ==>
      Shifted(length, base, i, ParseVar(buf[i..]))
        == Shifted(length + buf[i] as nat % 128 * base, base * 128, i + 1, ParseVar(buf[i + 1..]))
  {
    var digit := buf[i] as nat % 128;
    assert buf[i..][1..] == buf[i + 1..] && buf[i..][0] == buf[i];
    var rest := ParseVar(buf[i + 1..]);
    if rest.Some? { MoreDigits(base, digit, rest.value.0); }
  }

  method ParseVariableLength(buf: Bytes) returns (r: Option<(nat, nat)>)
    ensures r == ParseVar(buf)
  {
    hide ParseVar;
    var length: nat, i: nat, base: nat := 0, 0, 1;
    assert buf[0..] == buf;
    while true
      invariant i <= |buf| && ParseVar(buf) == Shifted(length, base, i, ParseVar(buf[i..]))
      decreases |buf| - i
    {
      if i == |buf| {
        NoDigits();
        return None;
      }
      NextDigit(buf, i, length, base);
      var byte: nat := buf[i];
      length := length + byte % 128 * base;
      if byte < 128 { return Some((length, i + 1)); }
      i := i + 1;
      base := base * 128;
    }
  }

  lemma NoDigits()
    ensures ParseVar([]) == None
  {
  }

  lemma MoreDigits(base: nat, digit: nat, v: nat)
    ensures base * (digit + 128 * v) == digit * base + base * 128 * v
  {
  }

  // ---- Messages.

  function Message(kind: Byte, payload: Bytes): Bytes {
    [kind] + VarLen(|payload|) + payload
  }

  function CommandData(key: Bytes, value: Bytes): Bytes {
    [1] + VarLen(|key|) + key + value
  }

  function CommandsBytes(commands: seq<(Bytes, Bytes)>): Bytes {
    if commands == [] then []
    else
      CommandsBytes(commands[..|commands| - 1])
      + Message(COMMAND_MSG, CommandData(commands[|commands| - 1].0, commands[|commands| - 1].1))
  }

  function UpdateData(version: nat): Bytes
    requires version < 0x1_0000_0000
  {
    [2, version / 0x100_0000, version / 0x1_0000 % 256, version / 256 % 256, version % 256]
  }

  function UpdateBytes(update: Option<nat>): Bytes
    requires update.Some? ==> update.value < 0x1_0000_0000
  {
    if update.None? then [] else Message(UPDATE_MSG, UpdateData(update.value))
  }

  /** The header and all messages: commands in order, then the update. */
  function Serialized(commands: seq<(Bytes, Bytes)>, update: Option<nat>): Bytes
    requires update.Some? ==> update.value < 0x1_0000_0000
  {
    var payload := CommandsBytes(commands) + UpdateBytes(update);
    [VERSION * 16] + VarLen(|payload|) + payload
  }

  method Serialize(commands: seq<(Bytes, Bytes)>, update: Option<nat>) returns (r: Bytes)
    requires update.Some? ==> update.value < 0x1_0000_0000
    ensures r == Serialized(commands, update)
  {
    hide VarLen;
    var payload: Bytes := [];
    var i := 0;
    while i < |commands|
      invariant 0 <= i <= |commands| && payload == CommandsBytes(commands[..i])
    {
      var keyLength := GenerateVariableLength(|commands[i].0|);
      var data := [1] + keyLength + commands[i].0 + commands[i].1;
      var length := GenerateVariableLength(|data|);
      payload := payload + ([COMMAND_MSG] + length + data);
      assert commands[..i + 1][..i] == commands[..i];
      i := i + 1;
    }
    assert commands[..i] == commands;
    if update.Some? {
      var data := UpdateData(update.value);
      var length := GenerateVariableLength(|data|);
      payload := payload + ([UPDATE_MSG] + length + data);
    }
    var total := GenerateVariableLength(|payload|);
    r := [VERSION * 16] + total + payload;
  }

  // ---- Reading.

  /** What a device reports; there is no battery when the fourth byte says so. */
  datatype DeviceState = DeviceState(booted: bool, board: Board, battery: Option<Byte>, version: nat, ramFree: nat)

  datatype Board = Esp32

  datatype Messages = Messages(commands: map<Bytes, Bytes>, update: Option<nat>,
                               name: Option<Bytes>, log: Option<Bytes>, state: Option<DeviceState>)

  /** A slice that stops at the end of the buffer. */
  function Slice(p: Bytes, a: nat, b: nat): Bytes {
    var hi := if b < |p| then b else |p|;
    if a <= hi then p[a..hi] else []
  }

  function From(p: Bytes, a: nat): Bytes {
    Slice(p, a, |p|)
  }

  function Big32(d: Bytes): nat
    requires |d| >= 5
  {
    d[1] as nat * 0x100_0000 + d[2] as nat * 0x1_0000 + d[3] as nat * 256 + d[4] as nat
  }

  function Little32(d: Bytes, at: nat): nat
    requires at + 4 <= |d|
  {
    d[at] as nat + d[at + 1] as nat * 256 + d[at + 2] as nat * 0x1_0000 + d[at + 3] as nat * 0x100_0000
  }

  function BoardOf(deviceType: Byte): Option<Board> {
    if deviceType == DEVICE_TYPE_ESP32 then Some(Esp32) else None
  }

  /** A state that is too short or names an unknown board is refused. */
  function StateOf(d: Bytes): Option<DeviceState> {
    if |d| < 12 || BoardOf(d[1]).None? then None
    else
      var battery := if d[3] > 0xF0 then None else Some(d[2]);
      Some(DeviceState(d[0] == 1, BoardOf(d[1]).value, battery, Little32(d, 4), Little32(d, 8)))
  }

  /** Sets a property of a plain object to a string. One name is not kept: to set the prototype to a
      string has no effect. */
  function Assign(m: map<Bytes, Bytes>, key: Bytes, value: Bytes): map<Bytes, Bytes> {
    if key == PROTO then m else m[key := value]
  }

  /** One message of type `kind`, whose data of length `length` starts at `at`. */
  function Handle(p: Bytes, kind: Byte, at: nat, length: nat, m: Messages): Result<Messages> {
    var data := Slice(p, at, at + length);
    if kind == COMMAND_MSG then
      match ParseVar(From(p, at + 1))
      case None => Err
      case Some(v) =>
        var keyAt := at + 1 + v.1;
        var valueAt := keyAt + v.0;
        Ok(m.(commands := Assign(m.commands, Slice(p, keyAt, valueAt), Slice(p, valueAt, at + length))))
    else if kind == DEVICE_STATE_MSG then
      (if StateOf(data).None? then Err else Ok(m.(state := StateOf(data))))
    else if kind == DEVICE_NAME_MSG then Ok(m.(name := Some(data)))
    else if kind == LOG_MSG then Ok(m.(log := Some(data)))
    else if kind == UPDATE_MSG then (if |data| < 5 then Err else Ok(m.(update := Some(Big32(data)))))
    else Ok(m)
  }

  function ParseMessages(p: Bytes, offset: nat, end: nat, m: Messages): Result<Messages>
    decreases end - offset
  {
    if offset >= end then Ok(m)
    else if offset >= |p| then Err
    else
      match ParseVar(From(p, offset + 1))
      case None => Err
      case Some(v) =>
        match Handle(p, p[offset], offset + 1 + v.1, v.0, m)
        case Err => Err
        case Ok(m') => ParseMessages(p, offset + 1 + v.1 + v.0, end, m')
  }

  function Parsed(p: Bytes): Result<Messages> {
    if p == [] || p[0] / 16 != VERSION then Err
    else
      match ParseVar(From(p, 1))
      case None => Err
      case Some(v) => ParseMessages(p, 1 + v.1, 1 + v.1 + v.0, Messages(map[], None, None, None, None))
  }

  method Deserialize(p: Bytes) returns (r: Result<Messages>)
    ensures r == Parsed(p)
  {
    hide ParseVar, Handle, From;
    if p == [] || p[0] / 16 != VERSION { return Err; }
    var total := ParseVariableLength(From(p, 1));
    if total.None? { return Err; }
    var offset, end := 1 + total.value.1, 1 + total.value.1 + total.value.0;
    var m := Messages(map[], None, None, None, None);
    while offset < end
      invariant ParseMessages(p, offset, end, m) == Parsed(p)
      decreases end - offset
    {
      if offset >= |p| { return Err; }
      var length := ParseVariableLength(From(p, offset + 1));
      if length.None? { return Err; }
      var next := Handle(p, p[offset], offset + 1 + length.value.1, length.value.0, m);
      if next.Err? { return Err; }
      m := next.value;
      offset := offset + 1 + length.value.1 + length.value.0;
    }
    r := Ok(m);
  }

  // ---- The round trip.

  lemma SliceWhole(p: Bytes, a: nat, b: nat)
    requires a <= b <= |p|
    ensures Slice(p, a, b) == p[a..b] && From(p, a) == p[a..]
  {
  }

  /** A message that stands at `offset` is taken as a whole. */
  lemma OneMessage(p: Bytes, offset: nat, end: nat, m: Messages, kind: Byte, data: Bytes)
    requires offset + |Message(kind, data)| <= end <= |p|
      && p[offset..offset + |Message(kind, data)|] == Message(kind, data)
    ensures var at := offset + 1 + |VarLen(|data|)|;
      && at + |data| <= |p| && p[at..at + |data|] == data
      && ParseMessages(p, offset, end, m) ==
           match Handle(p, kind, at, |data|, m)
           case Err => Err
           case Ok(m') => ParseMessages(p, offset + |Message(kind, data)|, end, m')
  {
    hide VarLen, ParseVar, Handle, Message, Slice, From;
    MessageParts(p, offset, kind, data);
    SliceWhole(p, offset + 1, |p|);
    VarLenBack(|data|, data + p[offset + |Message(kind, data)|..]);
  }

  lemma MessageParts(p: Bytes, offset: nat, kind: Byte, data: Bytes)
    requires offset + |Message(kind, data)| <= |p| && p[offset..offset + |Message(kind, data)|] == Message(kind, data)
    ensures var len, stop := VarLen(|data|), offset + |Message(kind, data)|;
      && offset < |p| && p[offset] == kind && stop == offset + 1 + |len| + |data|
      && p[offset + 1..] == len + (data + p[stop..]) && p[offset + 1 + |len|..stop] == data
  {
    hide VarLen;
    var msg, len := Message(kind, data), VarLen(|data|);
    var stop := offset + |msg|;
    assert p[offset] == p[offset..stop][0] == kind;
    assert p[offset + 1..] == p[offset..stop][1..] + p[stop..];
    assert p[offset..stop][1..] == len + data;
    assert p[offset + 1 + |len|..stop] == p[offset..stop][1 + |len|..];
  }

  /** A command message adds its key and value. */
  lemma CommandHandled(p: Bytes, at: nat, m: Messages, key: Bytes, value: Bytes)
    requires var data := CommandData(key, value); at + |data| <= |p| && p[at..at + |data|] == data
    ensures Handle(p, COMMAND_MSG, at, |CommandData(key, value)|, m)
      == Ok(m.(commands := Assign(m.commands, key, value)))
  {
    hide VarLen, ParseVar, Assign;
    var data, len := CommandData(key, value), VarLen(|key|);
    var stop := at + |data|;
    assert p[at + 1..] == p[at..stop][1..] + p[stop..];
    assert p[at..stop][1..] == len + (key + value);
    assert p[at + 1..] == len + (key + value + p[stop..]);
    SliceWhole(p, at + 1, |p|);
    VarLenBack(|key|, key + value + p[stop..]);
    var keyAt := at + 1 + |len|;
    var valueAt := keyAt + |key|;
    SliceWhole(p, keyAt, valueAt);
    SliceWhole(p, valueAt, stop);
    assert p[keyAt..valueAt] == p[at..stop][1 + |len|..1 + |len| + |key|] == key;
    assert p[valueAt..stop] == p[at..stop][1 + |len| + |key|..] == value;
  }

  lemma UpdateHandled(p: Bytes, at: nat, m: Messages, version: nat)
    requires version < 0x1_0000_0000 && at + 5 <= |p| && p[at..at + 5] == UpdateData(version)
    ensures Handle(p, UPDATE_MSG, at, 5, m) == Ok(m.(update := Some(version)))
  {
    SliceWhole(p, at, at + 5);
    Big32Back(version);
  }

  lemma Big32Back(version: nat)
    requires version < 0x1_0000_0000
    ensures Big32(UpdateData(version)) == version
  {
    var a, b := version / 0x1_0000, version % 0x1_0000;
    assert version / 0x100_0000 == a / 256 && version / 256 % 256 == b / 256 && version % 256 == b % 256;
  }

  /** The map that the commands make, later ones winning, without the name that is not kept. */
  ghost function MapOf(commands: seq<(Bytes, Bytes)>): map<Bytes, Bytes> {
    if commands == [] then map[]
    else Assign(MapOf(commands[..|commands| - 1]), commands[|commands| - 1].0, commands[|commands| - 1].1)
  }

  lemma {:induction false} CommandsParsed(p: Bytes, start: nat, end: nat, commands: seq<(Bytes, Bytes)>, i: nat,
                                          none: Messages)
    requires i <= |commands| && none == Messages(map[], None, None, None, None)
    requires start + |CommandsBytes(commands[..i])| <= end <= |p|
    requires p[start..start + |CommandsBytes(commands[..i])|] == CommandsBytes(commands[..i])
    ensures ParseMessages(p, start, end, none) ==
      ParseMessages(p, start + |CommandsBytes(commands[..i])|, end, none.(commands := MapOf(commands[..i])))
    decreases i
  {
    hide VarLen, ParseVar, Handle, Message, ParseMessages, Assign;
    if i > 0 {
      var prev, all, c := CommandsBytes(commands[..i - 1]), CommandsBytes(commands[..i]), commands[i - 1];
      assert commands[..i][..i - 1] == commands[..i - 1] && commands[..i][i - 1] == c;
      var data := CommandData(c.0, c.1);
      var msg := Message(COMMAND_MSG, data);
      assert all == prev + msg;
      var at := start + |prev|;
      assert p[start..at] == p[start..start + |all|][..|prev|] == prev;
      assert p[at..at + |msg|] == p[start..start + |all|][|prev|..] == msg;
      CommandsParsed(p, start, end, commands, i - 1, none);
      var m := none.(commands := MapOf(commands[..i - 1]));
      OneMessage(p, at, end, m, COMMAND_MSG, data);
      CommandHandled(p, at + 1 + |VarLen(|data|)|, m, c.0, c.1);
    }
  }

  lemma UpdateParsed(p: Bytes, at: nat, m: Messages, update: Option<nat>)
    requires (update.Some? ==> update.value < 0x1_0000_0000) && at <= |p| && p[at..] == UpdateBytes(update)
      && m.update.None?
    ensures ParseMessages(p, at, |p|, m) == Ok(m.(update := update))
  {
    hide VarLen, ParseVar, Handle, Message;
    if update.Some? {
      var data := UpdateData(update.value);
      assert p[at..at + |Message(UPDATE_MSG, data)|] == p[at..];
      OneMessage(p, at, |p|, m, UPDATE_MSG, data);
      UpdateHandled(p, at + 1 + |VarLen(|data|)|, m, update.value);
    }
  }

  /** Reading what was written gives the same commands and version. */
  lemma RoundTrip(commands: seq<(Bytes, Bytes)>, update: Option<nat>)
    requires update.Some? ==> update.value < 0x1_0000_0000
    ensures Parsed(Serialized(commands, update)) == Ok(Messages(MapOf(commands), update, None, None, None))
  {
    hide VarLen, ParseVar, Handle, ParseMessages, CommandsBytes, UpdateBytes;
    var p, all, upd := Serialized(commands, update), CommandsBytes(commands), UpdateBytes(update);
    var payload := all + upd;
    var len := VarLen(|payload|);
    var start := 1 + |len|;
    SliceWhole(p, 1, |p|);
    assert p[1..] == len + payload;
    VarLenBack(|payload|, payload);
    assert commands[..|commands|] == commands;
    assert p[start..] == payload && p[start..start + |all|] == all && p[start + |all|..] == upd;
    var none := Messages(map[], None, None, None, None);
    CommandsParsed(p, start, |p|, commands, |commands|, none);
    UpdateParsed(p, start + |all|, none.(commands := MapOf(commands)), update);
  }

  lemma {:induction false} EntriesMapped(m: map<Bytes, Bytes>, entries: seq<(Bytes, Bytes)>)
    requires forall e :: e in entries ==> e.0 in m && m[e.0] == e.1
    ensures forall k :: k in MapOf(entries) ==> k != PROTO && k in m && MapOf(entries)[k] == m[k]
    ensures forall e :: e in entries && e.0 != PROTO ==> e.0 in MapOf(entries)
  {
    if entries != [] {
      var n := |entries| - 1;
      EntriesMapped(m, entries[..n]);
      assert entries == entries[..n] + [entries[n]];
    }
  }

  /** Any listing of a map's entries makes that map again, but for the name that is not kept. */
  lemma EntriesMakeMap(m: map<Bytes, Bytes>, entries: seq<(Bytes, Bytes)>)
    requires forall e :: e in entries ==> e.0 in m && m[e.0] == e.1
    requires forall k :: k in m ==> (k, m[k]) in entries
    ensures MapOf(entries) == m - {PROTO}
  {
    hide MapOf;
    EntriesMapped(m, entries);
    forall k | k in m && k != PROTO ensures k in MapOf(entries) { assert (k, m[k]) in entries; }
  }

  /** A command map comes back as it was if and only if it has no command named __proto__. */
  lemma CommandsBack(m: map<Bytes, Bytes>, entries: seq<(Bytes, Bytes)>, update: Option<nat>)
    requires update.Some? ==> update.value < 0x1_0000_0000
    requires forall e :: e in entries ==> e.0 in m && m[e.0] == e.1
    requires forall k :: k in m ==> (k, m[k]) in entries
    ensures Parsed(Serialized(entries, update)) == Ok(Messages(m, update, None, None, None)) <==> PROTO !in m
  {
    hide Parsed, Serialized, MapOf;
    RoundTrip(entries, update);
    EntriesMakeMap(m, entries);
    assert PROTO !in m ==> m - {PROTO} == m;
  }
}
