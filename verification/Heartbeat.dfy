/** Any messages, and those that a device sends in its heartbeat: what the server makes of them. */
module Heartbeat {
  import opened Values
  import opened Telemata

  // ---- Any sequence of messages.

  /** A command, or a message of another kind. */
  datatype Item = Command(key: Bytes, value: Bytes) | Other(kind: Byte, data: Bytes) {
    ghost predicate Valid() {
      Other? ==> kind != COMMAND_MSG
    }

    function Kind(): Byte {
      if Command? then COMMAND_MSG else kind
    }

    function Data(): Bytes {
      if Command? then CommandData(key, value) else data
    }

    /** A device state must be long enough and name a known board, an update must be long enough. */
    ghost predicate Proper() {
      && (Kind() == DEVICE_STATE_MSG ==> StateOf(Data()).Some?)
      && (Kind() == UPDATE_MSG ==> |Data()| >= 5)
    }
  }

  ghost predicate AllValid(items: seq<Item>) {
    forall i :: 0 <= i < |items| ==> items[i].Valid()
  }

  ghost predicate AllProper(items: seq<Item>) {
    forall i :: 0 <= i < |items| ==> items[i].Proper()
  }

  function Joined(items: seq<Item>): Bytes {
    if items == [] then []
    else Joined(items[..|items| - 1]) + Message(items[|items| - 1].Kind(), items[|items| - 1].Data())
  }

  /** The header byte, the length of all messages, the messages. */
  function Framed(first: Byte, items: seq<Item>): Bytes {
    [first] + VarLen(|Joined(items)|) + Joined(items)
  }

  /** The data of the last message of a kind. */
  ghost function Last(items: seq<Item>, kind: Byte): Option<Bytes> {
    if items == [] then None
    else if items[|items| - 1].Kind() == kind then Some(items[|items| - 1].Data())
    else Last(items[..|items| - 1], kind)
  }

  ghost function Commands(items: seq<Item>): seq<(Bytes, Bytes)> {
    if items == [] then []
    else
      var x := items[|items| - 1];
      Commands(items[..|items| - 1]) + if x.Command? then [(x.key, x.value)] else []
  }

  /** The last message of each kind counts; commands are assigned in order. */
  ghost function Collected(items: seq<Item>): Messages {
    var update, state := Last(items, UPDATE_MSG), Last(items, DEVICE_STATE_MSG);
    Messages(MapOf(Commands(items)),
             if update.Some? && |update.value| >= 5 then Some(Big32(update.value)) else None,
             Last(items, DEVICE_NAME_MSG), Last(items, LOG_MSG),
             if state.Some? then StateOf(state.value) else None)
  }

  /** What a proper message adds. */
  ghost function With(m: Messages, x: Item): Messages
    requires x.Proper()
  {
    match x
    case Command(key, value) => m.(commands := Assign(m.commands, key, value))
    case Other(kind, data) =>
      if kind == DEVICE_STATE_MSG then m.(state := StateOf(data))
      else if kind == DEVICE_NAME_MSG then m.(name := Some(data))
      else if kind == LOG_MSG then m.(log := Some(data))
      else if kind == UPDATE_MSG then m.(update := Some(Big32(data)))
      else m
  }

  lemma ItemHandled(p: Bytes, at: nat, m: Messages, x: Item)
    requires x.Valid() && at + |x.Data()| <= |p| && p[at..at + |x.Data()|] == x.Data()
    ensures Handle(p, x.Kind(), at, |x.Data()|, m) == if x.Proper() then Ok(With(m, x)) else Err
  {
    hide VarLen, ParseVar, Assign, StateOf, Big32, CommandData;
    if x.Command? {
      CommandHandled(p, at, m, x.key, x.value);
    } else {
      SliceWhole(p, at, at + |x.data|);
    }
  }

  lemma CollectedNext(items: seq<Item>, x: Item)
    requires x.Valid() && x.Proper()
    ensures Collected(items + [x]) == With(Collected(items), x)
  {
    hide Assign, StateOf, Big32, CommandData, VarLen;
    var all := items + [x];
    assert all[..|items|] == items;
    if x.Command? {
      assert Commands(all) == Commands(items) + [(x.key, x.value)];
      assert Commands(all)[..|Commands(items)|] == Commands(items);
    } else {
      assert Commands(all) == Commands(items);
    }
  }

  /** The messages up to `i` are read, unless one of them is refused. */
  lemma {:induction false} ItemsParsed(p: Bytes, start: nat, items: seq<Item>, i: nat)
    requires i <= |items| && AllValid(items) && start + |Joined(items)| == |p| && p[start..] == Joined(items)
    ensures |Joined(items[..i])| <= |Joined(items)|
    ensures ParseMessages(p, start, |p|, Messages(map[], None, None, None, None)) ==
      if AllProper(items[..i])
      then ParseMessages(p, start + |Joined(items[..i])|, |p|, Collected(items[..i]))
      else Err
  {
    hide VarLen, ParseVar, Handle, Message, ParseMessages, Collected, Joined, Item.Proper, Item.Valid;
    if i == 0 {
      assert items[..0] == [];
      NothingCollected();
    } else {
      ItemsParsed(p, start, items, i - 1);
      JoinedPrefix(items, i);
      ItemStep(p, start, items, i);
      assert items[..i] == items[..i - 1] + [items[i - 1]];
    }
  }

  /** One message more. */
  lemma ItemStep(p: Bytes, start: nat, items: seq<Item>, i: nat)
    requires 1 <= i <= |items| && AllValid(items) && start + |Joined(items)| == |p| && p[start..] == Joined(items)
    ensures ParseMessages(p, start + |Joined(items[..i - 1])|, |p|, Collected(items[..i - 1])) ==
      if items[i - 1].Proper()
      then ParseMessages(p, start + |Joined(items[..i])|, |p|, Collected(items[..i]))
      else Err
  {
    hide VarLen, ParseVar, Handle, Message, ParseMessages, Collected, With;
    hide Item.Kind, Item.Data, Item.Proper, Item.Valid;
    var x, before := items[i - 1], items[..i - 1];
    assert items[..i] == before + [x] && items[..i][..i - 1] == before;
    var at, m := start + |Joined(before)|, Collected(before);
    ItemAt(p, start, items, i);
    OneMessage(p, at, |p|, m, x.Kind(), x.Data());
    ItemHandled(p, at + 1 + |VarLen(|x.Data()|)|, m, x);
    if x.Proper() { CollectedNext(before, x); }
  }

  lemma NothingCollected()
    ensures Collected([]) == Messages(map[], None, None, None, None) && Joined([]) == []
  {
  }

  lemma {:induction false} JoinedPrefix(items: seq<Item>, i: nat)
    requires i <= |items|
    ensures Joined(items[..i]) <= Joined(items)
    decreases |items|
  {
    hide Message;
    if i < |items| {
      var n := |items| - 1;
      JoinedPrefix(items[..n], i);
      assert items[..n][..i] == items[..i];
    } else {
      assert items[..i] == items;
    }
  }

  /** Where the bytes of a message stand. */
  lemma ItemAt(p: Bytes, start: nat, items: seq<Item>, i: nat)
    requires 1 <= i <= |items| && start + |Joined(items)| == |p| && p[start..] == Joined(items)
    ensures var x, prev := items[i - 1], Joined(items[..i - 1]);
      var msg := Message(x.Kind(), x.Data());
      start + |prev| + |msg| <= |p| && p[start + |prev|..start + |prev| + |msg|] == msg
  {
    hide Message;
    var x, prev, all := items[i - 1], Joined(items[..i - 1]), Joined(items);
    var msg := Message(x.Kind(), x.Data());
    assert items[..i][..i - 1] == items[..i - 1] && items[..i][i - 1] == x;
    JoinedPrefix(items, i);
    assert prev + msg <= all;
    assert p[start + |prev|..start + |prev| + |msg|] == all[|prev|..|prev| + |msg|] == msg;
  }

  /** Any messages: refused when the version is another one or a message is not proper; else the last
      of each kind counts, unknown kinds change nothing and the commands are assigned in order. */
  lemma AnyMessages(first: Byte, items: seq<Item>)
    requires AllValid(items)
    ensures Parsed(Framed(first, items)) ==
      if first as nat / 16 == 1 && AllProper(items) then Ok(Collected(items)) else Err
  {
    hide VarLen, ParseVar, Handle, ParseMessages, Joined, Collected;
    var p, all := Framed(first, items), Joined(items);
    var len := VarLen(|all|);
    var start := 1 + |len|;
    SliceWhole(p, 1, |p|);
    assert p[1..] == len + all;
    VarLenBack(|all|, all);
    assert items[..|items|] == items && p[start..] == all;
    ItemsParsed(p, start, items, |items|);
    AtEnd(p, |p|, Collected(items));
  }

  lemma AtEnd(p: Bytes, end: nat, m: Messages)
    ensures ParseMessages(p, end, end, m) == Ok(m)
  {
  }

  // ---- The device's heartbeat.

  const NAME_KIND: Byte := 0x01
  const LOG_KIND: Byte := 0x02
  const STATE_KIND: Byte := 0x03
  const BOARD_TYPE: Byte := 1
  const STATE_BOOTED: Byte := 1
  const STATE_RUNNING: Byte := 2
  const NO_BATTERY: Byte := 0xF0
  const ALLOCATED := 4096

  /** The device's way to write a length: like the server's, but nothing for zero. */
  function Digits(n: nat): Bytes {
    if n == 0 then [] else [if n / 128 > 0 then 128 + n % 128 else n % 128] + Digits(n / 128)
  }

  lemma {:induction false} SameDigits(n: nat)
    requires n > 0
    ensures Digits(n) == VarLen(n)
  {
    if n >= 128 { SameDigits(n / 128); }
  }

  /** Writes a length into at most `room` bytes. */
  method FillVariableLength(room: int, length: nat) returns (r: Bytes)
    ensures r == if |Digits(length)| <= room then Digits(length) else Digits(length)[..if room < 0 then 0 else room]
  {
    hide Digits;
    r := [];
    var left := length;
    assert r + Digits(left) == Digits(length);
    while |r| < room && left > 0
      invariant r + Digits(left) == Digits(length) && |r| <= (if room < 0 then 0 else room)
      decreases left
    {
      NextDigit(left);
      var digit := left % 128;
      left := left / 128;
      r := r + [if left > 0 then 128 + digit else digit];
    }
    NextDigit(left);
    assert Digits(length)[..|r|] == r;
  }

  lemma NextDigit(n: nat)
    ensures n == 0 ==> Digits(n) == []
    ensures n > 0 ==> Digits(n) == [if n / 128 > 0 then 128 + n % 128 else n % 128] + Digits(n / 128)
  {
  }

  /** A message as the device writes it. */
  function DeviceMessage(kind: Byte, data: Bytes): Bytes {
    [kind] + Digits(|data|) + data
  }

  /** The payload after one more message, which is dropped when it does not fit. */
  function Appended(payload: Bytes, kind: Byte, data: Bytes): Bytes {
    if |payload| + |DeviceMessage(kind, data)| <= ALLOCATED then payload + DeviceMessage(kind, data) else payload
  }

  class PayloadBuilder {
    var payload: Bytes

    constructor ()
      ensures payload == []
    {
      payload := [];
    }

    method Append(kind: Byte, data: Bytes) returns (ok: bool)
      requires |payload| <= ALLOCATED
      modifies this
      ensures payload == Appended(old(payload), kind, data) && |payload| <= ALLOCATED
      ensures ok <==> |old(payload)| + |DeviceMessage(kind, data)| <= ALLOCATED
    {
      var remaining := ALLOCATED - |payload|;
      var len := FillVariableLength(remaining - 1, |data|);
      if remaining - (1 + |len| + |data|) < 0 { return false; }
      payload := payload + [kind] + len + data;
      ok := true;
    }
  }

  function Little(n: nat): Bytes
    requires n < 0x1_0000_0000
  {
    [n % 256, n / 256 % 256, n / 0x1_0000 % 256, n / 0x100_0000]
  }

  /** The device state as it lies in memory: state, type, battery, a byte that is not set, and two
      32-bit numbers, the lowest byte first. */
  function StateData(booted: bool, reserved: Byte, version: nat, ramFree: nat): Bytes
    requires version < 0x1_0000_0000 && ramFree < 0x1_0000_0000
  {
    [if booted then STATE_BOOTED else STATE_RUNNING, BOARD_TYPE, NO_BATTERY, reserved]
    + Little(version) + Little(ramFree)
  }

  lemma TwoDigits(x: nat)
    ensures x == x % 256 + x / 256 * 256
  {
  }

  lemma Nested(n: nat)
    ensures n / 0x1_0000 == n / 256 / 256 && n / 0x100_0000 == n / 256 / 256 / 256
  {
  }

  lemma FourDigits(n: nat)
    ensures n % 256 + n / 256 % 256 * 256 + n / 0x1_0000 % 256 * 0x1_0000 + n / 0x100_0000 * 0x100_0000 == n
  {
    var a := n / 256;
    var b := a / 256;
    Nested(n);
    TwoDigits(n);
    TwoDigits(a);
    TwoDigits(b);
  }

  lemma LittleBack(n: nat, d: Bytes, at: nat)
    requires n < 0x1_0000_0000 && at + 4 <= |d| && d[at..at + 4] == Little(n)
    ensures Little32(d, at) == n
  {
    hide Little;
    var x := d[at..at + 4];
    assert d[at] == x[0] && d[at + 1] == x[1] && d[at + 2] == x[2] && d[at + 3] == x[3];
    FourDigits(n);
    DigitsOf(n);
  }

  lemma DigitsOf(n: nat)
    requires n < 0x1_0000_0000
    ensures |Little(n)| == 4 && Little(n)[0] as nat == n % 256 && Little(n)[1] as nat == n / 256 % 256
    ensures Little(n)[2] as nat == n / 0x1_0000 % 256 && Little(n)[3] as nat == n / 0x100_0000
  {
  }

  /** The server reads each field where the device put it. For the battery it looks at the byte that
      is not set. */
  lemma StateBack(booted: bool, reserved: Byte, version: nat, ramFree: nat)
    requires version < 0x1_0000_0000 && ramFree < 0x1_0000_0000
    ensures StateOf(StateData(booted, reserved, version, ramFree))
      == Some(DeviceState(booted, Esp32, if reserved > 0xF0 then None else Some(0xF0), version, ramFree))
  {
    hide Little, Little32;
    var d := StateData(booted, reserved, version, ramFree);
    assert |Little(version)| == 4 && |Little(ramFree)| == 4 by { FourBytes(version); FourBytes(ramFree); }
    assert d[4..8] == Little(version) && d[8..12] == Little(ramFree);
    LittleBack(version, d, 4);
    LittleBack(ramFree, d, 8);
  }

  lemma FourBytes(n: nat)
    requires n < 0x1_0000_0000
    ensures |Little(n)| == 4
  {
  }

  ghost function Payload(name: Bytes, state: Bytes, log: Bytes): Bytes {
    var p := Appended(Appended([], NAME_KIND, name), STATE_KIND, state);
    if log == [] then p else Appended(p, LOG_KIND, log)
  }

  /** The device's heartbeat: its name, its state, and the log if there is one. */
  method Send(name: Bytes, booted: bool, reserved: Byte, version: nat, ramFree: nat, log: Bytes) returns (r: Bytes)
    requires version < 0x1_0000_0000 && ramFree < 0x1_0000_0000
    ensures var p := Payload(name, StateData(booted, reserved, version, ramFree), log);
      r == [16] + Digits(|p|) + p
  {
    hide Digits, DeviceMessage, Little;
    var b := new PayloadBuilder();
    var ok := b.Append(NAME_KIND, name);
    ok := b.Append(STATE_KIND, StateData(booted, reserved, version, ramFree));
    if |log| > 0 { ok := b.Append(LOG_KIND, log); }
    var len := FillVariableLength(4, |b.payload|);
    FewDigits(|b.payload|);
    r := [16] + len + b.payload;
  }

  lemma FewDigits(n: nat)
    requires n <= ALLOCATED
    ensures |Digits(n)| <= 4
  {
    assert n / 128 / 128 == 0;
    assert Digits(n / 128 / 128) == [];
  }

  /** The messages of a heartbeat. */
  ghost function Report(name: Bytes, state: Bytes, log: Bytes): seq<Item> {
    [Other(NAME_KIND, name), Other(STATE_KIND, state)] + if log == [] then [] else [Other(LOG_KIND, log)]
  }

  lemma ReportJoined(name: Bytes, state: Bytes, log: Bytes)
    requires name != [] && state != [] && |Joined(Report(name, state, log))| <= ALLOCATED
    ensures Payload(name, state, log) == Joined(Report(name, state, log))
  {
    hide Digits, VarLen;
    SameDigits(|name|);
    SameDigits(|state|);
    if log != [] { SameDigits(|log|); }
    var a, b, c := Other(NAME_KIND, name), Other(STATE_KIND, state), Other(LOG_KIND, log);
    assert [a, b][..1] == [a] && [a][..0] == [] && [a, b] + [] == [a, b];
    assert ([a, b] + [c])[..2] == [a, b];
    assert Joined([a]) == Message(NAME_KIND, name);
    assert Joined([a, b]) == Message(NAME_KIND, name) + Message(STATE_KIND, state);
    if log != [] { assert Joined([a, b] + [c]) == Joined([a, b]) + Message(LOG_KIND, log); }
  }

  lemma ReportCollected(name: Bytes, state: Bytes, log: Bytes)
    requires StateOf(state).Some?
    ensures AllValid(Report(name, state, log)) && AllProper(Report(name, state, log))
    ensures Collected(Report(name, state, log))
      == Messages(map[], None, Some(name), if log == [] then None else Some(log), StateOf(state))
  {
    hide StateOf, Big32;
    var a, b, c := Other(NAME_KIND, name), Other(STATE_KIND, state), Other(LOG_KIND, log);
    assert [a, b] + [] == [a, b] && [] + [a] == [a] && [a] + [b] == [a, b];
    NothingCollected();
    CollectedNext([], a);
    CollectedNext([a], b);
    if log != [] { CollectedNext([a, b], c); }
  }

  /** A heartbeat that fits and has a name comes back as it was: the name, the state and the log. */
  lemma HeartbeatBack(name: Bytes, booted: bool, reserved: Byte, version: nat, ramFree: nat, log: Bytes)
    requires version < 0x1_0000_0000 && ramFree < 0x1_0000_0000 && name != []
    requires |Joined(Report(name, StateData(booted, reserved, version, ramFree), log))| <= ALLOCATED
    ensures var p := Payload(name, StateData(booted, reserved, version, ramFree), log);
      Parsed([16] + Digits(|p|) + p) == Ok(Messages(map[], None, Some(name), if log == [] then None else Some(log),
        Some(DeviceState(booted, Esp32, if reserved > 0xF0 then None else Some(0xF0), version, ramFree))))
  {
    hide Digits, Joined, Parsed, Collected, StateOf, VarLen;
    var state := StateData(booted, reserved, version, ramFree);
    var items := Report(name, state, log);
    StateBack(booted, reserved, version, ramFree);
    ReportJoined(name, state, log);
    ReportCollected(name, state, log);
    AnyMessages(16, items);
    JoinedSome(items);
    SameDigits(|Joined(items)|);
  }

  lemma JoinedSome(items: seq<Item>)
    requires items != []
    ensures |Joined(items)| > 0
  {
    hide VarLen;
  }

  lemma ShortState(p: Bytes, kind: Byte, at: nat, length: nat, m: Messages)
    requires |p| < at + 12 && m.state.None?
    ensures var h := Handle(p, kind, at, length, m); h.Ok? ==> h.value.state.None?
  {
    hide ParseVar, Assign, Big32;
  }

  /** With fewer than twelve bytes left after a kind and a length, no device state is read. */
  lemma {:induction false} NoStateLeft(p: Bytes, offset: nat, end: nat, m: Messages)
    requires |p| < offset + 14 && m.state.None?
    ensures var r := ParseMessages(p, offset, end, m); r.Ok? ==> r.value.state.None?
    decreases end - offset
  {
    hide ParseVar, Handle, From;
    if offset < end && offset < |p| {
      var v := ParseVar(From(p, offset + 1));
      if v.Some? {
        ShortState(p, p[offset], offset + 1 + v.value.1, v.value.0, m);
        var h := Handle(p, p[offset], offset + 1 + v.value.1, v.value.0, m);
        if h.Ok? { NoStateLeft(p, offset + 1 + v.value.1 + v.value.0, end, h.value); }
      }
    }
  }

  /** A heartbeat without a name is misread: no length stands for the empty name, so that the server
      takes what follows for it, and the state never arrives. */
  lemma NamelessLost(booted: bool, reserved: Byte, version: nat, ramFree: nat)
    requires version < 0x1_0000_0000 && ramFree < 0x1_0000_0000
    ensures var p := Payload([], StateData(booted, reserved, version, ramFree), []);
      var r := Parsed([16] + Digits(|p|) + p);
      r.Ok? ==> r.value.state.None?
  {
    hide Little, ParseMessages;
    FourBytes(version);
    FourBytes(ramFree);
    var state := StateData(booted, reserved, version, ramFree);
    var p := Payload([], state, []);
    assert p == [NAME_KIND, STATE_KIND, 12] + state;
    var all := [16] + Digits(|p|) + p;
    assert all == [16, 15] + p;
    assert From(all, 1) == all[1..];
    NamelessRead(all, state);
  }

  lemma NamelessRead(p: Bytes, state: Bytes)
    requires |state| == 12 && p == [16, 15, NAME_KIND, STATE_KIND, 12] + state
    ensures var r := ParseMessages(p, 2, 17, Messages(map[], None, None, None, None)); r.Ok? ==> r.value.state.None?
  {
    var none := Messages(map[], None, None, None, None);
    assert From(p, 3) == p[3..] && p[3] == 3;
    assert ParseVar(From(p, 3)) == Some((3, 1));
    var h := Handle(p, p[2], 4, 3, none);
    assert h == Ok(none.(name := Some(p[4..7])));
    NoStateLeft(p, 7, 17, h.value);
  }
}
