/** The kernel's object arena: a list of runs of free objects, linked through headers in the objects
    themselves. The first run is used from its end. */
module Arena {

  /** `count` free objects from object `first` on. */
  datatype Run = Run(first: nat, count: nat)

  ghost predicate InRun(x: nat, r: Run) {
    r.first <= x < r.first + r.count
  }

  ghost function Total(free: seq<Run>): nat {
    if free == [] then 0 else free[0].count + Total(free[1..])
  }

  ghost predicate Listed(free: seq<Run>, x: nat) {
    exists i :: 0 <= i < |free| && InRun(x, free[i])
  }

  ghost predicate Sized(free: seq<Run>, n: nat) {
    forall i :: 0 <= i < |free| ==> free[i].count >= 1 && free[i].first + free[i].count <= n
  }

  ghost predicate Disjoint(free: seq<Run>) {
    forall i, j, x: nat :: 0 <= i < j < |free| && InRun(x, free[i]) ==> !InRun(x, free[j])
  }

  /** Objects that are not free are live. */
  ghost predicate Exact(free: seq<Run>, live: set<nat>, n: nat) {
    && (forall x: nat :: x in live ==> x < n)
    && (forall x: nat :: x < n ==> (x in live <==> !Listed(free, x)))
  }

  /** Every object is either live or in exactly one free run. */
  ghost predicate Partition(free: seq<Run>, live: set<nat>, n: nat) {
    Sized(free, n) && Disjoint(free) && Exact(free, live, n) && |live| + Total(free) == n
  }

  lemma ListedAppend(free: seq<Run>, r: Run, x: nat)
    ensures Listed(free + [r], x) <==> Listed(free, x) || InRun(x, r)
  {
    var all := free + [r];
    if Listed(free, x) {
      var i :| 0 <= i < |free| && InRun(x, free[i]);
      assert InRun(x, all[i]);
    }
    if InRun(x, r) { assert InRun(x, all[|free|]); }
  }

  lemma ListedHead(free: seq<Run>, x: nat)
    requires free != []
    ensures Listed(free, x) <==> InRun(x, free[0]) || Listed(free[1..], x)
  {
    if Listed(free, x) {
      var i :| 0 <= i < |free| && InRun(x, free[i]);
      if i > 0 { assert InRun(x, free[1..][i - 1]); }
    }
    if Listed(free[1..], x) {
      var i :| 0 <= i < |free[1..]| && InRun(x, free[1..][i]);
      assert InRun(x, free[i + 1]);
    }
  }

  lemma DisjointHead(free: seq<Run>, x: nat)
    requires free != [] && Disjoint(free) && InRun(x, free[0])
    ensures !Listed(free[1..], x)
  {
    forall i | 0 <= i < |free[1..]| ensures !InRun(x, free[1..][i]) { assert free[1..][i] == free[i + 1]; }
  }

  lemma DisjointTail(free: seq<Run>)
    requires free != [] && Disjoint(free)
    ensures Disjoint(free[1..])
  {
    var t := free[1..];
    forall i, j, x: nat | 0 <= i < j < |t| && InRun(x, t[i]) ensures !InRun(x, t[j]) {
      assert InRun(x, free[i + 1]) && t[j] == free[j + 1];
    }
  }

  lemma DisjointAppend(free: seq<Run>, r: Run)
    requires Disjoint(free) && forall x: nat :: InRun(x, r) ==> !Listed(free, x)
    ensures Disjoint(free + [r])
  {
    var all := free + [r];
    forall i, j, x: nat | 0 <= i < j < |all| && InRun(x, all[i]) ensures !InRun(x, all[j]) {
      if j == |free| {
        assert InRun(x, free[i]);
        assert Listed(free, x);
      } else {
        assert InRun(x, free[i]) && all[j] == free[j];
      }
    }
  }

  lemma {:induction false} TotalAppend(free: seq<Run>, r: Run)
    ensures Total(free + [r]) == Total(free) + r.count
  {
    if free == [] {
      assert (free + [r])[1..] == [];
    } else {
      TotalAppend(free[1..], r);
      assert (free + [r])[1..] == free[1..] + [r];
    }
  }

  // ---- Headers in memory.

  /** What an object holds, but for links: the header of a run that starts there, or something else. */
  datatype Cell = Header(count: nat) | Data(value: nat)

  /** The runs whose headers are at `heads`. */
  ghost function Runs(mem: seq<Cell>, heads: seq<nat>): (r: seq<Run>)
    requires Headed(mem, heads)
    ensures |r| == |heads| && forall i :: 0 <= i < |heads| ==> r[i] == Run(heads[i], mem[heads[i]].count)
  {
    seq(|heads|, i requires 0 <= i < |heads| => Run(heads[i], mem[heads[i]].count))
  }

  ghost predicate Headed(mem: seq<Cell>, heads: seq<nat>) {
    forall i :: 0 <= i < |heads| ==> heads[i] < |mem| && mem[heads[i]].Header?
  }

  /** Runs start at different objects, none of them live. */
  lemma HeadsApart(mem: seq<Cell>, heads: seq<nat>, live: set<nat>)
    requires Headed(mem, heads) && Partition(Runs(mem, heads), live, |mem|)
    ensures forall i, j :: 0 <= i < j < |heads| ==> heads[i] != heads[j]
    ensures forall i :: 0 <= i < |heads| ==> heads[i] !in live
  {
    var free := Runs(mem, heads);
    forall i | 0 <= i < |heads| ensures InRun(heads[i], free[i]) {
      assert free[i].count >= 1;
    }
    forall i | 0 <= i < |heads| ensures heads[i] !in live {
      assert Listed(free, heads[i]);
    }
  }

  /** A write to a live object touches no header. */
  lemma HeadersStay(mem: seq<Cell>, heads: seq<nat>, live: set<nat>, x: nat, v: Cell)
    requires Headed(mem, heads) && Partition(Runs(mem, heads), live, |mem|) && x in live && x < |mem|
    ensures Headed(mem[x := v], heads) && Runs(mem[x := v], heads) == Runs(mem, heads)
  {
    hide Partition;
    HeadsApart(mem, heads, live);
  }

  /** The free list when the first run has `left` objects left. */
  ghost function HeadsAfter(heads: seq<nat>, left: nat): seq<nat>
    requires heads != []
  {
    if left > 0 then heads[1..] + [heads[0]] else heads[1..]
  }

  lemma RunsTail(mem: seq<Cell>, heads: seq<nat>, v: Cell)
    requires Headed(mem, heads) && heads != [] && forall j :: 0 < j < |heads| ==> heads[0] != heads[j]
    ensures var mem' := mem[heads[0] := v]; Headed(mem', heads[1..]) && Runs(mem', heads[1..]) == Runs(mem, heads)[1..]
  {
    var mem', t := mem[heads[0] := v], heads[1..];
    forall i | 0 <= i < |t| ensures t[i] < |mem'| && mem'[t[i]] == mem[t[i]] && mem[t[i]].Header? {
      assert t[i] == heads[i + 1];
    }
    assert |Runs(mem', t)| == |Runs(mem, heads)[1..]|;
  }

  lemma RunsAppend(mem: seq<Cell>, heads: seq<nat>, x: nat)
    requires Headed(mem, heads) && x < |mem| && mem[x].Header?
    ensures Headed(mem, heads + [x]) && Runs(mem, heads + [x]) == Runs(mem, heads) + [Run(x, mem[x].count)]
  {
  }

  lemma RunsAfter(mem: seq<Cell>, heads: seq<nat>, left: nat)
    requires Headed(mem, heads) && heads != [] && forall j :: 0 < j < |heads| ==> heads[0] != heads[j]
    ensures var mem' := mem[heads[0] := Header(left)];
      && Headed(mem', HeadsAfter(heads, left))
      && Runs(mem', HeadsAfter(heads, left)) == Runs(mem, heads)[1..] + if left > 0 then [Run(heads[0], left)] else []
  {
    hide Runs, Headed;
    HeadAt(mem, heads);
    RunsTail(mem, heads, Header(left));
    RunsAppend(mem[heads[0] := Header(left)], heads[1..], heads[0]);
  }

  /** The header of the first run counts one object less. */
  lemma TakeHeader(mem: seq<Cell>, heads: seq<nat>, live: set<nat>) returns (left: nat, x: nat)
    requires Headed(mem, heads) && heads != [] && Partition(Runs(mem, heads), live, |mem|)
    ensures left == mem[heads[0]].count - 1 && x == heads[0] + left < |mem| && x !in live && |live| < |mem|
    ensures var mem' := mem[heads[0] := Header(left)];
      Headed(mem', HeadsAfter(heads, left)) && Partition(Runs(mem', HeadsAfter(heads, left)), live + {x}, |mem|)
  {
    hide Partition, HeadsAfter, Headed;
    var free := Runs(mem, heads);
    HeadsApart(mem, heads, live);
    TakeOne(free, live, |mem|);
    HeadAt(mem, heads);
    left := mem[heads[0]].count - 1;
    x := heads[0] + left;
    RunsAfter(mem, heads, left);
    assert free[1..] + [] == free[1..];
  }

  lemma HeadAt(mem: seq<Cell>, heads: seq<nat>)
    requires Headed(mem, heads) && heads != []
    ensures heads[0] < |mem| && mem[heads[0]].Header? && Runs(mem, heads)[0] == Run(heads[0], mem[heads[0]].count)
  {
  }

  /** A live object becomes a run of its own. */
  lemma PutHeader(mem: seq<Cell>, heads: seq<nat>, live: set<nat>, x: nat)
    requires Headed(mem, heads) && Partition(Runs(mem, heads), live, |mem|) && x in live && x < |mem|
    ensures Headed(mem[x := Header(1)], heads + [x])
      && Partition(Runs(mem[x := Header(1)], heads + [x]), live - {x}, |mem|)
  {
    hide Partition;
    HeadersStay(mem, heads, live, x, Header(1));
    GiveBack(Runs(mem, heads), live, |mem|, x);
    RunsAppend(mem[x := Header(1)], heads, x);
  }

  // ---- The list through the headers.

  /** Where a link leads: to the list head in the arena, or to the header in an object. */
  datatype Link = Root | Object(x: nat)

  /** An object in memory: a header with its links, or something else. */
  datatype Slot = Block(count: nat, prev: Link, next: Link) | Content(value: nat)

  /** Memory but for the links. */
  ghost function Plain(mem: seq<Slot>): (r: seq<Cell>)
    ensures |r| == |mem|
    ensures forall i :: 0 <= i < |mem| ==> r[i] == if mem[i].Block? then Header(mem[i].count) else Data(mem[i].value)
  {
    seq(|mem|, i requires 0 <= i < |mem| => if mem[i].Block? then Header(mem[i].count) else Data(mem[i].value))
  }

  ghost function LinkTo(heads: seq<nat>, i: int): Link {
    if 0 <= i < |heads| then Object(heads[i]) else Root
  }

  /** The links lead from the list head through the headers at `heads`, and back. */
  ghost predicate Ring(mem: seq<Slot>, heads: seq<nat>, first: Link, last: Link) {
    && first == LinkTo(heads, 0) && last == LinkTo(heads, |heads| - 1)
    && (forall i :: 0 <= i < |heads| ==> Bound(mem, heads, i))
    && (forall i, j :: 0 <= i < j < |heads| ==> heads[i] != heads[j])
  }

  ghost predicate Bound(mem: seq<Slot>, heads: seq<nat>, i: int)
    requires 0 <= i < |heads|
  {
    && heads[i] < |mem| && mem[heads[i]].Block?
    && mem[heads[i]].prev == LinkTo(heads, i - 1) && mem[heads[i]].next == LinkTo(heads, i + 1)
  }

  /** Taking the first header out leaves a list. */
  lemma RingTail(mem: seq<Slot>, mem': seq<Slot>, heads: seq<nat>, first: Link, last: Link)
    requires Ring(mem, heads, first, last) && heads != [] && |mem'| == |mem|
    requires forall x :: 0 <= x < |mem| && (|heads| > 1 ==> x != heads[1]) ==> mem'[x] == mem[x]
    requires |heads| > 1 ==> heads[1] < |mem| && mem[heads[1]].Block? && mem'[heads[1]] == mem[heads[1]].(prev := Root)
    ensures Bound(mem, heads, 0)
    ensures Ring(mem', heads[1..], mem[heads[0]].next, if |heads| > 1 then last else Root)
  {
    var t := heads[1..];
    forall i | 0 <= i < |t| ensures Bound(mem', t, i) {
      assert t[i] == heads[i + 1] && Bound(mem, heads, i + 1);
    }
    assert Bound(mem, heads, 0);
  }

  /** A header put in before the list head makes a longer list. */
  lemma RingAppend(mem: seq<Slot>, mem': seq<Slot>, heads: seq<nat>, first: Link, last: Link, k: nat)
    requires Ring(mem, heads, first, last) && k < |mem| == |mem'| && k !in heads
    requires forall x :: 0 <= x < |mem| && x != k && Object(x) != last ==> mem'[x] == mem[x]
    requires mem'[k].Block? && mem'[k].prev == last && mem'[k].next == Root
    requires last.Object? ==>
      last.x < |mem| && mem[last.x].Block? && mem'[last.x] == mem[last.x].(next := Object(k))
    ensures Ring(mem', heads + [k], if heads == [] then Object(k) else first, Object(k))
  {
    var all := heads + [k];
    forall i | 0 <= i < |all| ensures Bound(mem', all, i) {
      if i < |heads| {
        assert all[i] == heads[i] && Bound(mem, heads, i);
        assert LinkTo(all, i - 1) == LinkTo(heads, i - 1);
      }
    }
  }

  class Pool {
    const addr: nat
    const objectSize: nat
    const numObjects: nat
    /** The objects. */
    const mem: array<Slot>
    /** The list head: the links to the first and the last header. */
    var first: Link
    var last: Link
    /** The free list: where the headers are. */
    ghost var heads: seq<nat>
    /** Objects handed out and not given back. */
    ghost var live: set<nat>

    ghost function Address(x: nat): nat {
      addr + x * objectSize
    }

    ghost predicate Valid()
      reads this, mem
    {
      && objectSize >= 1 && numObjects >= 1 && mem.Length == numObjects && Ring(mem[..], heads, first, last)
      && Headed(Plain(mem[..]), heads) && Partition(Runs(Plain(mem[..]), heads), live, numObjects)
    }

    /** Takes the first header out of the list. Only the links of the others change. */
    method PopFront() returns (k: nat)
      requires Ring(mem[..], heads, first, last) && first != Root
      modifies `first, `last, `heads, mem
      ensures heads == old(heads)[1..] && k == old(heads)[0] && k < mem.Length && mem[k].Block?
      ensures Ring(mem[..], heads, first, last) && Plain(mem[..]) == old(Plain(mem[..]))
      ensures forall y: nat :: y < mem.Length && y !in heads ==> mem[y] == old(mem[y])
    {
      k := first.x;
      assert Bound(mem[..], heads, 0);
      first := mem[k].next;
      if first == Root {
        last := Root;
      } else {
        assert Bound(mem[..], heads, 1);
        mem[first.x] := mem[first.x].(prev := Root);
      }
      RingTail(old(mem[..]), mem[..], heads, old(first), old(last));
      heads := heads[1..];
    }

    /** Puts a header at the end of the list. Only links change. */
    method PushBack(k: nat)
      requires Ring(mem[..], heads, first, last) && k < mem.Length && mem[k].Block? && k !in heads
      modifies `first, `last, `heads, mem
      ensures heads == old(heads) + [k]
      ensures Ring(mem[..], heads, first, last) && Plain(mem[..]) == old(Plain(mem[..]))
      ensures forall y: nat :: y < mem.Length && y !in heads ==> mem[y] == old(mem[y])
    {
      if last.Object? { assert Bound(mem[..], heads, |heads| - 1); }
      mem[k] := mem[k].(prev := last, next := Root);
      if last == Root {
        first := Object(k);
      } else {
        mem[last.x] := mem[last.x].(next := Object(k));
      }
      RingAppend(old(mem[..]), mem[..], heads, old(first), last, k);
      last := Object(k);
      heads := heads + [k];
    }

    constructor (addr: nat, arenaSize: nat, objectSize: nat)
      requires arenaSize > objectSize >= 1
      ensures Valid() && live == {} && this.addr == addr && this.objectSize == objectSize && fresh(mem)
      ensures numObjects == arenaSize / objectSize && numObjects * objectSize <= arenaSize
    {
      var n := arenaSize / objectSize;
      AtLeastOne(arenaSize, objectSize);
      this.addr, this.objectSize, numObjects := addr, objectSize, n;
      mem := new Slot[n](_ => Content(0));
      first, last, heads, live := Root, Root, [], {};
      new;
      mem[0] := Block(n, Root, Root);
      PushBack(0);
      OneRun(Plain(mem[..]), n);
    }

    /** Hands out an object; none is left exactly when all are live. Live objects keep what they
        hold. */
    method Alloc() returns (ok: bool, ptr: nat, ghost x: nat)
      requires Valid()
      modifies `first, `last, `heads, `live, mem
      ensures Valid() && (ok <==> |old(live)| < numObjects)
      ensures !ok ==>
        && live == old(live) && heads == old(heads) && mem[..] == old(mem[..])
        && forall y: nat :: y < numObjects ==> y in live
      ensures ok ==> x < numObjects && x !in old(live) && live == old(live) + {x} && ptr == Address(x)
      ensures forall y: nat :: y in old(live) && y < numObjects ==> mem[y] == old(mem[y])
    {
      hide Partition, Headed, Runs, Ring;
      ghost var was := Plain(mem[..]);
      RingEmpty(mem[..], heads, first, last);
      if first == Root {
        assert Runs(was, heads) == [];
        AllLive(live, numObjects);
        return false, 0, 0;
      }
      HeadAt(was, heads);
      HeadsApart(was, heads, live);
      ghost var after;
      after, x := TakeHeader(was, heads, live);
      var k := PopFront();
      var left := mem[k].count - 1;
      Recount(mem[..], heads, first, last, k, left);
      mem[k] := mem[k].(count := left);
      if left > 0 { PushBack(k); }
      assert heads == HeadsAfter(old(heads), left) && Plain(mem[..]) == was[k := Header(left)];
      live := live + {x};
      ptr := addr + k * objectSize + left * objectSize;
      Spread(k, left, objectSize);
      ok := true;
    }

    /** Takes a live object back. The others keep what they hold. */
    method Free(ptr: nat, ghost x: nat)
      requires Valid() && x in live && ptr == Address(x)
      modifies `first, `last, `heads, `live, mem
      ensures Valid() && live == old(live) - {x}
      ensures forall y: nat :: y in live && y < numObjects ==> mem[y] == old(mem[y])
    {
      hide Partition, Headed, Runs, Ring;
      ghost var was := Plain(mem[..]);
      LiveInside(Runs(was, heads), live, numObjects, x);
      HeadsApart(was, heads, live);
      PutHeader(was, heads, live, x);
      Spread(x, 0, objectSize);
      var k := (ptr - addr) / objectSize;
      Aligned(x, objectSize);
      Overwrite(mem[..], heads, first, last, k, Block(1, Root, Root));
      mem[k] := Block(1, Root, Root);
      PushBack(k);
      assert Plain(mem[..]) == was[k := Header(1)];
      live := live - {x};
    }

    /** The owner of a live object writes to it: the free list does not change. */
    method Write(x: nat, value: nat)
      requires Valid() && x in live
      modifies mem
      ensures Valid() && x < numObjects && mem[..] == old(mem[..])[x := Content(value)]
      ensures Headed(old(Plain(mem[..])), heads) && Runs(Plain(mem[..]), heads) == Runs(old(Plain(mem[..])), heads)
    {
      hide Partition, Headed, Runs, Ring;
      ghost var was := Plain(mem[..]);
      LiveInside(Runs(was, heads), live, numObjects, x);
      HeadsApart(was, heads, live);
      HeadersStay(was, heads, live, x, Data(value));
      Overwrite(mem[..], heads, first, last, x, Content(value));
      mem[x] := Content(value);
      assert Plain(mem[..]) == was[x := Data(value)];
    }
  }

  lemma RingEmpty(mem: seq<Slot>, heads: seq<nat>, first: Link, last: Link)
    requires Ring(mem, heads, first, last)
    ensures first == Root <==> heads == []
  {
  }

  /** What is not in the list may be overwritten. */
  lemma Overwrite(mem: seq<Slot>, heads: seq<nat>, first: Link, last: Link, k: nat, v: Slot)
    requires Ring(mem, heads, first, last) && k < |mem| && k !in heads
    ensures Ring(mem[k := v], heads, first, last)
  {
    var now := mem[k := v];
    forall i | 0 <= i < |heads| ensures Bound(now, heads, i) { assert Bound(mem, heads, i); }
  }

  lemma Recount(mem: seq<Slot>, heads: seq<nat>, first: Link, last: Link, k: nat, n: nat)
    requires Ring(mem, heads, first, last) && k < |mem| && mem[k].Block? && k !in heads
    ensures Ring(mem[k := mem[k].(count := n)], heads, first, last)
  {
    Overwrite(mem, heads, first, last, k, mem[k].(count := n));
  }

  /** A header at the first object that counts all of them. */
  lemma OneRun(mem: seq<Cell>, n: nat)
    requires |mem| == n >= 1 && mem[0] == Header(n)
    ensures Headed(mem, [0]) && Partition(Runs(mem, [0]), {}, n)
  {
    var free := Runs(mem, [0]);
    assert free == [Run(0, n)];
    assert forall x: nat :: x < n ==> InRun(x, free[0]);
    assert forall x: nat :: x < n ==> Listed(free, x);
    assert Total(free[1..]) == 0;
  }

  lemma LiveInside(free: seq<Run>, live: set<nat>, n: nat, x: nat)
    requires Partition(free, live, n) && x in live
    ensures x < n
  {
  }

  lemma AtLeastOne(a: nat, b: nat)
    requires a > b >= 1
    ensures a / b >= 1 && a / b * b <= a
  {
    assert a == a / b * b + a % b;
  }

  lemma Spread(a: nat, b: nat, s: nat)
    ensures (a + b) * s == a * s + b * s
  {
  }

  lemma Aligned(x: nat, s: nat)
    requires s >= 1
    ensures x * s / s == x
  {
    QuotientOf(x * s, s, x);
  }

  lemma QuotientOf(a: nat, s: nat, x: nat)
    requires s >= 1 && a == x * s
    ensures a / s == x
  {
    var q, r := a / s, a % s;
    assert a == q * s + r;
    assert (x - q) * s == r;
    if x != q { Far(x - q, s); }
  }

  lemma Far(k: int, s: int)
    requires k != 0 && s >= 1
    ensures k * s >= s || k * s <= -s
  {
  }

  /** With nothing free, every object is live. */
  lemma AllLive(live: set<nat>, n: nat)
    requires Partition([], live, n)
    ensures |live| == n && forall y: nat :: y < n ==> y in live
  {
    assert forall y: nat :: !Listed([], y);
  }

  /** Taking the last object of the first run. */
  lemma TakeOne(free: seq<Run>, live: set<nat>, n: nat)
    requires free != [] && Partition(free, live, n)
    ensures var r := free[0]; var left := r.count - 1; var x: int := r.first + left;
      && left >= 0 && 0 <= x < n && x !in live && |live| < n
      && Partition(if left > 0 then free[1..] + [Run(r.first, left)] else free[1..], live + {x}, n)
  {
    hide Listed, Disjoint;
    var r, t := free[0], free[1..];
    var left: nat := r.count - 1;
    var x: nat := r.first + left;
    var rest := Run(r.first, left);
    DisjointTail(free);
    forall y: nat ensures Listed(free, y) <==> InRun(y, r) || Listed(t, y) { ListedHead(free, y); }
    forall y: nat | InRun(y, r) ensures !Listed(t, y) { DisjointHead(free, y); }
    forall y: nat ensures Listed(t + [rest], y) <==> Listed(t, y) || InRun(y, rest) { ListedAppend(t, rest, y); }
    TotalAppend(t, rest);
    if left > 0 { DisjointAppend(t, rest); }
  }

  lemma GiveBack(free: seq<Run>, live: set<nat>, n: nat, x: nat)
    requires Partition(free, live, n) && x in live
    ensures Partition(free + [Run(x, 1)], live - {x}, n)
  {
    hide Listed, Disjoint;
    var r := Run(x, 1);
    TotalAppend(free, r);
    forall y: nat ensures Listed(free + [r], y) <==> Listed(free, y) || InRun(y, r) { ListedAppend(free, r, y); }
    DisjointAppend(free, r);
  }

  /** Live objects lie inside the arena, start at multiples of the object size, and do not overlap. */
  lemma LiveApart(pool: Pool, x: nat, y: nat)
    requires pool.Valid() && x in pool.live && y in pool.live && x != y
    ensures pool.Address(x) + pool.objectSize <= pool.addr + pool.numObjects * pool.objectSize
    ensures pool.Address(x) + pool.objectSize <= pool.Address(y) || pool.Address(y) + pool.objectSize <= pool.Address(x)
  {
    Fits(x + 1, pool.numObjects, pool.objectSize);
    if x < y { Fits(x + 1, y, pool.objectSize); } else { Fits(y + 1, x, pool.objectSize); }
    Spread(x, 1, pool.objectSize);
    Spread(y, 1, pool.objectSize);
  }

  lemma Fits(a: nat, b: nat, s: nat)
    requires a <= b
    ensures a * s <= b * s
  {
  }
}
