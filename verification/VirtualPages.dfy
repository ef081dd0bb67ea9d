/** The map of a process's dynamic virtual pages: runs of pages in use, each closed by an end
    mark. */
module VirtualPages {

  datatype Page = Unused | Using | End

  const PAGE_SIZE := 4096

  /** Pages `i` to `i + num` are free. */
  ghost predicate Free(pages: seq<Page>, i: nat, num: nat) {
    i + num <= |pages| && forall x :: i <= x < i + num ==> pages[x] == Unused
  }

  /** A run in use at `s`, `len` pages long. */
  ghost predicate RunAt(pages: seq<Page>, s: nat, len: nat) {
    && len >= 1 && s + len <= |pages| && pages[s + len - 1] == End
    && (forall x :: s <= x < s + len - 1 ==> pages[x] == Using)
  }

  ghost predicate Inside(x: nat, s: nat, len: nat) {
    s <= x < s + len
  }

  ghost predicate AllRuns(pages: seq<Page>, live: map<nat, nat>) {
    forall s :: s in live ==> RunAt(pages, s, live[s])
  }

  /** No page is in two runs. */
  ghost predicate Apart(live: map<nat, nat>) {
    forall s, t, x :: s in live && t in live && Inside(x, s, live[s]) && Inside(x, t, live[t]) ==> s == t
  }

  ghost predicate Owned(live: map<nat, nat>, x: nat) {
    exists s :: s in live && Inside(x, s, live[s])
  }

  ghost predicate Covered(pages: seq<Page>, live: map<nat, nat>) {
    forall x: nat :: x < |pages| && pages[x] != Unused ==> Owned(live, x)
  }

  /** The pages are tiled: runs that do not overlap, and free pages. */
  ghost predicate Tiled(pages: seq<Page>, live: map<nat, nat>) {
    AllRuns(pages, live) && Apart(live) && Covered(pages, live)
  }

  class VmSpace {
    const pages: array<Page>
    const base: nat
    /** Runs in use: where they start and how long they are. */
    ghost var live: map<nat, nat>

    ghost predicate Valid()
      reads this, pages
    {
      Tiled(pages[..], live)
    }

    constructor (max: nat, base: nat)
      ensures Valid() && live == map[] && pages.Length == max && this.base == base && fresh(pages)
      ensures Free(pages[..], 0, max)
    {
      pages := new Page[max](_ => Unused);
      this.base := base;
      live := map[];
    }

    ghost function Address(i: nat): nat {
      base + i * PAGE_SIZE
    }

    /** How many of the `num` pages from `i` on are free before one is not. */
    method CountFree(i: nat, num: nat) returns (j: nat)
      requires i < pages.Length
      ensures j <= num && (j == num <==> Free(pages[..], i, num))
    {
      j := 0;
      while i + j < pages.Length && j < num
        invariant j <= num && i + j <= pages.Length && forall x :: i <= x < i + j ==> pages[x] == Unused
      {
        if pages[i + j] != Unused {
          assert pages[..][i + j] != Unused;
          return;
        }
        j := j + 1;
      }
    }

    /** Marks `num` pages as a run. */
    method Mark(i: nat, num: nat)
      requires Valid() && num >= 1 && Free(pages[..], i, num)
      modifies pages, `live
      ensures Valid() && live == old(live)[i := num] && i !in old(live) && pages[..] == Marked(old(pages[..]), i, num)
    {
      hide Tiled;
      ghost var was := pages[..];
      var j := 0;
      while j < num
        invariant 0 <= j <= num && live == old(live)
        invariant forall x :: 0 <= x < pages.Length ==> pages[x] == if Inside(x, i, j) then Using else was[x]
      {
        pages[i + j] := Using;
        j := j + 1;
      }
      pages[i + num - 1] := End;
      assert pages[..] == Marked(was, i, num);
      MarkTiles(was, live, i, num);
      live := live[i := num];
    }

    /** Takes the lowest free run of `num` pages. Zero means that there is none, except exactly
        when the area starts at address zero and its first `num` pages are free. */
    method Valloc(num: nat) returns (addr: nat, ghost at: nat)
      requires Valid() && num >= 1
      modifies pages, `live
      ensures Valid()
      ensures at < pages.Length ==>
        old(Free(pages[..], at, num)) && (forall k: nat :: k < at ==> !old(Free(pages[..], k, num)))
      ensures at < pages.Length ==> addr == Address(at) && live == old(live)[at := num] && at !in old(live)
      ensures at < pages.Length ==> pages[..] == Marked(old(pages[..]), at, num)
      ensures at >= pages.Length ==>
        addr == 0 && (forall k: nat :: !old(Free(pages[..], k, num))) && live == old(live)
        && pages[..] == old(pages[..])
      ensures (addr == 0 <==> forall k: nat :: !old(Free(pages[..], k, num))) <==>
        (base > 0 || !old(Free(pages[..], 0, num)))
    {
      hide Tiled, Marked, Free;
      var i := 0;
      while i < pages.Length
        invariant 0 <= i <= pages.Length && pages[..] == old(pages[..]) && live == old(live)
        invariant forall k: nat :: k < i ==> !Free(pages[..], k, num)
      {
        var j := CountFree(i, num);
        if j == num {
          Mark(i, num);
          return base + i * PAGE_SIZE, i;
        }
        i := i + 1;
      }
      NoneBeyond(pages[..], num);
      return 0, pages.Length;
    }

    /** Gives back the run that starts at `vaddr`: its pages and no others. */
    method Vfree(vaddr: nat, ghost at: nat)
      requires Valid() && at in live && vaddr == Address(at)
      modifies pages, `live
      ensures Valid() && live == old(live) - {at}
      ensures pages[..] == Cleared(old(pages[..]), at, old(live[at]))
    {
      hide Apart, Covered, AllRuns;
      ghost var was, len := pages[..], live[at];
      var start := (vaddr - base) / PAGE_SIZE;
      LiveRun(was, live, at);
      var i := start;
      while i < pages.Length
        invariant start <= i < start + len && live == old(live)
        invariant forall x :: 0 <= x < pages.Length ==>
          pages[x] == if Inside(x, start, i - start) then Unused else was[x]
      {
        var kind := pages[i];
        pages[i] := Unused;
        if kind == End { break; }
        i := i + 1;
      }
      assert pages[..] == Cleared(was, at, len);
      FreeTiles(was, live, at);
      live := live - {at};
    }
  }

  /** In an area at address zero a call that succeeds answers zero, as one that fails does. */
  method AreaAtZero(max: nat, num: nat) returns (space: VmSpace, addr: nat)
    requires 1 <= num <= max
    ensures fresh(space) && space.base == 0 && space.pages.Length == max
    ensures addr == 0 && space.live == map[0 := num]
  {
    hide Tiled, Marked;
    space := new VmSpace(max, 0);
    assert Free(space.pages[..], 0, num);
    ghost var at;
    addr, at := space.Valloc(num);
  }

  lemma NoneBeyond(pages: seq<Page>, num: nat)
    requires num >= 1
    ensures forall k: nat :: k >= |pages| ==> !Free(pages, k, num)
  {
  }

  lemma LiveRun(pages: seq<Page>, live: map<nat, nat>, s: nat)
    requires Tiled(pages, live) && s in live
    ensures RunAt(pages, s, live[s])
  {
  }

  /** The pages of a run are in use. */
  lemma RunUsed(pages: seq<Page>, s: nat, len: nat, x: nat)
    requires RunAt(pages, s, len) && Inside(x, s, len)
    ensures x < |pages| && pages[x] != Unused
  {
  }

  /** A run stays one when its own pages do not change. */
  lemma RunKept(was: seq<Page>, now: seq<Page>, s: nat, len: nat)
    requires RunAt(was, s, len) && |was| == |now|
      && forall x: nat :: Inside(x, s, len) && x < |was| ==> now[x] == was[x]
    ensures RunAt(now, s, len)
  {
    assert Inside(s + len - 1, s, len);
    forall x | s <= x < s + len - 1 ensures now[x] == Using { assert Inside(x, s, len); }
  }

  ghost function Marked(was: seq<Page>, i: nat, num: nat): (now: seq<Page>)
    ensures |now| == |was|
  {
    seq(|was|, x requires 0 <= x < |was| =>
      if x == i + num - 1 then End else if Inside(x, i, num) then Using else was[x])
  }

  lemma MarkApart(was: seq<Page>, live: map<nat, nat>, i: nat, num: nat)
    requires AllRuns(was, live) && Apart(live) && Free(was, i, num) && num >= 1
    ensures i !in live && Apart(live[i := num])
    ensures forall s, x: nat :: s in live && Inside(x, s, live[s]) ==> !Inside(x, i, num)
  {
    hide RunAt;
    forall s, x: nat | s in live && Inside(x, s, live[s]) ensures !Inside(x, i, num) {
      assert RunAt(was, s, live[s]);
      RunUsed(was, s, live[s], x);
    }
    assert Inside(i, i, num);
    if i in live {
      RunAtLong(was, i, live[i]);
    }
  }

  lemma RunAtLong(pages: seq<Page>, s: nat, len: nat)
    requires RunAt(pages, s, len)
    ensures len >= 1
  {
  }

  lemma MarkTiles(was: seq<Page>, live: map<nat, nat>, i: nat, num: nat)
    requires Tiled(was, live) && num >= 1 && Free(was, i, num)
    ensures Tiled(Marked(was, i, num), live[i := num]) && i !in live
  {
    hide RunAt, Apart, Owned;
    var now, live' := Marked(was, i, num), live[i := num];
    MarkApart(was, live, i, num);
    forall s | s in live' ensures RunAt(now, s, live'[s]) {
      if s != i {
        assert RunAt(was, s, live[s]);
        RunKept(was, now, s, live[s]);
      } else {
        MarkedRun(was, i, num);
      }
    }
    forall x: nat | x < |now| && now[x] != Unused ensures Owned(live', x) {
      if Inside(x, i, num) {
        OwnedBy(live', x, i);
      } else {
        OwnedMore(live, i, num, x);
      }
    }
  }

  lemma MarkedRun(was: seq<Page>, i: nat, num: nat)
    requires num >= 1 && i + num <= |was|
    ensures RunAt(Marked(was, i, num), i, num)
  {
  }

  lemma OwnedBy(live: map<nat, nat>, x: nat, s: nat)
    requires s in live && Inside(x, s, live[s])
    ensures Owned(live, x)
  {
  }

  lemma OwnedMore(live: map<nat, nat>, i: nat, num: nat, x: nat)
    requires Owned(live, x) && i !in live
    ensures Owned(live[i := num], x)
  {
    var s :| s in live && Inside(x, s, live[s]);
    OwnedBy(live[i := num], x, s);
  }

  ghost function Cleared(was: seq<Page>, i: nat, num: nat): (now: seq<Page>)
    ensures |now| == |was|
  {
    seq(|was|, x requires 0 <= x < |was| => if Inside(x, i, num) then Unused else was[x])
  }

  lemma FreeTiles(was: seq<Page>, live: map<nat, nat>, at: nat)
    requires Tiled(was, live) && at in live
    ensures Tiled(Cleared(was, at, live[at]), live - {at})
  {
    hide RunAt, Owned;
    var now, live' := Cleared(was, at, live[at]), live - {at};
    forall s | s in live' ensures RunAt(now, s, live'[s]) {
      assert RunAt(was, s, live[s]);
      RunKept(was, now, s, live[s]);
    }
    forall x: nat | x < |now| && now[x] != Unused ensures Owned(live', x) { OwnedLess(live, at, x); }
  }

  lemma OwnedLess(live: map<nat, nat>, at: nat, x: nat)
    requires Owned(live, x) && at in live && !Inside(x, at, live[at])
    ensures Owned(live - {at}, x)
  {
    var s :| s in live && Inside(x, s, live[s]);
    OwnedBy(live - {at}, x, s);
  }
}
