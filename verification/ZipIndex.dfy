/** The sorted index of an archive's file names and the search in it. */
module ZipIndex {
  import opened Values

  type Name = seq<Byte>

  /** Capital letters count as small ones. */
  function ToLower(c: Byte): Byte {
    if 65 <= c <= 90 then c - 65 + 97 else c
  }

  const CAPITALS: string := "ABCDEFGHIJKLMNOPQRSTUVWXYZ"
  const SMALL: string := "abcdefghijklmnopqrstuvwxyz"

  lemma Letters(i: nat)
    requires i < 26
    ensures CAPITALS[i] as int == 65 + i && SMALL[i] as int == 97 + i
  {
  }

  /** Each of the 26 capital letters counts as its small one, and every other byte as itself. */
  lemma FoldsCapitals(c: Byte)
    ensures forall i :: 0 <= i < 26 && CAPITALS[i] as int == c ==> ToLower(c) as int == SMALL[i] as int
    ensures (forall i :: 0 <= i < 26 ==> CAPITALS[i] as int != c) ==> ToLower(c) == c
  {
    forall i: nat | i < 26 ensures CAPITALS[i] as int == 65 + i && SMALL[i] as int == 97 + i { Letters(i); }
    if 65 <= c <= 90 { assert CAPITALS[c - 65] as int == c; }
  }

  function Folded(name: Name): (r: Name)
    ensures |r| == |name| && forall i :: 0 <= i < |name| ==> r[i] == ToLower(name[i])
  {
    seq(|name|, i requires 0 <= i < |name| => ToLower(name[i]))
  }

  /** Dictionary order. */
  ghost predicate Before(a: Name, b: Name)
    decreases a
  {
    b != [] && (a == [] || a[0] < b[0] || (a[0] == b[0] && Before(a[1..], b[1..])))
  }

  lemma {:induction false} Trichotomy(a: Name, b: Name)
    ensures !(Before(a, b) && Before(b, a))
    ensures !Before(a, b) && !Before(b, a) ==> a == b
    ensures !Before(a, a)
    decreases a
  {
    if a != [] && b != [] && a[0] == b[0] {
      Trichotomy(a[1..], b[1..]);
      assert a == [a[0]] + a[1..] && b == [b[0]] + b[1..];
    }
    if a != [] { Trichotomy(a[1..], a[1..]); }
  }

  lemma {:induction false} BeforeTransitive(a: Name, b: Name, c: Name)
    requires Before(a, b) && Before(b, c)
    ensures Before(a, c)
    decreases a
  {
    if a != [] && a[0] == b[0] == c[0] { BeforeTransitive(a[1..], b[1..], c[1..]); }
  }

  /** Where two names first differ decides. */
  lemma {:induction false} DecidedAt(a: Name, b: Name, k: nat)
    requires k <= |a| && k <= |b| && a[..k] == b[..k]
    ensures k < |a| && k < |b| && a[k] != b[k] ==> (Before(a, b) <==> a[k] < b[k])
    ensures k == |a| || k == |b| ==> (Before(a, b) <==> |a| < |b|)
    decreases k
  {
    if k > 0 {
      assert a[0] == a[..k][0] == b[..k][0] == b[0];
      assert a[1..][..k - 1] == a[..k][1..] == b[..k][1..] == b[1..][..k - 1];
      DecidedAt(a[1..], b[1..], k - 1);
    }
  }

  // ---- Comparing two names as the archive does.

  /** How many leading bytes agree, up to the length of the shorter name. */
  method Agreement(l: Name, r: Name) returns (k: nat)
    ensures k <= |l| && k <= |r| && Folded(l)[..k] == Folded(r)[..k]
    ensures k == |l| || k == |r| || ToLower(l[k]) != ToLower(r[k])
  {
    k := 0;
    while k < |l| && k < |r|
      invariant k <= |l| && k <= |r| && Folded(l)[..k] == Folded(r)[..k]
    {
      if ToLower(l[k]) != ToLower(r[k]) { return; }
      k := k + 1;
    }
  }

  method FilenameLess(l: Name, r: Name) returns (less: bool)
    ensures less <==> Before(Folded(l), Folded(r))
  {
    var k := Agreement(l, r);
    DecidedAt(Folded(l), Folded(r), k);
    less := if k == |l| || k == |r| then |l| < |r| else ToLower(l[k]) < ToLower(r[k]);
  }

  method FilenameCompare(l: Name, r: Name) returns (comp: int)
    ensures comp == 0 <==> Folded(l) == Folded(r)
    ensures comp < 0 <==> Before(Folded(l), Folded(r))
    ensures comp > 0 <==> Before(Folded(r), Folded(l))
  {
    var k := Agreement(l, r);
    DecidedAt(Folded(l), Folded(r), k);
    DecidedAt(Folded(r), Folded(l), k);
    Trichotomy(Folded(l), Folded(r));
    Trichotomy(Folded(l), Folded(l));
    comp := if k == |l| || k == |r| then |l| - |r| else ToLower(l[k]) as int - ToLower(r[k]) as int;
  }

  // ---- The heap.

  /** Entry `i` may stand before entry `j`. */
  ghost predicate Le(names: seq<Name>, i: nat, j: nat) {
    i < |names| && j < |names| && !Before(Folded(names[j]), Folded(names[i]))
  }

  lemma LeTotal(names: seq<Name>, i: nat, j: nat)
    requires i < |names| && j < |names|
    ensures Le(names, i, j) || Le(names, j, i)
  {
    Trichotomy(Folded(names[i]), Folded(names[j]));
  }

  lemma LeTransitive(names: seq<Name>, i: nat, j: nat, k: nat)
    requires Le(names, i, j) && Le(names, j, k)
    ensures Le(names, i, k)
  {
    var a, b, c := Folded(names[i]), Folded(names[j]), Folded(names[k]);
    if Before(c, a) {
      Trichotomy(a, b);
      if a == b {
      } else {
        BeforeTransitive(c, a, b);
      }
    }
  }

  ghost predicate Entries(names: seq<Name>, s: seq<nat>) {
    forall i :: 0 <= i < |s| ==> s[i] < |names|
  }

  /** The children of place `r`, below `end`, do not come after it. */
  ghost predicate Tops(names: seq<Name>, s: seq<nat>, r: nat, end: nat) {
    && end <= |s|
    && (2 * r + 1 < end ==> Le(names, s[2 * r + 1], s[r]))
    && (2 * r + 2 < end ==> Le(names, s[2 * r + 2], s[r]))
  }

  /** A heap from place `lo` on, except perhaps at `hole`. */
  ghost predicate HeapBut(names: seq<Name>, s: seq<nat>, lo: nat, end: nat, hole: nat) {
    forall r: nat :: lo <= r < end && r != hole ==> Tops(names, s, r, end)
  }

  /** What is below the hole does not come after what is above it. */
  ghost predicate Bridged(names: seq<Name>, s: seq<nat>, lo: nat, end: nat, hole: nat) {
    forall p: nat :: lo <= p && (hole == 2 * p + 1 || hole == 2 * p + 2) ==> Over(names, s, p, hole, end)
  }

  ghost predicate Over(names: seq<Name>, s: seq<nat>, p: nat, hole: nat, end: nat) {
    && end <= |s| && p < |s|
    && (2 * hole + 1 < end ==> Le(names, s[2 * hole + 1], s[p]))
    && (2 * hole + 2 < end ==> Le(names, s[2 * hole + 2], s[p]))
  }

  ghost function Swapped(s: seq<nat>, i: nat, j: nat): (r: seq<nat>)
    requires i < |s| && j < |s|
    ensures |r| == |s|
  {
    s[i := s[j]][j := s[i]]
  }

  lemma SwapPermutes(s: seq<nat>, i: nat, j: nat)
    requires i < |s| && j < |s|
    ensures multiset(Swapped(s, i, j)) == multiset(s)
  {
    var a := s[i := s[j]];
    assert multiset(a) == multiset(s) - multiset{s[i]} + multiset{s[j]};
    assert multiset(a[j := s[i]]) == multiset(a) - multiset{a[j]} + multiset{s[i]};
  }

  /** Moving the larger child up moves the hole down. */
  lemma SiftStep(names: seq<Name>, s: seq<nat>, lo: nat, end: nat, root: nat, child: nat)
    requires Entries(names, s) && lo <= root && end <= |s| && (child == 2 * root + 1 || child == 2 * root + 2)
      && child < end
    requires HeapBut(names, s, lo, end, root) && Bridged(names, s, lo, end, root)
    requires Le(names, s[root], s[child])
    requires 2 * root + 1 < end ==> Le(names, s[2 * root + 1], s[child])
    requires 2 * root + 2 < end ==> Le(names, s[2 * root + 2], s[child])
    ensures var s' := Swapped(s, root, child);
      HeapBut(names, s', lo, end, child) && Bridged(names, s', lo, end, child) && Entries(names, s')
  {
    hide Le;
    var s' := Swapped(s, root, child);
    forall r: nat | lo <= r < end && r != child ensures Tops(names, s', r, end) {
      if r == root {
      } else {
        assert Tops(names, s, r, end);
        if root == 2 * r + 1 || root == 2 * r + 2 { assert Over(names, s, r, root, end); }
      }
    }
    forall p: nat | lo <= p && (child == 2 * p + 1 || child == 2 * p + 2) ensures Over(names, s', p, child, end) {
      assert p == root;
      assert Tops(names, s, child, end);
    }
  }

  /** No larger child: the hole is closed. */
  lemma SiftDone(names: seq<Name>, s: seq<nat>, lo: nat, end: nat, root: nat)
    requires HeapBut(names, s, lo, end, root) && end <= |s|
    requires Tops(names, s, root, end)
    ensures HeapBut(names, s, lo, end, end)
  {
    hide Tops;
  }

  /** The larger child of `root`, and whether it comes after `root`. */
  method LargerChild(a: array<nat>, names: seq<Name>, root: nat, end: nat) returns (child: nat, larger: bool)
    requires Entries(names, a[..]) && 2 * root + 1 < end <= a.Length
    ensures (child == 2 * root + 1 || child == 2 * root + 2) && child < end
    ensures Le(names, a[2 * root + 1], a[child]) && (2 * root + 2 < end ==> Le(names, a[2 * root + 2], a[child]))
    ensures larger ==> Le(names, a[root], a[child])
    ensures !larger ==> Tops(names, a[..], root, end)
  {
    child := 2 * root + 1;
    LeTotal(names, a[child], a[child]);
    if child + 1 < end {
      var less := FilenameLess(names[a[child]], names[a[child + 1]]);
      if less {
        Trichotomy(Folded(names[a[child]]), Folded(names[a[child + 1]]));
        child := child + 1;
        LeTotal(names, a[child], a[child]);
      }
    }
    larger := FilenameLess(names[a[root]], names[a[child]]);
    if larger {
      Trichotomy(Folded(names[a[root]]), Folded(names[a[child]]));
    } else {
      assert Le(names, a[child], a[root]);
      LeTransitive(names, a[2 * root + 1], a[child], a[root]);
      if 2 * root + 2 < end { LeTransitive(names, a[2 * root + 2], a[child], a[root]); }
    }
  }

  /** Lets the entry at `start` sink to its place. */
  method Sift(a: array<nat>, names: seq<Name>, start: nat, end: nat, ghost lo: nat)
    requires Entries(names, a[..]) && lo <= start < end <= a.Length
    requires HeapBut(names, a[..], lo, end, start) && Bridged(names, a[..], lo, end, start)
    modifies a
    ensures Entries(names, a[..]) && HeapBut(names, a[..], lo, end, end)
    ensures multiset(a[..]) == multiset(old(a[..])) && a[end..] == old(a[end..])
    ensures multiset(a[..end]) == multiset(old(a[..end]))
  {
    hide Le, Tops, Over, Entries, HeapBut, Bridged;
    var root := start;
    while true
      invariant lo <= root < end && Entries(names, a[..]) && HeapBut(names, a[..], lo, end, root)
        && Bridged(names, a[..], lo, end, root)
      invariant multiset(a[..]) == multiset(old(a[..])) && a[end..] == old(a[end..])
        && multiset(a[..end]) == multiset(old(a[..end]))
      decreases end - root
    {
      if 2 * root + 1 >= end {
        TopsNothing(names, a[..], root, end);
        SiftDone(names, a[..], lo, end, root);
        return;
      }
      var child, larger := LargerChild(a, names, root, end);
      if !larger {
        SiftDone(names, a[..], lo, end, root);
        return;
      }
      SiftStep(names, a[..], lo, end, root, child);
      Exchange(a, root, child, end);
      root := child;
    }
  }

  lemma TopsNothing(names: seq<Name>, s: seq<nat>, r: nat, end: nat)
    requires 2 * r + 1 >= end && end <= |s|
    ensures Tops(names, s, r, end)
  {
  }

  /** Swaps two entries below `end`. */
  method Exchange(a: array<nat>, i: nat, j: nat, ghost end: nat)
    requires i < end && j < end <= a.Length
    modifies a
    ensures a[..] == Swapped(old(a[..]), i, j) && a[..end] == Swapped(old(a[..end]), i, j) && a[end..] == old(a[end..])
    ensures multiset(a[..]) == multiset(old(a[..])) && multiset(a[..end]) == multiset(old(a[..end]))
  {
    ghost var s, low := a[..], a[..end];
    SwapPermutes(s, i, j);
    SwapPermutes(low, i, j);
    a[i], a[j] := a[j], a[i];
    assert a[..] == Swapped(s, i, j);
    assert a[..end] == Swapped(low, i, j);
  }

  /** The top of a heap does not come before anything in it. */
  lemma {:induction false} HeapTop(names: seq<Name>, s: seq<nat>, end: nat, k: nat)
    requires Entries(names, s) && 0 < end <= |s| && HeapBut(names, s, 0, end, end) && k < end
    ensures Le(names, s[k], s[0])
    decreases k
  {
    hide Le;
    if k == 0 {
      LeTotal(names, s[0], s[0]);
    } else {
      var p := (k - 1) / 2;
      HeapTop(names, s, end, p);
      assert Tops(names, s, p, end);
      LeTransitive(names, s[k], s[p], s[0]);
    }
  }

  /** Places from `end` on are in order, and nothing below `end` comes after them. */
  ghost predicate Settled(names: seq<Name>, s: seq<nat>, end: nat) {
    forall i: nat, j: nat :: i < j < |s| && end <= j ==> Le(names, s[i], s[j])
  }

  /** Below `end` the entries may be rearranged. */
  lemma Rearranged(names: seq<Name>, s: seq<nat>, t: seq<nat>, end: nat)
    requires Settled(names, s, end) && |s| == |t| && end <= |s| && s[end..] == t[end..]
      && multiset(s[..end]) == multiset(t[..end])
    ensures Settled(names, t, end)
  {
    hide Le;
    forall i: nat, j: nat | i < j < |t| && end <= j ensures Le(names, t[i], t[j]) {
      assert t[j] == t[end..][j - end] == s[j];
      if i < end {
        assert t[..end][i] in multiset(t[..end]);
        assert t[i] in s[..end];
        var k :| 0 <= k < end && s[..end][k] == t[i];
        assert Le(names, s[k], s[j]);
      } else {
        assert t[i] == t[end..][i - end] == s[i];
      }
    }
  }

  /** Putting the top of the heap behind it settles one more place. */
  lemma TopOut(names: seq<Name>, s: seq<nat>, end: nat)
    requires Entries(names, s) && 0 < end < |s| && HeapBut(names, s, 0, end + 1, end + 1) && Settled(names, s, end + 1)
    ensures var s' := Swapped(s, end, 0);
      Settled(names, s', end) && HeapBut(names, s', 0, end, 0) && Bridged(names, s', 0, end, 0) && Entries(names, s')
  {
    hide Le;
    var s' := Swapped(s, end, 0);
    forall r: nat | 0 <= r < end && r != 0 ensures Tops(names, s', r, end) { assert Tops(names, s, r, end + 1); }
    forall i: nat, j: nat | i < j < |s'| && end <= j ensures Le(names, s'[i], s'[j]) {
      if j == end {
        HeapTop(names, s, end + 1, if i == 0 then end else i);
      } else {
        assert Le(names, s[if i == 0 then end else if i == end then 0 else i], s[j]);
      }
    }
  }

  /** Puts the top of the heap behind it and mends the heap. */
  method TakeTop(a: array<nat>, names: seq<Name>, end: nat)
    requires Entries(names, a[..]) && 0 < end < a.Length
    requires HeapBut(names, a[..], 0, end + 1, end + 1) && Settled(names, a[..], end + 1)
    modifies a
    ensures Entries(names, a[..]) && HeapBut(names, a[..], 0, end, end) && Settled(names, a[..], end)
    ensures multiset(a[..]) == multiset(old(a[..]))
  {
    hide Le, Tops, Over, Settled, HeapBut, Bridged, Entries;
    TopOut(names, a[..], end);
    Exchange(a, end, 0, end + 1);
    ghost var before := a[..];
    assert before[..end] == a[..end] && before[end..] == a[end..];
    Sift(a, names, 0, end, 0);
    assert a[..][..end] == a[..end] && a[..][end..] == a[end..];
    Rearranged(names, before, a[..], end);
  }

  /** Leaves are heaps; every place above them is sifted, the last first. */
  method BuildHeap(a: array<nat>, names: seq<Name>)
    requires Entries(names, a[..])
    modifies a
    ensures Entries(names, a[..]) && HeapBut(names, a[..], 0, a.Length, a.Length)
      && multiset(a[..]) == multiset(old(a[..]))
  {
    hide Le, Over, Entries;
    var size := a.Length;
    var start := if size < 2 then -1 else (size - 2) / 2;
    while start >= 0
      invariant -1 <= start && 2 * start + 1 < size && Entries(names, a[..])
      invariant HeapBut(names, a[..], start + 1, size, size) && multiset(a[..]) == multiset(old(a[..]))
    {
      Sift(a, names, start, size, start);
      start := start - 1;
    }
  }

  lemma SettledNone(names: seq<Name>, s: seq<nat>)
    ensures Settled(names, s, |s|)
  {
  }

  lemma SettledOne(names: seq<Name>, s: seq<nat>, end: nat)
    requires Settled(names, s, end) && end <= 1
    ensures Settled(names, s, 0)
  {
  }

  /** Sorts the index: a permutation, in the order of the folded names. */
  method SortByFilename(a: array<nat>, names: seq<Name>)
    requires Entries(names, a[..])
    modifies a
    ensures Entries(names, a[..]) && Settled(names, a[..], 0) && multiset(a[..]) == multiset(old(a[..]))
  {
    hide Le, Tops, Over, Settled, HeapBut, Bridged, Entries;
    BuildHeap(a, names);
    SettledNone(names, a[..]);
    var end := a.Length - 1;
    while end > 0
      invariant -1 <= end < a.Length && Entries(names, a[..]) && multiset(a[..]) == multiset(old(a[..]))
      invariant HeapBut(names, a[..], 0, end + 1, end + 1) && Settled(names, a[..], end + 1)
    {
      TakeTop(a, names, end);
      end := end - 1;
    }
    SettledOne(names, a[..], end + 1);
  }

  // ---- Searching.

  /** Entry `i` has the name that is looked for. */
  ghost predicate Named(names: seq<Name>, i: nat, name: Name) {
    i < |names| && Folded(names[i]) == Folded(name)
  }

  lemma {:induction false} InOrder(names: seq<Name>, s: seq<nat>, i: nat, j: nat)
    requires Entries(names, s) && Settled(names, s, 0) && i <= j < |s|
    ensures Le(names, s[i], s[j])
  {
    if i == j { LeTotal(names, s[i], s[j]); }
  }

  /** What comes before an entry that is too small is too small, and so at the other end. */
  lemma TooSmall(names: seq<Name>, s: seq<nat>, i: nat, m: nat, name: Name)
    requires Entries(names, s) && Settled(names, s, 0) && i <= m < |s| && Before(Folded(names[s[m]]), Folded(name))
    ensures !Named(names, s[i], name)
  {
    InOrder(names, s, i, m);
  }

  lemma TooLarge(names: seq<Name>, s: seq<nat>, i: nat, m: nat, name: Name)
    requires Entries(names, s) && Settled(names, s, 0) && m <= i < |s| && Before(Folded(name), Folded(names[s[m]]))
    ensures !Named(names, s[i], name)
  {
    InOrder(names, s, m, i);
  }

  /** Binary search in the sorted index. */
  method LocateBinary(s: seq<nat>, names: seq<Name>, name: Name) returns (r: int)
    requires Entries(names, s) && Settled(names, s, 0)
    ensures r == -1 || (r in s && Named(names, r, name))
    ensures r == -1 <==> forall i :: 0 <= i < |s| ==> !Named(names, s[i], name)
  {
    hide Settled, Named, Before;
    var l, h := 0, |s| - 1;
    while l <= h
      invariant 0 <= l && h < |s| && l <= h + 1
      invariant forall i :: 0 <= i < |s| && (i < l || h < i) ==> !Named(names, s[i], name)
      decreases h - l + 1
    {
      var m := (l + h) / 2;
      var comp := FilenameCompare(names[s[m]], name);
      if comp == 0 {
        IsNamed(names, s[m], name);
        return s[m];
      } else if comp < 0 {
        forall i | 0 <= i <= m ensures !Named(names, s[i], name) { TooSmall(names, s, i, m, name); }
        l := m + 1;
      } else {
        forall i | m <= i < |s| ensures !Named(names, s[i], name) { TooLarge(names, s, i, m, name); }
        h := m - 1;
      }
    }
    r := -1;
  }

  lemma IsNamed(names: seq<Name>, i: nat, name: Name)
    requires i < |names| && Folded(names[i]) == Folded(name)
    ensures Named(names, i, name)
  {
  }

  method StringEqual(a: Name, b: Name) returns (same: bool)
    requires |a| == |b|
    ensures same <==> Folded(a) == Folded(b)
  {
    var i := 0;
    while i < |a|
      invariant 0 <= i <= |a| && Folded(a)[..i] == Folded(b)[..i]
    {
      if ToLower(a[i]) != ToLower(b[i]) {
        assert Folded(a)[i] != Folded(b)[i];
        return false;
      }
      i := i + 1;
    }
    assert Folded(a)[..i] == Folded(a) && Folded(b)[..i] == Folded(b);
    same := true;
  }

  /** The scan through the entries in file order; names over 65535 bytes are not looked for. */
  method LocateLinear(names: seq<Name>, name: Name) returns (r: int)
    requires forall i :: 0 <= i < |names| ==> |names[i]| <= 0xFFFF
    ensures r == -1 <==> forall i :: 0 <= i < |names| ==> !Named(names, i, name)
    ensures r != -1 ==> 0 <= r && Named(names, r, name) && forall i :: 0 <= i < r ==> !Named(names, i, name)
  {
    if |name| > 0xFFFF { return -1; }
    var i := 0;
    while i < |names|
      invariant 0 <= i <= |names| && forall k :: 0 <= k < i ==> !Named(names, k, name)
    {
      if |names[i]| == |name| {
        var same := StringEqual(name, names[i]);
        if same {
          IsNamed(names, i, name);
          return i;
        }
      }
      i := i + 1;
    }
    r := -1;
  }

  /** Over an index that lists every entry, the search finds something exactly when the scan does. */
  lemma SearchesAgree(names: seq<Name>, s: seq<nat>, name: Name)
    requires Entries(names, s) && forall i :: 0 <= i < |names| ==> i in s
    ensures (forall i :: 0 <= i < |s| ==> !Named(names, s[i], name)) <==>
      (forall i :: 0 <= i < |names| ==> !Named(names, i, name))
  {
    hide Named;
    if forall i :: 0 <= i < |s| ==> !Named(names, s[i], name) {
      forall i | 0 <= i < |names| ensures !Named(names, i, name) {
        assert i in s;
        var k :| 0 <= k < |s| && s[k] == i;
      }
    }
  }

  /** The index of an archive as it is opened: every entry, sorted. */
  method BuildIndex(names: seq<Name>) returns (index: array<nat>)
    ensures fresh(index) && Entries(names, index[..]) && Settled(names, index[..], 0)
    ensures index.Length == |names| && forall i :: 0 <= i < |names| ==> i in index[..]
  {
    hide Settled, Le;
    index := new nat[|names|](i => i);
    ghost var all := index[..];
    assert forall i :: 0 <= i < |names| ==> all[i] == i;
    SortByFilename(index, names);
    forall i | 0 <= i < |names| ensures i in index[..] {
      assert all[i] in multiset(all);
    }
  }

  /** Looking a name up in the sorted index and scanning the entries agree: both find an entry of
      that folded name, or neither does. */
  method LocateBothWays(names: seq<Name>, name: Name) returns (found: int, first: int)
    requires forall i :: 0 <= i < |names| ==> |names[i]| <= 0xFFFF
    ensures found == -1 <==> first == -1
    ensures found != -1 ==> 0 <= first <= found && Named(names, found, name) && Named(names, first, name)
  {
    hide Settled, Named;
    var index := BuildIndex(names);
    found := LocateBinary(index[..], names, name);
    first := LocateLinear(names, name);
    SearchesAgree(names, index[..], name);
  }
}
