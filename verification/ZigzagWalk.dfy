/** The placement path as a walk from module to module: up from the lower right corner in a column
    of two modules, the right one first; at the edge one column to the left and back, past the
    timing column. */
module ZigzagWalk {
  import opened Zigzag

  /** Where the walk stands, and whether it goes up. */
  datatype Walker = Walker(row: int, col: int, up: bool)

  /** The column is the right one of its two. */
  predicate OnRight(n: nat, col: int) {
    if col > 6 then (n - 1 - col) % 2 == 0 else col % 2 == 1
  }

  /** One module further. */
  function Onward(n: nat, w: Walker): Walker {
    var row := if w.up then w.row - 1 else w.row + 1;
    if OnRight(n, w.col) then w.(col := w.col - 1)
    else if 0 <= row < n then w.(row := row, col := w.col + 1)
    else Walker(w.row, if w.col == 7 then 5 else w.col - 1, !w.up)
  }

  /** The blank modules that a walk of `k` modules from `w` on passes. */
  ghost function Wander(template: Grid, n: nat, w: Walker, k: nat): seq<(nat, nat)>
    decreases k
  {
    if k == 0 then []
    else
      (if BlankAt(template, w.row, w.col) then [(w.row as nat, w.col as nat)] else [])
      + Wander(template, n, Onward(n, w), k - 1)
  }

  /** Where the loops stand at side `i` of step `r` of pair `t`. */
  function Place(n: nat, t: nat, r: nat, i: nat): Walker {
    Walker(RowAt(n, t, r), PairColumn(n, t) - i, t % 2 == 0)
  }

  lemma Sideways(n: nat, t: nat, r: nat)
    requires Size(n) && t < (n - 1) / 2 && r < n
    ensures Onward(n, Place(n, t, r, 0)) == Place(n, t, r, 1)
  {
  }

  lemma AlongOrBack(n: nat, t: nat, r: nat)
    requires Size(n) && t < (n - 1) / 2 && r < n
    ensures Onward(n, Place(n, t, r, 1)) == if r + 1 < n then Place(n, t, r + 1, 0) else Place(n, t + 1, 0, 0)
  {
  }

  /** How many modules are left from step `r` of pair `t` on. */
  ghost function Left(n: nat, t: nat, r: nat): int {
    2 * (n - r) + 2 * n * ((n - 1) / 2 - t - 1)
  }

  lemma LeftLess(n: nat, t: nat, r: nat)
    requires Size(n) && t < (n - 1) / 2 && r < n
    ensures r + 1 < n ==> Left(n, t, r) == Left(n, t, r + 1) + 2
    ensures r + 1 == n && t + 1 < (n - 1) / 2 ==> Left(n, t, r) == Left(n, t + 1, 0) + 2
    ensures r + 1 == n && t + 1 == (n - 1) / 2 ==> Left(n, t, r) == 2
    ensures Left(n, t, r) >= 2
  {
    var q := (n - 1) / 2 - t - 1;
    assert 2 * n * q >= 0;
    if q >= 1 { NextPairCount(n, q); }
  }

  lemma {:induction false} WanderOn(template: Grid, n: nat, t: nat, r: nat)
    requires Size(n) && t < (n - 1) / 2 && r < n && Left(n, t, r) >= 0
    ensures PathTo(template, n, t, r, 0) + Wander(template, n, Place(n, t, r, 0), Left(n, t, r)) == Path(template, n)
    decreases (n - 1) / 2 - t, n - r
  {
    hide Wander, PathTo, Onward, BlankAt, Left, Size, Place, Path;
    LeftLess(n, t, r);
    TwoModules(template, n, t, r, Left(n, t, r));
    if r + 1 < n {
      WanderOn(template, n, t, r + 1);
    } else if t + 1 < (n - 1) / 2 {
      WanderOn(template, n, t + 1, 0);
    } else {
      WalkEnds(template, n, t, Left(n, t, r));
      assert Path(template, n) + [] == Path(template, n);
    }
  }

  lemma NextPairCount(n: nat, q: nat)
    requires q >= 1
    ensures 2 * n * q == 2 * n + 2 * n * (q - 1)
  {
  }

  /** Two modules of a step move from the walk to the path. */
  lemma TwoModules(template: Grid, n: nat, t: nat, r: nat, k: nat)
    requires Size(n) && t < (n - 1) / 2 && r < n && k >= 2
    ensures PathTo(template, n, t, r, 0) + Wander(template, n, Place(n, t, r, 0), k)
      == (if r + 1 < n then PathTo(template, n, t, r + 1, 0) else PathTo(template, n, t + 1, 0, 0))
         + Wander(template, n, if r + 1 < n then Place(n, t, r + 1, 0) else Place(n, t + 1, 0, 0), k - 2)
  {
    hide Onward;
    Sideways(n, t, r);
    AlongOrBack(n, t, r);
    var a, b := Place(n, t, r, 0), Place(n, t, r, 1);
    var x := if BlankAt(template, a.row, a.col) then [(a.row as nat, a.col as nat)] else [];
    var y := if BlankAt(template, b.row, b.col) then [(b.row as nat, b.col as nat)] else [];
    var rest := Wander(template, n, if r + 1 < n then Place(n, t, r + 1, 0) else Place(n, t + 1, 0, 0), k - 2);
    assert Wander(template, n, b, k - 1) == y + rest;
    assert Wander(template, n, a, k) == x + (y + rest);
    assert PathTo(template, n, t, r, 1) == PathTo(template, n, t, r, 0) + x;
    assert PathTo(template, n, t, r, 2) == PathTo(template, n, t, r, 1) + y;
    assert PathTo(template, n, t, r + 1, 0) == PathTo(template, n, t, r, 2);
    if r + 1 == n { assert PathTo(template, n, t + 1, 0, 0) == PathTo(template, n, t, n, 0); }
  }

  lemma WalkEnds(template: Grid, n: nat, t: nat, k: nat)
    requires Size(n) && t + 1 == (n - 1) / 2 && k == 2
    ensures Wander(template, n, Place(n, t + 1, 0, 0), k - 2) == []
    ensures PathTo(template, n, t + 1, 0, 0) == Path(template, n)
  {
  }

  /** The path is the blank modules of the walk from the lower right corner, upward, through all
      modules outside the timing column. */
  lemma PathIsWalk(template: Grid, n: nat)
    requires Size(n)
    ensures Path(template, n) == Wander(template, n, Walker(n - 1, n - 1, true), n * (n - 1))
  {
    hide Wander, PathTo, Left, Path;
    assert PathTo(template, n, 0, 0, 0) == [] by { NoPath(template, n); }
    AllModules(n, (n - 1) / 2);
    WanderOn(template, n, 0, 0);
    var all := Wander(template, n, Walker(n - 1, n - 1, true), n * (n - 1));
    assert [] + all == all;
  }

  lemma NoPath(template: Grid, n: nat)
    ensures PathTo(template, n, 0, 0, 0) == []
  {
  }

  lemma AllModules(n: nat, h: nat)
    requires n == 2 * h + 1 && h >= 1
    ensures Left(n, 0, 0) == n * (n - 1)
  {
    hide Left;
    NextPairCount(n, h);
    assert (n - 1) / 2 == h;
    assert Left(n, 0, 0) == 2 * n + 2 * n * (h - 1) by { FromStart(n, h); }
    assert 2 * n * h == n * (2 * h);
  }

  lemma FromStart(n: nat, h: nat)
    requires (n - 1) / 2 == h
    ensures Left(n, 0, 0) == 2 * n + 2 * n * (h - 1)
  {
  }
}
