/** Placement of the bit stream in the symbol: column pairs from the right, alternately up and
    down, around what is already there (section 7.7.3 of ISO/IEC 18004). */
module Zigzag {

  datatype Module = Blank | Mark(dark: bool)

  type Grid = seq<seq<Module>>

  ghost predicate Square(g: Grid, n: nat) {
    |g| == n && forall row :: 0 <= row < n ==> |g[row]| == n
  }

  /** The eight mask patterns. */
  function Pattern(k: nat, row: nat, col: nat): bool
    requires k < 8
  {
    match k
    case 0 => (row + col) % 2 == 0
    case 1 => row % 2 == 0
    case 2 => col % 3 == 0
    case 3 => (row + col) % 3 == 0
    case 4 => (row / 2 + col / 3) % 2 == 0
    case 5 => row * col % 2 + row * col % 3 == 0
    case 6 => (row * col % 2 + row * col % 3) % 2 == 0
    case _ => ((row + col) % 2 + row * col % 3) % 2 == 0
  }

  // ---- The path. A place on it is a column pair, a step along it and a side.

  /** The right column of pair `t`; the timing pattern's column 6 is passed over. */
  function PairColumn(n: nat, t: nat): int {
    var column := n - 1 - 2 * t;
    if column <= 6 then column - 1 else column
  }

  function RowAt(n: nat, t: nat, r: nat): int {
    if t % 2 == 0 then n - 1 - r else r
  }

  /** Which pair a column belongs to, and on which side. */
  function PairOf(n: nat, col: nat): int {
    if col > 6 then (n - 1 - col) / 2 else (n - 2 - col) / 2
  }

  function SideOf(n: nat, col: nat): int {
    if col > 6 then (n - 1 - col) % 2 else (n - 2 - col) % 2
  }

  ghost predicate Size(n: nat) {
    n >= 21 && n % 4 == 1
  }

  /** A pair covers the two columns that belong to it. */
  lemma PairCovers(n: nat, t: nat, i: nat)
    requires Size(n) && t < (n - 1) / 2 && i < 2
    ensures var col := PairColumn(n, t) - i;
      0 <= col < n && col != 6 && PairOf(n, col) == t && SideOf(n, col) == i
  {
  }

  /** Every column but the sixth belongs to a pair. */
  lemma ColumnCovered(n: nat, col: nat)
    requires Size(n) && col < n && col != 6
    ensures 0 <= PairOf(n, col) < (n - 1) / 2 && 0 <= SideOf(n, col) < 2
    ensures PairColumn(n, PairOf(n, col)) - SideOf(n, col) == col
  {
    hide Size;
    SizeOdd(n);
    if col > 6 { RightCovered(n / 2, n - 1 - col); } else { LeftCovered(n / 2, n - 2 - col); }
  }

  lemma SizeOdd(n: nat)
    requires Size(n)
    ensures n == 2 * (n / 2) + 1 && n / 2 == (n - 1) / 2 >= 10
  {
  }

  lemma RightCovered(h: nat, x: nat)
    requires h >= 10 && x < 2 * h - 6
    ensures 0 <= x / 2 < h && 0 <= x % 2 < 2 && PairColumn(2 * h + 1, x / 2) - x % 2 == 2 * h - x
  {
  }

  lemma LeftCovered(h: nat, x: nat)
    requires h >= 10 && 2 * h - 6 <= x <= 2 * h - 1
    ensures 0 <= x / 2 < h && 0 <= x % 2 < 2 && PairColumn(2 * h + 1, x / 2) - x % 2 == 2 * h - 1 - x
  {
  }

  /** The place of a module on the path comes before step `r`, side `i` of pair `t`. */
  ghost predicate Done(n: nat, row: nat, col: nat, t: nat, r: nat, i: nat) {
    var pair, side := PairOf(n, col), SideOf(n, col);
    var step := if pair % 2 == 0 then n - 1 - row else row;
    col != 6 && (pair < t || (pair == t && (step < r || (step == r && side < i))))
  }

  /** Module (a, b) comes before module (c, d) on the path. */
  ghost predicate Precedes(n: nat, a: nat, b: nat, c: nat, d: nat) {
    d != 6 && 0 <= PairOf(n, d) && 0 <= SideOf(n, d) && c < n &&
    Done(n, a, b, PairOf(n, d), if PairOf(n, d) % 2 == 0 then n - 1 - c else c, SideOf(n, d))
  }

  ghost predicate BlankAt(g: Grid, row: int, col: int) {
    0 <= row < |g| && 0 <= col < |g[row]| && g[row][col] == Blank
  }

  /** The blank modules of the template up to step `r`, side `i` of pair `t`: each pair from step
      to step, the right side first. */
  ghost function PathTo(template: Grid, n: nat, t: nat, r: nat, i: nat): seq<(nat, nat)>
    decreases t, r, i
  {
    if i > 0 then
      var row, col := RowAt(n, t, r), PairColumn(n, t) - (i - 1);
      PathTo(template, n, t, r, i - 1) + if BlankAt(template, row, col) then [(row, col)] else []
    else if r > 0 then PathTo(template, n, t, r - 1, 2)
    else if t > 0 then PathTo(template, n, t - 1, n, 0)
    else []
  }

  /** The path through the blank modules of a symbol, known from the template alone. */
  ghost function Path(template: Grid, n: nat): seq<(nat, nat)> {
    PathTo(template, n, n / 2, 0, 0)
  }

  // ---- Placement.

  /** What is written for bit `j`: the bit, or a zero when there are no more, flipped by the mask. */
  function Written(bits: seq<bool>, k: nat, row: nat, col: nat, j: nat): Module
    requires k < 8
  {
    var bit := j < |bits| && bits[j];
    Mark(if Pattern(k, row, col) then !bit else bit)
  }

  /** `trace` lists the modules written so far, in the order of the path: all that were blank. */
  ghost predicate Placed(g: Grid, g0: Grid, n: nat, bits: seq<bool>, k: nat, trace: seq<(nat, nat)>, t: nat, r: nat,
                         i: nat) {
    && k < 8 && Square(g, n) && Square(g0, n)
    && (forall p :: p in trace ==> p.0 < n && p.1 < n && g0[p.0][p.1] == Blank && Done(n, p.0, p.1, t, r, i))
    && (forall row: nat, col: nat :: row < n && col < n && g0[row][col] == Blank && Done(n, row, col, t, r, i) ==>
      (row, col) in trace)
    && (forall j: nat :: j < |trace| ==> g[trace[j].0][trace[j].1] == Written(bits, k, trace[j].0, trace[j].1, j))
    && (forall row: nat, col: nat :: row < n && col < n && (row, col) !in trace ==> g[row][col] == g0[row][col])
    && (forall a: nat, b: nat :: a < b < |trace| ==> Precedes(n, trace[a].0, trace[a].1, trace[b].0, trace[b].1))
  }

  lemma DoneNext(n: nat, a: nat, b: nat, t: nat, r: nat, i: nat)
    requires Size(n) && t < (n - 1) / 2 && r < n && i < 2 && a < n && b < n
    ensures Done(n, a, b, t, r, i + 1) <==> Done(n, a, b, t, r, i) || (a == RowAt(n, t, r) && b == PairColumn(n, t) - i)
    ensures !Done(n, RowAt(n, t, r), PairColumn(n, t) - i, t, r, i)
  {
    hide Size, PairOf, SideOf, PairColumn;
    PairCovers(n, t, i);
    if b != 6 { ColumnCovered(n, b); }
  }

  lemma DoneTurns(n: nat, a: nat, b: nat, t: nat, r: nat)
    requires Size(n) && a < n && b < n
    ensures Done(n, a, b, t, r, 2) <==> Done(n, a, b, t, r + 1, 0)
    ensures Done(n, a, b, t, n, 0) <==> Done(n, a, b, t + 1, 0, 0)
    ensures b != 6 ==> Done(n, a, b, (n - 1) / 2, 0, 0)
  {
    hide Size, PairOf, SideOf, PairColumn;
    if b != 6 { ColumnCovered(n, b); }
  }

  /** A different way to say what is done keeps the invariant. */
  lemma SamePlaced(g: Grid, g0: Grid, n: nat, bits: seq<bool>, k: nat, trace: seq<(nat, nat)>, t: nat, r: nat, i: nat,
                   t': nat, r': nat, i': nat)
    requires Placed(g, g0, n, bits, k, trace, t, r, i)
    requires forall a: nat, b: nat :: a < n && b < n ==> (Done(n, a, b, t, r, i) <==> Done(n, a, b, t', r', i'))
    ensures Placed(g, g0, n, bits, k, trace, t', r', i')
  {
    hide Done, Precedes, Written;
  }

  lemma NextRow(g: Grid, g0: Grid, n: nat, bits: seq<bool>, k: nat, trace: seq<(nat, nat)>, t: nat, r: nat)
    requires Size(n) && Placed(g, g0, n, bits, k, trace, t, r, 2)
    ensures Placed(g, g0, n, bits, k, trace, t, r + 1, 0)
  {
    hide Done, Placed;
    forall a: nat, b: nat | a < n && b < n ensures Done(n, a, b, t, r, 2) <==> Done(n, a, b, t, r + 1, 0) {
      DoneTurns(n, a, b, t, r);
    }
    SamePlaced(g, g0, n, bits, k, trace, t, r, 2, t, r + 1, 0);
  }

  lemma NextPair(g: Grid, g0: Grid, n: nat, bits: seq<bool>, k: nat, trace: seq<(nat, nat)>, t: nat)
    requires Size(n) && Placed(g, g0, n, bits, k, trace, t, n, 0)
    ensures Placed(g, g0, n, bits, k, trace, t + 1, 0, 0)
  {
    hide Done, Placed;
    forall a: nat, b: nat | a < n && b < n ensures Done(n, a, b, t, n, 0) <==> Done(n, a, b, t + 1, 0, 0) {
      DoneTurns(n, a, b, t, 0);
    }
    SamePlaced(g, g0, n, bits, k, trace, t, n, 0, t + 1, 0, 0);
  }

  /** A module that was already there is passed over. */
  lemma PassOver(g: Grid, g0: Grid, n: nat, bits: seq<bool>, k: nat, trace: seq<(nat, nat)>, t: nat, r: nat, i: nat,
                 row: nat, col: nat)
    requires Size(n) && t < (n - 1) / 2 && r < n && i < 2 && row == RowAt(n, t, r) && col == PairColumn(n, t) - i
    requires row < n && col < n && Placed(g, g0, n, bits, k, trace, t, r, i) && g[row][col] != Blank
    ensures Placed(g, g0, n, bits, k, trace, t, r, i + 1) && !BlankAt(g0, row, col)
  {
    hide Done, Precedes, Written, PairColumn, RowAt, Size;
    forall a: nat, b: nat | a < n && b < n
      ensures Done(n, a, b, t, r, i + 1) <==> Done(n, a, b, t, r, i) || (a == row && b == col)
    {
      DoneNext(n, a, b, t, r, i);
    }
    DoneNext(n, row, col, t, r, i);
    assert (row, col) !in trace;
  }

  /** A blank module gets the next bit. */
  lemma FillIn(g: Grid, g0: Grid, n: nat, bits: seq<bool>, k: nat, trace: seq<(nat, nat)>, t: nat, r: nat, i: nat,
               row: nat, col: nat)
    requires Size(n) && t < (n - 1) / 2 && r < n && i < 2 && row == RowAt(n, t, r) && col == PairColumn(n, t) - i
    requires row < n && col < n && Placed(g, g0, n, bits, k, trace, t, r, i) && g[row][col] == Blank
    ensures Placed(g[row := g[row][col := Written(bits, k, row, col, |trace|)]], g0, n, bits, k,
                   trace + [(row, col)], t, r, i + 1)
    ensures BlankAt(g0, row, col)
  {
    hide Done, Precedes, Written, PairColumn, RowAt, Size;
    var g' := g[row := g[row][col := Written(bits, k, row, col, |trace|)]];
    var trace' := trace + [(row, col)];
    forall a: nat, b: nat | a < n && b < n
      ensures Done(n, a, b, t, r, i + 1) <==> Done(n, a, b, t, r, i) || (a == row && b == col)
    {
      DoneNext(n, a, b, t, r, i);
    }
    DoneNext(n, row, col, t, r, i);
    assert (row, col) !in trace && g0[row][col] == Blank;
    assert forall p :: p in trace' <==> p in trace || p == (row, col);
    FillOrder(n, trace, t, r, i, row, col);
    assert Square(g', n);
  }

  lemma FillOrder(n: nat, trace: seq<(nat, nat)>, t: nat, r: nat, i: nat, row: nat, col: nat)
    requires Size(n) && t < (n - 1) / 2 && r < n && i < 2 && row == RowAt(n, t, r) && col == PairColumn(n, t) - i
      && row < n && col < n
    requires forall p :: p in trace ==> Done(n, p.0, p.1, t, r, i)
    requires forall a: nat, b: nat :: a < b < |trace| ==> Precedes(n, trace[a].0, trace[a].1, trace[b].0, trace[b].1)
    ensures var trace' := trace + [(row, col)];
      forall a: nat, b: nat :: a < b < |trace'| ==> Precedes(n, trace'[a].0, trace'[a].1, trace'[b].0, trace'[b].1)
  {
    hide Done;
    var trace' := trace + [(row, col)];
    forall a: nat, b: nat | a < b < |trace'| ensures Precedes(n, trace'[a].0, trace'[a].1, trace'[b].0, trace'[b].1) {
      if b == |trace| {
        PlaceOf(n, t, r, i, row, col);
        assert trace[a] in trace;
      }
    }
  }

  lemma PlaceOf(n: nat, t: nat, r: nat, i: nat, row: nat, col: nat)
    requires Size(n) && t < (n - 1) / 2 && r < n && i < 2 && row == RowAt(n, t, r) && col == PairColumn(n, t) - i
      && row < n && col < n
    ensures col != 6 && PairOf(n, col) == t && SideOf(n, col) == i && r == if t % 2 == 0 then n - 1 - row else row
  {
    hide PairOf, SideOf, PairColumn;
    PairCovers(n, t, i);
  }

  /** One column pair, upward or downward. */
  method PlacePair(template: Grid, n: nat, bits: seq<bool>, k: nat, t: nat, used: nat, ghost g0: Grid)
    returns (g: Grid, used': nat)
    requires Size(n) && t < (n - 1) / 2 && used == |PathTo(g0, n, t, 0, 0)|
    requires Placed(template, g0, n, bits, k, PathTo(g0, n, t, 0, 0), t, 0, 0)
    ensures used' == |PathTo(g0, n, t + 1, 0, 0)| && Placed(g, g0, n, bits, k, PathTo(g0, n, t + 1, 0, 0), t + 1, 0, 0)
  {
    hide Placed, PairColumn, Size, Written, RowAt, BlankAt;
    g, used' := template, used;
    PlacedShape(g, g0, n, bits, k, PathTo(g0, n, t, 0, 0), t, 0, 0);
    var r := 0;
    while r < n
      invariant 0 <= r <= n && used' == |PathTo(g0, n, t, r, 0)|
        && Placed(g, g0, n, bits, k, PathTo(g0, n, t, r, 0), t, r, 0)
    {
      var row := RowAt(n, t, r);
      RowInside(n, t, r);
      var i := 0;
      while i < 2
        invariant 0 <= i <= 2 && used' == |PathTo(g0, n, t, r, i)|
          && Placed(g, g0, n, bits, k, PathTo(g0, n, t, r, i), t, r, i)
      {
        var col := PairColumn(n, t) - i;
        ghost var path := PathTo(g0, n, t, r, i);
        PairCovers(n, t, i);
        PlacedShape(g, g0, n, bits, k, path, t, r, i);
        if g[row][col] != Blank {
          PassOver(g, g0, n, bits, k, path, t, r, i, row, col);
          assert PathTo(g0, n, t, r, i + 1) == path;
        } else {
          FillIn(g, g0, n, bits, k, path, t, r, i, row, col);
          g := g[row := g[row][col := Written(bits, k, row, col, used')]];
          used' := used' + 1;
          assert PathTo(g0, n, t, r, i + 1) == path + [(row, col)];
        }
        i := i + 1;
      }
      NextRow(g, g0, n, bits, k, PathTo(g0, n, t, r, 2), t, r);
      r := r + 1;
    }
    NextPair(g, g0, n, bits, k, PathTo(g0, n, t, n, 0), t);
  }

  lemma RowInside(n: nat, t: nat, r: nat)
    requires r < n
    ensures 0 <= RowAt(n, t, r) < n
  {
  }

  lemma PlacedShape(g: Grid, g0: Grid, n: nat, bits: seq<bool>, k: nat, trace: seq<(nat, nat)>, t: nat, r: nat, i: nat)
    requires Placed(g, g0, n, bits, k, trace, t, r, i)
    ensures k < 8 && Square(g, n)
  {
  }

  /** The modules that were blank, in the order of the path, hold the masked bits, then masked
      zeros; every other module is as it was. */
  ghost predicate HoldsAlong(g: Grid, template: Grid, n: nat, bits: seq<bool>, k: nat, trace: seq<(nat, nat)>) {
    && k < 8 && Square(g, n) && Square(template, n)
    && (forall p :: p in trace ==> p.0 < n && p.1 < n && template[p.0][p.1] == Blank)
    && (forall row: nat, col: nat :: row < n && col < n && template[row][col] == Blank ==> (row, col) in trace)
    && (forall a: nat, b: nat :: a < b < |trace| ==> Precedes(n, trace[a].0, trace[a].1, trace[b].0, trace[b].1))
    && (forall j: nat :: j < |trace| ==> g[trace[j].0][trace[j].1] == Written(bits, k, trace[j].0, trace[j].1, j))
    && (forall row: nat, col: nat :: row < n && col < n && template[row][col] != Blank ==>
      g[row][col] == template[row][col])
  }

  ghost predicate Holds(g: Grid, template: Grid, n: nat, bits: seq<bool>, k: nat) {
    HoldsAlong(g, template, n, bits, k, Path(template, n))
  }

  /** Fills the symbol with the bits under mask `k`. */
  method MakeMask(template: Grid, n: nat, bits: seq<bool>, k: nat) returns (g: Grid)
    requires Size(n) && Square(template, n) && k < 8 && forall row :: 0 <= row < n ==> template[row][6] != Blank
    ensures Holds(g, template, n, bits, k)
    ensures Square(g, n) && (forall row, col :: 0 <= row < n && 0 <= col < n ==> g[row][col] != Blank)
    ensures forall row, col :: 0 <= row < n && 0 <= col < n && template[row][col] != Blank ==>
      g[row][col] == template[row][col]
  {
    hide Placed, PathTo, HoldsAlong, Size, Square;
    SizeOdd(n);
    g := template;
    var used := 0;
    Nothing(template, n, bits, k);
    var t := 0;
    while t < (n - 1) / 2
      invariant 0 <= t <= (n - 1) / 2 && used == |PathTo(template, n, t, 0, 0)|
      invariant Placed(g, template, n, bits, k, PathTo(template, n, t, 0, 0), t, 0, 0)
    {
      g, used := PlacePair(g, n, bits, k, t, used, template);
      t := t + 1;
    }
    Everything(g, template, n, bits, k, Path(template, n));
    Filled(g, template, n, bits, k, Path(template, n));
  }

  lemma Filled(g: Grid, template: Grid, n: nat, bits: seq<bool>, k: nat, trace: seq<(nat, nat)>)
    requires HoldsAlong(g, template, n, bits, k, trace)
    ensures Square(g, n) && Square(template, n)
    ensures forall row, col :: 0 <= row < n && 0 <= col < n ==> g[row][col] != Blank
    ensures forall row, col :: 0 <= row < n && 0 <= col < n && template[row][col] != Blank ==>
      g[row][col] == template[row][col]
  {
    hide Precedes;
    forall row: nat, col: nat | row < n && col < n ensures g[row][col] != Blank {
      if template[row][col] == Blank {
        var j :| 0 <= j < |trace| && trace[j] == (row, col);
      }
    }
  }

  lemma Nothing(g: Grid, n: nat, bits: seq<bool>, k: nat)
    requires Size(n) && Square(g, n) && k < 8
    ensures PathTo(g, n, 0, 0, 0) == [] && Placed(g, g, n, bits, k, [], 0, 0, 0)
  {
    hide PairOf, SideOf, Size;
    forall row: nat, col: nat | row < n && col < n ensures !Done(n, row, col, 0, 0, 0) {
      if col != 6 { ColumnCovered(n, col); }
    }
  }

  lemma Everything(g: Grid, template: Grid, n: nat, bits: seq<bool>, k: nat, trace: seq<(nat, nat)>)
    requires Size(n) && Placed(g, template, n, bits, k, trace, (n - 1) / 2, 0, 0)
    requires forall row :: 0 <= row < n ==> template[row][6] != Blank
    ensures HoldsAlong(g, template, n, bits, k, trace)
  {
    hide Done, Precedes, Written, Size;
    forall row: nat, col: nat | row < n && col < n && template[row][col] == Blank ensures (row, col) in trace {
      DoneTurns(n, row, col, 0, 0);
    }
  }

  /** Reads the modules of `trace` and takes the mask off. */
  ghost function ReadBack(g: Grid, k: nat, trace: seq<(nat, nat)>): (bits: seq<bool>)
    requires k < 8 && forall p :: p in trace ==> p.0 < |g| && p.1 < |g[p.0]|
    ensures |bits| == |trace|
  {
    if trace == [] then []
    else
      var p := trace[|trace| - 1];
      assert p in trace;
      var m := g[p.0][p.1];
      ReadBack(g, k, trace[..|trace| - 1]) + [m.Mark? && m.dark != Pattern(k, p.0, p.1)]
  }

  lemma {:induction false} ReadsPrefix(g: Grid, template: Grid, n: nat, bits: seq<bool>, k: nat,
                                       trace: seq<(nat, nat)>, m: nat)
    requires HoldsAlong(g, template, n, bits, k, trace) && m <= |trace|
    requires forall p :: p in trace[..m] ==> p.0 < |g| && p.1 < |g[p.0]|
    ensures ReadBack(g, k, trace[..m]) == seq(m, j requires 0 <= j < m => j < |bits| && bits[j])
    decreases m
  {
    hide Pattern, Precedes;
    if m > 0 {
      assert trace[..m][..m - 1] == trace[..m - 1];
      ReadsPrefix(g, template, n, bits, k, trace, m - 1);
      assert trace[..m][m - 1] == trace[m - 1];
      assert g[trace[m - 1].0][trace[m - 1].1] == Written(bits, k, trace[m - 1].0, trace[m - 1].1, m - 1);
    }
  }

  /** Reading back along the path, which the template gives, yields the bits that were placed,
      then zeros. */
  lemma ReadsBack(g: Grid, template: Grid, n: nat, bits: seq<bool>, k: nat)
    requires Holds(g, template, n, bits, k)
    ensures forall p :: p in Path(template, n) ==> p.0 < |g| && p.1 < |g[p.0]|
    ensures ReadBack(g, k, Path(template, n)) == seq(|Path(template, n)|, j requires 0 <= j => j < |bits| && bits[j])
  {
    hide Pattern, Precedes, Path, Written;
    var path := Path(template, n);
    assert path[..|path|] == path;
    ReadsPrefix(g, template, n, bits, k, path, |path|);
  }

  ghost predicate InOrder(n: nat, path: seq<(nat, nat)>) {
    forall a: nat, b: nat :: a < b < |path| ==> Precedes(n, path[a].0, path[a].1, path[b].0, path[b].1)
  }

  ghost predicate AllDone(n: nat, path: seq<(nat, nat)>, t: nat, r: nat, i: nat) {
    forall p :: p in path ==> p.0 < n && p.1 < n && Done(n, p.0, p.1, t, r, i)
  }

  /** The path meets its modules in order, and only those of its part. */
  lemma {:induction false} PathInOrder(template: Grid, n: nat, t: nat, r: nat, i: nat)
    requires Size(n) && Square(template, n) && t <= (n - 1) / 2 && r <= n && i <= 2
    requires (t == (n - 1) / 2 ==> r == 0) && (r == 0 && t == (n - 1) / 2 ==> i == 0) && (r == n ==> i == 0)
    ensures AllDone(n, PathTo(template, n, t, r, i), t, r, i) && InOrder(n, PathTo(template, n, t, r, i))
    decreases t, r, i
  {
    hide Size, Done, Precedes, PairColumn, RowAt;
    var path := PathTo(template, n, t, r, i);
    if i > 0 {
      var shorter, row, col := PathTo(template, n, t, r, i - 1), RowAt(n, t, r), PairColumn(n, t) - (i - 1);
      PathInOrder(template, n, t, r, i - 1);
      forall p | p in shorter ensures Done(n, p.0, p.1, t, r, i) { DoneNext(n, p.0, p.1, t, r, i - 1); }
      if BlankAt(template, row, col) {
        DoneNext(n, row, col, t, r, i - 1);
        FillOrder(n, shorter, t, r, i - 1, row, col);
      } else {
        assert path == shorter;
      }
    } else if r > 0 {
      PathInOrder(template, n, t, r - 1, 2);
      forall p | p in path ensures Done(n, p.0, p.1, t, r, 0) { DoneTurns(n, p.0, p.1, t, r - 1); }
    } else if t > 0 {
      PathInOrder(template, n, t - 1, n, 0);
      forall p | p in path ensures Done(n, p.0, p.1, t, 0, 0) { DoneTurns(n, p.0, p.1, t - 1, 0); }
    }
  }

  /** No module is on the path twice. */
  lemma WrittenOnce(template: Grid, n: nat, a: nat, b: nat)
    requires Size(n) && Square(template, n) && a < b < |Path(template, n)|
    ensures Path(template, n)[a] != Path(template, n)[b]
  {
    hide Path, Size;
    var path := Path(template, n);
    SizeOdd(n);
    WholePath(template, n);
    assert Precedes(n, path[a].0, path[a].1, path[b].0, path[b].1);
  }

  lemma WholePath(template: Grid, n: nat)
    requires Size(n) && Square(template, n)
    ensures InOrder(n, Path(template, n))
  {
    hide Size, Precedes, Done;
    SizeOdd(n);
    PathInOrder(template, n, n / 2, 0, 0);
  }
}
