/** The eight mask patterns, drawn as ISO/IEC 18004 shows them: a dark module for each module that is
    flipped. */
module MaskTiles {
  import opened Zigzag

  const TILE_0: seq<string> := ["#.#.#.", ".#.#.#"]
  const TILE_1: seq<string> := ["######", "......"]
  const TILE_2: seq<string> := ["#..#.."]
  const TILE_3: seq<string> := ["#..#..", "..#..#", ".#..#."]
  const TILE_4: seq<string> := ["###...", "###...", "...###", "...###"]
  const TILE_5: seq<string> := ["######", "#.....", "#..#..", "#.#.#.", "#..#..", "#....."]
  const TILE_6: seq<string> := ["######", "###...", "##.##.", "#.#.#.", "#.##.#", "#...##"]
  const TILE_7: seq<string> := ["#.#.#.", "...###", "#...##", ".#.#.#", "###...", ".###.."]

  /** The tile that repeats in pattern `k`. */
  function Tile(k: nat): (t: seq<string>)
    requires k < 8
    ensures 1 <= |t| <= 6 && forall row :: 0 <= row < |t| ==> |t[row]| == 6
  {
    match k
    case 0 => TILE_0
    case 1 => TILE_1
    case 2 => TILE_2
    case 3 => TILE_3
    case 4 => TILE_4
    case 5 => TILE_5
    case 6 => TILE_6
    case _ => TILE_7
  }

  /** The module at `row` and `col` is dark in the drawing of pattern `k`. */
  ghost predicate Dark(k: nat, row: nat, col: nat)
    requires k < 8
  {
    Tile(k)[row % |Tile(k)|][col % 6] == '#'
  }

  /** Residues decide products. */
  lemma Residues(row: nat, col: nat)
    ensures var r, c := row % 6, col % 6;
      && row * col % 2 == r * c % 2 && row * col % 3 == r * c % 3
      && (row + col) % 2 == (r + c) % 2 && (row + col) % 3 == (r + c) % 3
  {
    var a, b, r, c := row / 6, col / 6, row % 6, col % 6;
    assert row == 6 * a + r && col == 6 * b + c;
    var q := 6 * a * b + a * c + b * r;
    assert row * col == 6 * q + r * c by { Expand(a, b, r, c); }
    SixTimes(q, r * c);
    SixTimes(a + b, r + c);
  }

  lemma Expand(a: nat, b: nat, r: nat, c: nat)
    ensures (6 * a + r) * (6 * b + c) == 6 * (6 * a * b + a * c + b * r) + r * c
  {
  }

  lemma SixTimes(q: nat, x: nat)
    ensures (6 * q + x) % 2 == x % 2 && (6 * q + x) % 3 == x % 3
  {
    ModuloTwo(6 * q + x, 3 * q + x / 2, x % 2);
    ModuloThree(6 * q + x, 2 * q + x / 3, x % 3);
  }

  lemma ModuloTwo(x: nat, q: nat, r: nat)
    requires x == 2 * q + r && r < 2
    ensures x % 2 == r
  {
  }

  lemma ModuloThree(x: nat, q: nat, r: nat)
    requires x == 3 * q + r && r < 3
    ensures x % 3 == r
  {
  }

  lemma Lines(row: nat, col: nat)
    ensures Pattern(0, row, col) <==> Dark(0, row, col)
    ensures Pattern(1, row, col) <==> Dark(1, row, col)
    ensures Pattern(2, row, col) <==> Dark(2, row, col)
  {
    var r, c := row % 2, col % 6;
    assert r == 0 || r == 1;
    assert c == 0 || c == 1 || c == 2 || c == 3 || c == 4 || c == 5;
  }

  lemma Diagonals(row: nat, col: nat)
    ensures Pattern(3, row, col) <==> Dark(3, row, col)
  {
    var r, c := row % 3, col % 6;
    assert r == 0 || r == 1 || r == 2;
    assert c == 0 || c == 1 || c == 2 || c == 3 || c == 4 || c == 5;
  }

  lemma Bricks(row: nat, col: nat)
    ensures Pattern(4, row, col) <==> Dark(4, row, col)
  {
    var a, b, r, c := row / 4, col / 6, row % 4, col % 6;
    assert row == 4 * a + r && col == 6 * b + c;
    assert row / 2 == 2 * a + r / 2 && col / 3 == 2 * b + c / 3;
    assert r == 0 || r == 1 || r == 2 || r == 3;
    assert c == 0 || c == 1 || c == 2 || c == 3 || c == 4 || c == 5;
  }

  lemma Stars(row: nat, col: nat)
    ensures Pattern(5, row, col) <==> Dark(5, row, col)
  {
    var r, c := row % 6, col % 6;
    Residues(row, col);
    SmallStars(r, c);
  }

  lemma SmallStars(r: nat, c: nat)
    requires r < 6 && c < 6
    ensures Pattern(5, r, c) <==> TILE_5[r][c] == '#'
  {
    assert r == 0 || r == 1 || r == 2 || r == 3 || r == 4 || r == 5;
    assert c == 0 || c == 1 || c == 2 || c == 3 || c == 4 || c == 5;
  }

  lemma Diamonds(row: nat, col: nat)
    ensures Pattern(6, row, col) <==> Dark(6, row, col)
  {
    var r, c := row % 6, col % 6;
    Residues(row, col);
    SmallDiamonds(r, c);
  }

  lemma SmallDiamonds(r: nat, c: nat)
    requires r < 6 && c < 6
    ensures Pattern(6, r, c) <==> TILE_6[r][c] == '#'
  {
    assert r == 0 || r == 1 || r == 2 || r == 3 || r == 4 || r == 5;
    assert c == 0 || c == 1 || c == 2 || c == 3 || c == 4 || c == 5;
  }

  lemma Waves(row: nat, col: nat)
    ensures Pattern(7, row, col) <==> Dark(7, row, col)
  {
    var r, c := row % 6, col % 6;
    Residues(row, col);
    SmallWaves(r, c);
  }

  lemma SmallWaves(r: nat, c: nat)
    requires r < 6 && c < 6
    ensures Pattern(7, r, c) <==> TILE_7[r][c] == '#'
  {
    assert r == 0 || r == 1 || r == 2 || r == 3 || r == 4 || r == 5;
    assert c == 0 || c == 1 || c == 2 || c == 3 || c == 4 || c == 5;
  }

  /** The formulas draw the patterns of the standard. */
  lemma PatternsDrawn(k: nat, row: nat, col: nat)
    requires k < 8
    ensures Pattern(k, row, col) <==> Dark(k, row, col)
  {
    hide Pattern, Dark;
    match k
    case 0 => Lines(row, col);
    case 1 => Lines(row, col);
    case 2 => Lines(row, col);
    case 3 => Diagonals(row, col);
    case 4 => Bricks(row, col);
    case 5 => Stars(row, col);
    case 6 => Diamonds(row, col);
    case _ => Waves(row, col);
  }

  /** What is written is dark where the bit and the drawing differ. */
  lemma WrittenOver(bits: seq<bool>, k: nat, row: nat, col: nat, j: nat)
    requires k < 8
    ensures Written(bits, k, row, col, j) == Mark((j < |bits| && bits[j]) != Dark(k, row, col))
  {
    hide Pattern, Dark;
    PatternsDrawn(k, row, col);
  }
}
