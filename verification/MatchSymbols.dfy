/** The length and distance symbols of section 3.2.5 of RFC 1951, as the encoder's tables
    give them and as the decoder's tables take them back. */
module MatchSymbols {
  import opened Kraft

  /** Encoder: symbol and extra bits of a length less 3, the entries of two 256-entry tables. */
  function LenSym(x: nat): (sym: nat)
    requires x < 256
    ensures 257 <= sym <= 285
  {
    if x < 8 then 257 + x
    else if x < 16 then 265 + (x - 8) / 2
    else if x < 32 then 269 + (x - 16) / 4
    else if x < 64 then 273 + (x - 32) / 8
    else if x < 128 then 277 + (x - 64) / 16
    else if x < 255 then 281 + (x - 128) / 32
    else 285
  }

  function LenExtra(x: nat): (n: nat)
    requires x < 256
    ensures n <= 5
  {
    if x < 8 then 0 else if x < 16 then 1 else if x < 32 then 2
    else if x < 64 then 3 else if x < 128 then 4 else if x < 255 then 5 else 0
  }

  /** Encoder: symbol and extra bits of a distance less 1, from the tables for short distances
      (512 entries) and long ones (128 entries, by the high byte). */
  function SmallDistSym(y: nat): nat
    requires y < 512
  {
    if y < 4 then y
    else if y < 8 then 4 + (y - 4) / 2
    else if y < 16 then 6 + (y - 8) / 4
    else if y < 32 then 8 + (y - 16) / 8
    else if y < 64 then 10 + (y - 32) / 16
    else if y < 128 then 12 + (y - 64) / 32
    else if y < 256 then 14 + (y - 128) / 64
    else 16 + (y - 256) / 128
  }

  function SmallDistExtra(y: nat): nat
    requires y < 512
  {
    if y < 4 then 0 else if y < 8 then 1 else if y < 16 then 2 else if y < 32 then 3
    else if y < 64 then 4 else if y < 128 then 5 else if y < 256 then 6 else 7
  }

  function LargeDistSym(h: nat): nat
    requires h < 128
  {
    if h < 2 then 0
    else if h < 4 then 16 + h
    else if h < 8 then 20 + (h - 4) / 2
    else if h < 16 then 22 + (h - 8) / 4
    else if h < 32 then 24 + (h - 16) / 8
    else if h < 64 then 26 + (h - 32) / 16
    else 28 + (h - 64) / 32
  }

  function LargeDistExtra(h: nat): nat
    requires h < 128
  {
    if h < 2 then 0 else if h < 4 then 8 else if h < 8 then 9 else if h < 16 then 10
    else if h < 32 then 11 else if h < 64 then 12 else 13
  }

  function DistSym(y: nat): (sym: nat)
    requires y < 32768
    ensures sym < 30
  {
    if y < 512 then SmallDistSym(y) else LargeDistSym(y / 256)
  }

  function DistExtra(y: nat): (n: nat)
    requires y < 32768
    ensures n <= 13
  {
    if y < 512 then SmallDistExtra(y) else LargeDistExtra(y / 256)
  }

  // ---- Decoder.

  const LENGTH_BASE: seq<nat> :=
    [3, 4, 5, 6, 7, 8, 9, 10, 11, 13, 15, 17, 19, 23, 27, 31, 35, 43, 51, 59, 67, 83, 99, 115, 131, 163, 195, 227,
     258, 0, 0]
  const LENGTH_EXTRA: seq<nat> :=
    [0, 0, 0, 0, 0, 0, 0, 0, 1, 1, 1, 1, 2, 2, 2, 2, 3, 3, 3, 3, 4, 4, 4, 4, 5, 5, 5, 5, 0, 0, 0]
  const DIST_BASE: seq<nat> :=
    [1, 2, 3, 4, 5, 7, 9, 13, 17, 25, 33, 49, 65, 97, 129, 193, 257, 385, 513, 769, 1025, 1537, 2049, 3073, 4097, 6145,
     8193, 12289, 16385, 24577, 0, 0]
  const DIST_EXTRA: seq<nat> :=
    [0, 0, 0, 0, 1, 1, 2, 2, 3, 3, 4, 4, 5, 5, 6, 6, 7, 7, 8, 8, 9, 9, 10, 10, 11, 11, 12, 12, 13, 13, 0, 0]

  /** Two to the number of extra bits. */
  function Span(e: nat): (p: nat)
    requires e <= 13
    ensures p >= 1
  {
    if e == 0 then 1 else 2 * Span(e - 1)
  }

  lemma {:induction false} SpanIsPow2(e: nat)
    requires e <= 13
    ensures Span(e) == Pow2(e)
  {
    if e > 0 { SpanIsPow2(e - 1); }
  }

  lemma SpanTable()
    ensures Span(0) == 1 && Span(1) == 2 && Span(2) == 4 && Span(3) == 8 && Span(4) == 16 && Span(5) == 32
      && Span(6) == 64
    ensures Span(7) == 128 && Span(8) == 256 && Span(9) == 512 && Span(10) == 1024 && Span(11) == 2048
    ensures Span(12) == 4096 && Span(13) == 8192
  {
    assert Span(4) == 16 && Span(8) == 256 && Span(12) == 4096;
  }

  lemma LengthBack0(x: nat)
    requires 0 <= x < 16
    ensures LENGTH_EXTRA[LenSym(x) - 257] == LenExtra(x)
      && LENGTH_BASE[LenSym(x) - 257] + x % Span(LenExtra(x)) == x + 3
  {
    hide Span;
    SpanTable();
  }

  lemma LengthBack1(x: nat)
    requires 16 <= x < 64
    ensures LENGTH_EXTRA[LenSym(x) - 257] == LenExtra(x)
      && LENGTH_BASE[LenSym(x) - 257] + x % Span(LenExtra(x)) == x + 3
  {
    hide Span;
    SpanTable();
  }

  lemma LengthBack2(x: nat)
    requires 64 <= x < 256
    ensures LENGTH_EXTRA[LenSym(x) - 257] == LenExtra(x)
      && LENGTH_BASE[LenSym(x) - 257] + x % Span(LenExtra(x)) == x + 3
  {
    hide Span;
    SpanTable();
  }

  /** The decoder gets every length back from its symbol and low bits. */
  lemma LengthBack(x: nat)
    requires x < 256
    ensures LENGTH_EXTRA[LenSym(x) - 257] == LenExtra(x)
      && LENGTH_BASE[LenSym(x) - 257] + x % Span(LenExtra(x)) == x + 3
  {
    hide Span, LenSym, LenExtra;
    if x < 16 { LengthBack0(x); } else if x < 64 { LengthBack1(x); } else { LengthBack2(x); }
  }

  lemma SmallBack0(y: nat)
    requires 0 <= y < 8
    ensures SmallDistSym(y) < 30 && SmallDistExtra(y) <= 7
    ensures DIST_EXTRA[SmallDistSym(y)] == SmallDistExtra(y)
    ensures DIST_BASE[SmallDistSym(y)] + y % Span(SmallDistExtra(y)) == y + 1
  {
    hide Span;
    SpanTable();
  }

  lemma SmallBack1(y: nat)
    requires 8 <= y < 32
    ensures SmallDistSym(y) < 30 && SmallDistExtra(y) <= 7
    ensures DIST_EXTRA[SmallDistSym(y)] == SmallDistExtra(y)
    ensures DIST_BASE[SmallDistSym(y)] + y % Span(SmallDistExtra(y)) == y + 1
  {
    hide Span;
    SpanTable();
  }

  lemma SmallBack2(y: nat)
    requires 32 <= y < 128
    ensures SmallDistSym(y) < 30 && SmallDistExtra(y) <= 7
    ensures DIST_EXTRA[SmallDistSym(y)] == SmallDistExtra(y)
    ensures DIST_BASE[SmallDistSym(y)] + y % Span(SmallDistExtra(y)) == y + 1
  {
    hide Span;
    SpanTable();
  }

  lemma SmallBack3(y: nat)
    requires 128 <= y < 512
    ensures SmallDistSym(y) < 30 && SmallDistExtra(y) <= 7
    ensures DIST_EXTRA[SmallDistSym(y)] == SmallDistExtra(y)
    ensures DIST_BASE[SmallDistSym(y)] + y % Span(SmallDistExtra(y)) == y + 1
  {
    hide Span;
    SpanTable();
  }

  lemma LargeBack0(y: nat, h: nat)
    requires 512 <= y < 2048 && h == y / 256
    ensures LargeDistSym(h) < 30 && LargeDistExtra(h) <= 13
    ensures DIST_EXTRA[LargeDistSym(h)] == LargeDistExtra(h)
    ensures DIST_BASE[LargeDistSym(h)] + y % Span(LargeDistExtra(h)) == y + 1
  {
    hide Span;
    SpanTable();
  }

  lemma LargeBack1(y: nat, h: nat)
    requires 2048 <= y < 8192 && h == y / 256
    ensures LargeDistSym(h) < 30 && LargeDistExtra(h) <= 13
    ensures DIST_EXTRA[LargeDistSym(h)] == LargeDistExtra(h)
    ensures DIST_BASE[LargeDistSym(h)] + y % Span(LargeDistExtra(h)) == y + 1
  {
    hide Span;
    SpanTable();
  }

  lemma LargeBack2(y: nat, h: nat)
    requires 8192 <= y < 32768 && h == y / 256
    ensures LargeDistSym(h) < 30 && LargeDistExtra(h) <= 13
    ensures DIST_EXTRA[LargeDistSym(h)] == LargeDistExtra(h)
    ensures DIST_BASE[LargeDistSym(h)] + y % Span(LargeDistExtra(h)) == y + 1
  {
    hide Span;
    SpanTable();
  }

  /** The decoder gets every distance back from its symbol and low bits. */
  lemma DistanceBack(y: nat)
    requires y < 32768
    ensures DIST_EXTRA[DistSym(y)] == DistExtra(y)
    ensures DIST_BASE[DistSym(y)] + y % Span(DistExtra(y)) == y + 1
  {
    hide Span, SmallDistSym, LargeDistSym, SmallDistExtra, LargeDistExtra;
    if y < 8 { SmallBack0(y); } else if y < 32 { SmallBack1(y); }
    else if y < 128 { SmallBack2(y); } else if y < 512 { SmallBack3(y); }
    else if y < 2048 { LargeBack0(y, y / 256); }
    else if y < 8192 { LargeBack1(y, y / 256); } else { LargeBack2(y, y / 256); }
  }
}
