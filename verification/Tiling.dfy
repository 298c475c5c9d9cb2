/**
 The tiles of a Hextile rectangle, in `html/static/js/core/decoders/hextile.js`: squares of 16 pixels, cut off at
 the right and at the bottom, counted row by row.
 */
module Tiling {
  import opened Arithmetic
  import opened Decoding

  function Min(a: int, b: int): int {
    if a < b then a else b
  }

  function TilesX(r: Rect): nat {
    (r.w + 15) / 16
  }

  function TilesY(r: Rect): nat {
    (r.h + 15) / 16
  }

  function Total(r: Rect): nat {
    TilesX(r) * TilesY(r)
  }

  /** Column and row of a tile are within the rectangle. */
  lemma Column(r: Rect, k: nat)
    requires k < Total(r)
    ensures TilesX(r) > 0
    ensures k % TilesX(r) < TilesX(r) && k / TilesX(r) < TilesY(r)
    ensures k % TilesX(r) * 16 < r.w && k / TilesX(r) * 16 < r.h
    ensures k == k / TilesX(r) * TilesX(r) + k % TilesX(r)
  {
    var n, m := TilesX(r), TilesY(r);
    if n == 0 {
      assert false;
    }
    if k / n >= m {
      MulAtLeast(m, k / n, n);
    }
  }

  type TileRect = t: Rect | 1 <= t.w <= 16 && 1 <= t.h <= 16 witness Rect(0, 0, 1, 1)

  /** The tile in a column and a row. */
  function TileOf(r: Rect, col: nat, row: nat): (t: TileRect)
    requires col * 16 < r.w && row * 16 < r.h
    ensures r.x <= t.x && t.x + t.w <= r.x + r.w
    ensures r.y <= t.y && t.y + t.h <= r.y + r.h
  {
    var tx, ty := r.x + col * 16, r.y + row * 16;
    Rect(tx, ty, Min(16, r.x + r.w - tx), Min(16, r.y + r.h - ty))
  }

  /** The `k`th tile. */
  function Tile(r: Rect, k: nat): (t: TileRect)
    requires k < Total(r)
    ensures r.x <= t.x && t.x + t.w <= r.x + r.w
    ensures r.y <= t.y && t.y + t.h <= r.y + r.h
  {
    Column(r, k);
    TileOf(r, k % TilesX(r), k / TilesX(r))
  }

  predicate Inside(r: Rect, px: int, py: int) {
    r.x <= px < r.x + r.w && r.y <= py < r.y + r.h
  }

  /** The number of the tile around a pixel. */
  function TileAt(r: Rect, px: int, py: int): int {
    (py - r.y) / 16 * TilesX(r) + (px - r.x) / 16
  }

  lemma TileColumn(d: nat, w: nat, a: nat)
    requires d < w
    ensures 16 * a <= d < 16 * a + Min(16, w - 16 * a) <==> d / 16 == a
  {
  }

  lemma TilePlace(r: Rect, k: nat)
    requires k < Total(r)
    ensures TilesX(r) > 0
    ensures var t, a, b := Tile(r, k), k % TilesX(r), k / TilesX(r);
            t == Rect(r.x + 16 * a, r.y + 16 * b, Min(16, r.w - 16 * a), Min(16, r.h - 16 * b))
  {
    Column(r, k);
  }

  lemma InTile(r: Rect, k: nat, px: int, py: int)
    requires Inside(r, px, py) && k < Total(r)
    ensures TilesX(r) > 0
    ensures Inside(Tile(r, k), px, py) <==> k % TilesX(r) == (px - r.x) / 16 && k / TilesX(r) == (py - r.y) / 16
  {
    TilePlace(r, k);
    TileColumn(px - r.x, r.w, k % TilesX(r));
    TileColumn(py - r.y, r.h, k / TilesX(r));
  }

  lemma TileAtInRange(r: Rect, px: int, py: int)
    requires Inside(r, px, py)
    ensures 0 <= TileAt(r, px, py) < Total(r)
  {
    var n, col, row := TilesX(r), (px - r.x) / 16, (py - r.y) / 16;
    assert col < n && row < TilesY(r);
    MulAtLeast(row + 1, TilesY(r), n);
    assert (row + 1) * n == row * n + n;
  }

  lemma SameIndex(k: nat, col: nat, row: nat, n: nat)
    requires col < n
    ensures k % n == col && k / n == row <==> k == row * n + col
  {
    Quotient(row, col, n);
  }

  /** Every pixel of a rectangle is in one tile and no other: the tiles are disjoint and cover it exactly. */
  lemma TilesPartition(r: Rect, px: int, py: int)
    requires Inside(r, px, py)
    ensures 0 <= TileAt(r, px, py) < Total(r)
    ensures forall k: nat :: k < Total(r) ==> (Inside(Tile(r, k), px, py) <==> k == TileAt(r, px, py))
  {
    TileAtInRange(r, px, py);
    forall k: nat | k < Total(r)
      ensures Inside(Tile(r, k), px, py) <==> k == TileAt(r, px, py)
    {
      InTile(r, k, px, py);
      SameIndex(k, (px - r.x) / 16, (py - r.y) / 16, TilesX(r));
    }
  }

  lemma QuotientsInOrder(k: nat, k': nat, n: nat)
    requires k < k' && n > 0
    ensures k / n < k' / n || (k / n == k' / n && k % n < k' % n)
  {
    if k' / n < k / n {
      MulAtLeast(k' / n + 1, k / n, n);
    }
  }

  /** The tiles come row by row, each row from left to right. */
  lemma TilesInOrder(r: Rect, k: nat, k': nat)
    requires k < k' < Total(r)
    ensures var t, t' := Tile(r, k), Tile(r, k'); t.y < t'.y || (t.y == t'.y && t.x < t'.x)
  {
    TilePlace(r, k);
    TilePlace(r, k');
    QuotientsInOrder(k, k', TilesX(r));
  }

  /** The last `n` tiles. */
  function TilesLeft(r: Rect, n: nat): (ts: seq<TileRect>)
    requires n <= Total(r)
    ensures |ts| == n
  {
    seq<TileRect>(n, i requires 0 <= i < n => Tile(r, Total(r) - n + i))
  }

  lemma TilesLeftLater(r: Rect, n: nat, m: nat)
    requires m <= n <= Total(r)
    ensures TilesLeft(r, n)[n - m..] == TilesLeft(r, m)
  {
  }

  /** A rectangle of at most 16 by 16 pixels is a tile. */
  lemma SmallIsTile(r: Rect)
    requires 1 <= r.w <= 16 && 1 <= r.h <= 16
    ensures Total(r) == 1 && TilesLeft(r, 1) == [r]
  {
    var one := TilesX(r);
    assert one == 1 && TilesY(r) == 1;
    var t := Tile(r, 0);
    FirstTile(r, t);
    assert TilesLeft(r, 1)[0] == Tile(r, Total(r) - 1 + 0);
  }

  lemma FirstTile(r: Rect, t: TileRect)
    requires 1 <= r.w <= 16 && 1 <= r.h <= 16 && Total(r) == 1 && t == Tile(r, 0)
    ensures t == r
  {
    assert TileOf(r, 0, 0) == r;
  }
}
