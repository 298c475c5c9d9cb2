/**
 Pictures of a tile as the Hextile decoder paints them in its buffer, four bytes a pixel, and as the standard
 describes them, pixel by pixel.
 */
module Pictures {
  import opened Arithmetic
  import opened Bytes
  import opened Decoding
  import opened Tiling

  type Color = c: seq<Byte> | |c| == 4 witness [0, 0, 0, 0]

  function Opaque(c: Color): Color {
    [c[0], c[1], c[2], 255]
  }

  function Uniform(n: nat, c: Color): seq<Color> {
    seq(n, _ => c)
  }

  function PaintRow(img: seq<Color>, start: nat, n: nat, c: Color): (r: seq<Color>)
    ensures |r| == |img|
  {
    seq(|img|, k requires 0 <= k < |img| => if start <= k < start + n then c else img[k])
  }

  /** What `_subTile` does to the pixels: rows are written by their linear index, so one that is too long
      runs into the next, and what lies beyond the end is dropped. */
  function PaintRows(img: seq<Color>, width: nat, x: nat, y: nat, w: nat, h: nat, c: Color): (r: seq<Color>)
    ensures |r| == |img|
    decreases h
  {
    if h == 0 then img
    else PaintRows(PaintRow(img, x + y * width, w, c), width, x, y + 1, w, h - 1, c)
  }

  datatype Box = Box(x: nat, y: nat, w: nat, h: nat)
  {
    predicate Covers(c: int, r: int) {
      x <= c < x + w && y <= r < y + h
    }
  }

  datatype Sub = Sub(box: Box, color: Color)

  function Over(img: seq<Color>, width: nat, s: Sub): (r: seq<Color>)
    ensures |r| == |img|
  {
    PaintRows(img, width, s.box.x, s.box.y, s.box.w, s.box.h, Opaque(s.color))
  }

  function PaintAll(img: seq<Color>, width: nat, subs: seq<Sub>): (r: seq<Color>)
    ensures |r| == |img|
    decreases subs
  {
    if subs == [] then img else PaintAll(Over(img, width, subs[0]), width, subs[1..])
  }

  /** The bytes of a picture. */
  function Flat(img: seq<Color>): (b: seq<Byte>)
    ensures |b| == 4 * |img|
  {
    seq(4 * |img|, i requires 0 <= i < 4 * |img| => img[i / 4][i % 4])
  }

  /** Raw pixels with the fourth byte of each set. */
  function Opaqued(b: seq<Byte>): (r: seq<Byte>)
    ensures |r| == |b|
  {
    seq(|b|, i requires 0 <= i < |b| => if i % 4 == 3 then 255 else b[i])
  }

  // ---- Pixel by pixel -------------------------------------------------------------------------------

  /** The colour of a pixel: that of the last sub-rectangle over it, else the background. */
  function ColorAt(bg: Color, subs: seq<Sub>, c: nat, r: nat): Color
    decreases |subs|
  {
    if subs == [] then bg
    else
      var s := subs[|subs| - 1];
      if s.box.Covers(c, r) then Opaque(s.color) else ColorAt(bg, subs[..|subs| - 1], c, r)
  }

  /** A row of the box, by linear index, meets the pixel. */
  predicate RowHits(width: nat, b: Box, row: nat, k: nat) {
    b.x + row * width <= k < b.x + row * width + b.w
  }

  /** One of its rows does. */
  predicate Hits(width: nat, b: Box, k: nat)
    decreases b.h
  {
    b.h > 0 && (RowHits(width, b, b.y, k) || Hits(width, Box(b.x, b.y + 1, b.w, b.h - 1), k))
  }

  /** The boxes whose linear rows stay on the pixels of the tile that they cover: no wider than what is left of the
      tile, or without a row below to run into, or covering all of the rows it runs into, or behind the last pixel. */
  predicate StaysIn(b: Box, t: Rect) {
    || b.x + b.w <= t.w
    || b.y + 1 >= t.h
    || (b.x == 0 && b.y + b.h >= t.h)
    || b.x + b.y * t.w >= t.w * t.h
  }

  lemma {:induction false} PaintRowsHit(img: seq<Color>, width: nat, b: Box, color: Color, k: nat)
    requires k < |img|
    ensures PaintRows(img, width, b.x, b.y, b.w, b.h, color)[k] == if Hits(width, b, k) then color else img[k]
    decreases b.h
  {
    if b.h > 0 {
      PaintRowsHit(PaintRow(img, b.x + b.y * width, b.w, color), width, Box(b.x, b.y + 1, b.w, b.h - 1), color, k);
    }
  }

  /** Rows only go down. */
  lemma {:induction false} MissesAbove(width: nat, b: Box, k: nat)
    requires k < b.x + b.y * width
    ensures !Hits(width, b, k)
    decreases b.h
  {
    if b.h > 0 {
      MulStep(b.y, width);
      MissesAbove(width, Box(b.x, b.y + 1, b.w, b.h - 1), k);
    }
  }

  lemma {:induction false} RowIsHit(width: nat, b: Box, row: nat, k: nat)
    requires b.y <= row < b.y + b.h && RowHits(width, b, row, k)
    ensures Hits(width, b, k)
    decreases b.h
  {
    if b.y < row {
      RowIsHit(width, Box(b.x, b.y + 1, b.w, b.h - 1), row, k);
    }
  }

  lemma RowHit(width: nat, x: nat, y: nat, w: nat, c: nat, r: nat)
    requires x + w <= width && c < width
    ensures x + y * width <= r * width + c < x + y * width + w <==> r == y && x <= c < x + w
  {
    if r < y {
      MulAtLeast(r + 1, y, width);
    } else if y < r {
      MulAtLeast(y + 1, r, width);
    }
  }

  lemma {:induction false} NarrowHits(width: nat, b: Box, c: nat, r: nat)
    requires b.x + b.w <= width && c < width
    ensures Hits(width, b, r * width + c) <==> b.Covers(c, r)
    decreases b.h
  {
    if b.h > 0 {
      RowHit(width, b.x, b.y, b.w, c, r);
      NarrowHits(width, Box(b.x, b.y + 1, b.w, b.h - 1), c, r);
    }
  }

  /** In the last row of the tile there is nothing to run into. */
  lemma LastRowHits(t: Rect, b: Box, c: nat, r: nat)
    requires b.y + 1 >= t.h && c < t.w && r < t.h && b.x + b.w > t.w
    ensures Hits(t.w, b, r * t.w + c) <==> b.Covers(c, r)
  {
    MulAtLeast(r + 1, t.h, t.w);
    MulStep(r, t.w);
    MulAtLeast(t.h, b.y + 1, t.w);
    MulStep(b.y, t.w);
    var k := r * t.w + c;
    if b.h > 0 {
      MissesAbove(t.w, Box(b.x, b.y + 1, b.w, b.h - 1), k);
      if r < b.y {
        MulAtLeast(r + 1, b.y, t.w);
      }
    }
  }

  /** A box over all columns that reaches the bottom covers whatever it runs into. */
  lemma FullHits(t: Rect, b: Box, c: nat, r: nat)
    requires b.x == 0 && b.w > t.w && b.y + b.h >= t.h && c < t.w && r < t.h
    ensures Hits(t.w, b, r * t.w + c) <==> b.Covers(c, r)
  {
    if r < b.y {
      MulAtLeast(r + 1, b.y, t.w);
      MulStep(r, t.w);
      MissesAbove(t.w, b, r * t.w + c);
    } else {
      RowIsHit(t.w, b, r, r * t.w + c);
    }
  }

  lemma BehindHits(t: Rect, b: Box, c: nat, r: nat)
    requires b.x + b.y * t.w >= t.w * t.h && c < t.w && r < t.h
    ensures !Hits(t.w, b, r * t.w + c) && !b.Covers(c, r)
  {
    MulAtLeast(r + 1, t.h, t.w);
    MulStep(r, t.w);
    MissesAbove(t.w, b, r * t.w + c);
    if b.Covers(c, r) {
      MulAtLeast(b.y, r, t.w);
    }
  }

  lemma StayingHits(t: Rect, b: Box, c: nat, r: nat)
    requires StaysIn(b, t) && c < t.w && r < t.h
    ensures Hits(t.w, b, r * t.w + c) <==> b.Covers(c, r)
  {
    if b.x + b.w <= t.w {
      NarrowHits(t.w, b, c, r);
    } else if b.y + 1 >= t.h {
      LastRowHits(t, b, c, r);
    } else if b.x == 0 && b.y + b.h >= t.h {
      FullHits(t, b, c, r);
    } else {
      BehindHits(t, b, c, r);
    }
  }

  /** A box behind the right edge hits a pixel of a row below, where it covers none. */
  lemma OutsideOverflows(t: Rect, b: Box)
    requires !StaysIn(b, t) && b.w > 0 && b.h > 0 && t.w > 0 && b.x >= t.w
    ensures var k := b.x + b.y * t.w; k < t.w * t.h && Hits(t.w, b, k) && !b.Covers(k % t.w, k / t.w)
  {
  }

  /** A box over the right edge hits the first pixel of the next row. */
  lemma EdgeOverflows(t: Rect, b: Box)
    requires !StaysIn(b, t) && b.w > 0 && b.h > 0 && t.w > 0 && 0 < b.x < t.w
    ensures var k := (b.y + 1) * t.w; k < t.w * t.h && Hits(t.w, b, k) && !b.Covers(k % t.w, k / t.w)
  {
    MulStep(b.y, t.w);
    MulAtLeast(b.y + 2, t.h, t.w);
    MulStep(b.y + 1, t.w);
    Quotient(b.y + 1, 0, t.w);
  }

  /** A box that is wider than the tile hits the first pixel of the row below it. */
  lemma WideOverflows(t: Rect, b: Box)
    requires !StaysIn(b, t) && b.w > 0 && b.h > 0 && t.w > 0 && b.x == 0
    ensures var k := (b.y + b.h) * t.w; k < t.w * t.h && Hits(t.w, b, k) && !b.Covers(k % t.w, k / t.w)
  {
    var k := (b.y + b.h) * t.w;
    MulStep(b.y + b.h - 1, t.w);
    MulAtLeast(b.y + b.h + 1, t.h, t.w);
    MulStep(b.y + b.h, t.w);
    Quotient(b.y + b.h, 0, t.w);
    RowIsHit(t.w, b, b.y + b.h - 1, k);
  }

  /** A pixel that another box hits without covering it. */
  lemma Overflow(t: Rect, b: Box) returns (k: nat)
    requires !StaysIn(b, t) && b.w > 0 && b.h > 0 && t.w > 0
    ensures k < t.w * t.h && Hits(t.w, b, k) && !b.Covers(k % t.w, k / t.w)
  {
    if b.x >= t.w {
      OutsideOverflows(t, b);
      k := b.x + b.y * t.w;
    } else if b.x > 0 {
      EdgeOverflows(t, b);
      k := (b.y + 1) * t.w;
    } else {
      WideOverflows(t, b);
      k := (b.y + b.h) * t.w;
    }
  }

  lemma {:induction false} ColorAtFirst(bg: Color, subs: seq<Sub>, c: nat, r: nat)
    requires subs != []
    ensures ColorAt(bg, subs, c, r) ==
            ColorAt(if subs[0].box.Covers(c, r) then Opaque(subs[0].color) else bg, subs[1..], c, r)
    decreases |subs|
  {
    var n := |subs| - 1;
    if n > 0 {
      assert subs[1..][..n - 1] == subs[..n][1..] && subs[1..][n - 1] == subs[n];
      ColorAtFirst(bg, subs[..n], c, r);
    } else {
      assert subs[..n] == [] && subs[1..] == [];
    }
  }

  lemma {:induction false} PaintAllAt(img: seq<Color>, t: Rect, subs: seq<Sub>, c: nat, r: nat)
    requires forall s :: s in subs ==> StaysIn(s.box, t)
    requires c < t.w && r < t.h && r * t.w + c < |img|
    ensures PaintAll(img, t.w, subs)[r * t.w + c] == ColorAt(img[r * t.w + c], subs, c, r)
    decreases |subs|
  {
    if subs != [] {
      var s, k := subs[0], r * t.w + c;
      assert s in subs;
      PaintRowsHit(img, t.w, s.box, Opaque(s.color), k);
      StayingHits(t, s.box, c, r);
      ColorAtFirst(img[k], subs, c, r);
      PaintAllAt(Over(img, t.w, s), t, subs[1..], c, r);
    }
  }

  /** The picture the standard asks for, row by row. */
  function Picture(t: Rect, bg: Color, subs: seq<Sub>): (img: seq<Color>)
    requires t.w > 0
    ensures |img| == t.w * t.h
  {
    seq(t.w * t.h, k requires 0 <= k < t.w * t.h => ColorAt(bg, subs, k % t.w, k / t.w))
  }

  lemma RowOfPixel(t: Rect, k: nat)
    requires t.w > 0 && k < t.w * t.h
    ensures k / t.w < t.h && k == k / t.w * t.w + k % t.w
  {
    if k / t.w >= t.h {
      MulAtLeast(t.h, k / t.w, t.w);
    }
  }

  /** Writing by linear index paints the picture, for any number of sub-rectangles that stay in the tile. */
  lemma PaintsPicture(t: Rect, bg: Color, subs: seq<Sub>)
    requires t.w > 0 && forall s :: s in subs ==> StaysIn(s.box, t)
    ensures PaintAll(Uniform(t.w * t.h, bg), t.w, subs) == Picture(t, bg, subs)
  {
    var img := Uniform(t.w * t.h, bg);
    forall k: nat | k < |img|
      ensures PaintAll(img, t.w, subs)[k] == Picture(t, bg, subs)[k]
    {
      RowOfPixel(t, k);
      PaintAllAt(img, t, subs, k % t.w, k / t.w);
    }
  }

  /** One sub-rectangle, whatever its place and size, paints its picture exactly if it stays in the tile; any other
      also paints pixels it does not cover. */
  lemma PaintsPictureExactly(t: Rect, bg: Color, s: Sub)
    requires t.w > 0 && s.box.w > 0 && s.box.h > 0 && Opaque(s.color) != bg
    ensures PaintAll(Uniform(t.w * t.h, bg), t.w, [s]) == Picture(t, bg, [s]) <==> StaysIn(s.box, t)
  {
    if StaysIn(s.box, t) {
      PaintsPicture(t, bg, [s]);
    } else {
      var img := Uniform(t.w * t.h, bg);
      var k := Overflow(t, s.box);
      PaintRowsHit(img, t.w, s.box, Opaque(s.color), k);
      assert [s][1..] == [] && [s][..0] == [];
      assert PaintAll(img, t.w, [s]) == Over(img, t.w, s);
      assert ColorAt(bg, [s], k % t.w, k / t.w) == ColorAt(bg, [], k % t.w, k / t.w);
      assert PaintAll(img, t.w, [s])[k] != Picture(t, bg, [s])[k];
    }
  }

  /** A concrete one: in a tile two pixels wide and high, a box over the last pixel of the first row that is two
      pixels wide. */
  lemma OverhangWraps(bg: Color, color: Color)
    requires Opaque(color) != bg
    ensures var t, s := Rect(0, 0, 2, 2), Sub(Box(1, 0, 2, 1), color);
            !StaysIn(s.box, t) && PaintAll(Uniform(4, bg), t.w, [s]) != Picture(t, bg, [s])
  {
    PaintsPictureExactly(Rect(0, 0, 2, 2), bg, Sub(Box(1, 0, 2, 1), color));
  }

  /** Not every box that is wider than its tile runs into pixels it does not cover: this one covers all that follows. */
  lemma OverhangMayStay(bg: Color, color: Color)
    ensures var t, s := Rect(0, 0, 2, 2), Sub(Box(0, 0, 3, 2), color);
            s.box.x + s.box.w > t.w && s.box.y + 1 < t.h && PaintAll(Uniform(4, bg), t.w, [s]) == Picture(t, bg, [s])
  {
    PaintsPicture(Rect(0, 0, 2, 2), bg, [Sub(Box(0, 0, 3, 2), color)]);
  }

  // ---- In the buffer --------------------------------------------------------------------------------

  /** The buffer holds the picture, four bytes a pixel. */
  ghost predicate Shows(data: seq<Byte>, img: seq<Color>) {
    4 * |img| <= |data| && forall k :: 0 <= k < |img| ==> data[4 * k..4 * k + 4] == img[k]
  }

  lemma ShowsFlat(data: seq<Byte>, img: seq<Color>)
    requires Shows(data, img)
    ensures data[..4 * |img|] == Flat(img)
  {
    forall i | 0 <= i < 4 * |img|
      ensures data[i] == Flat(img)[i]
    {
      var k := i / 4;
      assert data[i] == data[4 * k..4 * k + 4][i % 4];
    }
  }

  /** Writing one pixel. */
  lemma PutShows(data: seq<Byte>, data': seq<Byte>, img: seq<Color>, p: nat, c: Color)
    requires Shows(data, img) && |data| == |data'| && 4 * p + 4 <= |data|
    requires data'[4 * p..4 * p + 4] == c
    requires data'[..4 * p] == data[..4 * p] && data'[4 * p + 4..] == data[4 * p + 4..]
    ensures Shows(data', PaintRow(img, p, 1, c))
  {
    forall k | 0 <= k < |img|
      ensures data'[4 * k..4 * k + 4] == PaintRow(img, p, 1, c)[k]
    {
      assert data[4 * k..4 * k + 4] == img[k];
      if k < p {
        assert data'[4 * k..4 * k + 4] == data'[..4 * p][4 * k..4 * k + 4];
      } else if k > p {
        assert data'[4 * k..4 * k + 4] == data'[4 * p + 4..][4 * k - 4 * p - 4..4 * k - 4 * p];
      }
    }
  }

  lemma PutOutside(img: seq<Color>, p: nat, c: Color)
    requires |img| <= p
    ensures PaintRow(img, p, 1, c) == img
  {
  }

  lemma RowGrows(img: seq<Color>, start: nat, n: nat, c: Color)
    ensures PaintRow(PaintRow(img, start, n, c), start + n, 1, c) == PaintRow(img, start, n + 1, c)
    ensures PaintRow(img, start, 0, c) == img
  {
  }

  /** The next pixel. */
  lemma AppendShows(data: seq<Byte>, data': seq<Byte>, img: seq<Color>, c: Color)
    requires Shows(data, img) && |data| == |data'| && 4 * |img| + 4 <= |data|
    requires data'[4 * |img|..4 * |img| + 4] == c && data'[..4 * |img|] == data[..4 * |img|]
    ensures Shows(data', img + [c])
  {
    forall k | 0 <= k < |img| + 1
      ensures data'[4 * k..4 * k + 4] == (img + [c])[k]
    {
      if k < |img| {
        assert data[4 * k..4 * k + 4] == img[k];
        assert data'[4 * k..4 * k + 4] == data'[..4 * |img|][4 * k..4 * k + 4];
      }
    }
  }

  /** The four assignments of a pixel; a typed array ignores those beyond its end. */
  method WritePixel(data: array<Byte>, p: nat, red: Byte, green: Byte, blue: Byte)
    modifies data
    ensures 4 * p + 4 <= data.Length ==>
              && data[4 * p..4 * p + 4] == [red, green, blue, 255]
              && data[..4 * p] == old(data[..4 * p]) && data[4 * p + 4..] == old(data[4 * p + 4..])
    ensures 4 * p + 4 > data.Length && data.Length % 4 == 0 ==> data[..] == old(data[..])
  {
    if 4 * p < data.Length {
      data[4 * p] := red;
    }
    if 4 * p + 1 < data.Length {
      data[4 * p + 1] := green;
    }
    if 4 * p + 2 < data.Length {
      data[4 * p + 2] := blue;
    }
    if 4 * p + 3 < data.Length {
      data[4 * p + 3] := 255;
    }
  }

  /** A pixel that follows the picture so far. */
  method AppendPixel(data: array<Byte>, p: nat, red: Byte, green: Byte, blue: Byte, ghost img: seq<Color>)
    requires Shows(data[..], img) && p == |img| && 4 * p + 4 <= data.Length
    modifies data
    ensures Shows(data[..], img + [[red, green, blue, 255]])
  {
    ghost var before := data[..];
    WritePixel(data, p, red, green, blue);
    AppendShows(before, data[..], img, [red, green, blue, 255]);
  }
}
