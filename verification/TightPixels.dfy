/**
 The pixels of Tight rectangles: three bytes a pixel, or indices into a palette of at most 256 colours, one bit
 each for two colours.
 */
module TightPixels {
  import opened Arithmetic
  import opened Bytes
  import opened Pictures

  /** The palette's buffer; the colours of an earlier palette stay behind those of a shorter one. */
  type Palette = p: seq<Byte> | |p| == 1024 witness seq(1024, _ => 0)

  function Loaded(palette: Palette, colours: seq<Byte>): Palette
    requires |colours| <= 1024
  {
    colours + palette[|colours|..]
  }

  function Entry(palette: Palette, i: Byte): Color {
    var at := (i as int) * 3;
    [palette[at], palette[at + 1], palette[at + 2], 255]
  }

  function Copied(data: seq<Byte>, n: nat): (img: seq<Color>)
    requires |data| == n * 3
    ensures |img| == n
  {
    seq(n, k requires 0 <= k < n => [data[3 * k], data[3 * k + 1], data[3 * k + 2], 255])
  }

  /** Reading beyond the data gives an undefined index, and a pixel of zeros. */
  function Indexed(n: nat, data: seq<Byte>, palette: Palette): (img: seq<Color>)
    ensures |img| == n
  {
    seq(n, k requires 0 <= k < n => if k < |data| then Entry(palette, data[k]) else [0, 0, 0, 255])
  }

  function RowBytes(w: nat): nat {
    (w + 7) / 8
  }

  /** The pixel in column `x` of row `y`: the most significant bit comes first, and every row starts a byte.
      An undefined byte has no bits set. */
  function MonoAt(w: nat, data: seq<Byte>, palette: Palette, x: nat, y: nat): Color {
    var at := y * RowBytes(w) + x / 8;
    Entry(palette, if at < |data| then BitAt(data[at], 7 - x % 8) else 0)
  }

  function Mono(w: nat, h: nat, data: seq<Byte>, palette: Palette): (img: seq<Color>)
    requires w > 0
    ensures |img| == w * h
  {
    seq(w * h, k requires 0 <= k < w * h => MonoAt(w, data, palette, k % w, k / w))
  }

  // ---- The loops ------------------------------------------------------------------------------------

  lemma InRow(w: nat, h: nat, x: nat, y: nat)
    requires x < w && y < h
    ensures y * w + x < w * h
  {
    MulAtLeast(y + 1, h, w);
  }

  /** The colour at an index, from the palette's buffer. */
  method Look(palette: array<Byte>, i: Byte) returns (red: Byte, green: Byte, blue: Byte)
    requires palette.Length == 1024
    ensures [red, green, blue, 255] == Entry(palette[..], i)
  {
    var sp := (i as int) * 3;
    red, green, blue := palette[sp], palette[sp + 1], palette[sp + 2];
  }

  /** The pixels of a byte, the next in the picture. */
  ghost predicate BitsOf(img: seq<Color>, start: nat, byte: Byte, low: nat, palette: Palette) {
    && start + 8 - low <= |img|
    && forall b :: low <= b < 8 ==> img[start + 7 - b] == Entry(palette, BitAt(byte, b))
  }

  /** The pixels of a row, the next in the picture. */
  ghost predicate RowOf(img: seq<Color>, start: nat, w: nat, bytes: seq<Byte>, palette: Palette) {
    && start + w <= |img| && |bytes| == RowBytes(w)
    && forall x :: 0 <= x < w ==> img[start..start + w][x] == Entry(palette, BitAt(bytes[x / 8], 7 - x % 8))
  }

  lemma BitsInRow(img: seq<Color>, start: nat, w: nat, bytes: seq<Byte>, palette: Palette, x: nat, low: nat)
    requires RowOf(img, start, w, bytes, palette) && low < 8 && x * 8 + 8 - low <= w
    ensures x < |bytes| && BitsOf(img, start + x * 8, bytes[x], low, palette)
  {
    var byte := bytes[x];
    forall b | low <= b < 8
      ensures img[start + x * 8 + 7 - b] == Entry(palette, BitAt(byte, b))
    {
      var c := x * 8 + 7 - b;
      assert c / 8 == x && 7 - c % 8 == b;
      assert img[start..start + w][c] == img[start + c];
    }
  }

  lemma RowInMono(w: nat, h: nat, data: seq<Byte>, palette: Palette, y: nat)
    requires w > 0 && y < h && |data| == RowBytes(w) * h
    ensures y * RowBytes(w) + RowBytes(w) <= |data| && y * w + w <= w * h
    ensures RowOf(Mono(w, h, data, palette), y * w, w, data[y * RowBytes(w)..y * RowBytes(w) + RowBytes(w)], palette)
  {
    InRow(RowBytes(w), h, RowBytes(w) - 1, y);
    InRow(w, h, w - 1, y);
    var img, start, from := Mono(w, h, data, palette), y * w, y * RowBytes(w);
    var bytes := data[from..from + RowBytes(w)];
    forall x | 0 <= x < w
      ensures img[start..start + w][x] == Entry(palette, BitAt(bytes[x / 8], 7 - x % 8))
    {
      Quotient(y, x, w);
      assert img[start + x] == MonoAt(w, data, palette, x, y);
    }
  }

  /** The bits of one byte, from the highest down to `low`. */
  method MonoBits(dest: array<Byte>, start: nat, byte: Byte, palette: array<Byte>, low: nat, ghost img: seq<Color>)
    requires palette.Length == 1024 && palette != dest && 4 * |img| <= dest.Length && low <= 8
    requires BitsOf(img, start, byte, low, palette[..]) && Shows(dest[..], img[..start])
    modifies dest
    ensures Shows(dest[..], img[..start + 8 - low])
  {
    for b := 8 downto low
      invariant Shows(dest[..], img[..start + 8 - b])
    {
      var dp := start + 7 - b;
      var red, green, blue := Look(palette, BitAt(byte, b));
      assert img[..dp + 1] == img[..dp] + [img[dp]];
      AppendPixel(dest, dp, red, green, blue, img[..dp]);
    }
  }

  method MonoRow(dest: array<Byte>, start: nat, w: nat, bytes: seq<Byte>, palette: array<Byte>, ghost img: seq<Color>)
    requires palette.Length == 1024 && palette != dest && 4 * |img| <= dest.Length
    requires RowOf(img, start, w, bytes, palette[..]) && Shows(dest[..], img[..start])
    modifies dest
    ensures Shows(dest[..], img[..start + w])
  {
    var w1 := w / 8;
    var x := 0;
    while x < w1
      invariant x <= w1
      invariant Shows(dest[..], img[..start + x * 8])
    {
      BitsInRow(img, start, w, bytes, palette[..], x, 0);
      MonoBits(dest, start + x * 8, bytes[x], palette, 0, img);
      x := x + 1;
    }
    var low := 8 - w % 8;
    if low < 8 {
      BitsInRow(img, start, w, bytes, palette[..], x, low);
      MonoBits(dest, start + x * 8, bytes[x], palette, low, img);
    }
  }

  /** The loops of `_monoRect`: every pixel is written once, row by row. */
  method MonoPixels(dest: array<Byte>, w: nat, h: nat, data: seq<Byte>, palette: array<Byte>)
    requires palette.Length == 1024 && palette != dest && 4 * (w * h) <= dest.Length
    requires 0 < w && |data| == RowBytes(w) * h
    modifies dest
    ensures Shows(dest[..], Mono(w, h, data, palette[..]))
  {
    ghost var img := Mono(w, h, data, palette[..]);
    var start, at := 0, 0;
    for y := 0 to h
      invariant start == y * w && at == y * RowBytes(w)
      invariant start <= |img| && Shows(dest[..], img[..start])
    {
      RowInMono(w, h, data, palette[..], y);
      MonoRow(dest, start, w, data[at..at + RowBytes(w)], palette, img);
      MulStep(y, w);
      MulStep(y, RowBytes(w));
      start, at := start + w, at + RowBytes(w);
    }
    assert img[..h * w] == img;
  }

  /** The loop of `_paletteRect`. */
  method IndexedPixels(dest: array<Byte>, n: nat, data: seq<Byte>, palette: array<Byte>)
    requires palette.Length == 1024 && palette != dest && 4 * n <= dest.Length
    modifies dest
    ensures Shows(dest[..], Indexed(n, data, palette[..]))
  {
    ghost var img := Indexed(n, data, palette[..]);
    for j := 0 to n
      invariant Shows(dest[..], img[..j])
    {
      assert img[..j + 1] == img[..j] + [img[j]];
      if j < |data| {
        var red, green, blue := Look(palette, data[j]);
        AppendPixel(dest, j, red, green, blue, img[..j]);
      } else {
        AppendPixel(dest, j, 0, 0, 0, img[..j]);
      }
    }
    assert img[..n] == img;
  }

  /** The loop of `_copyFilter`. */
  method CopiedPixels(rgbx: array<Byte>, n: nat, data: seq<Byte>)
    requires |data| == n * 3 && 4 * n <= rgbx.Length
    modifies rgbx
    ensures Shows(rgbx[..], Copied(data, n))
  {
    ghost var img := Copied(data, n);
    for k := 0 to n
      invariant Shows(rgbx[..], img[..k])
    {
      assert img[..k + 1] == img[..k] + [img[k]];
      AppendPixel(rgbx, k, data[3 * k], data[3 * k + 1], data[3 * k + 2], img[..k]);
    }
    assert img[..n] == img;
  }
}
