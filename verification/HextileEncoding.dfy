/**
 The Hextile encoding as section 7.7.4 of RFC 6143 defines it, with the picture that it means, and the proof that
 the decoder draws that picture.
 */
module HextileEncoding {
  import opened Bytes
  import opened Decoding
  import opened Hextile
  import opened Pictures
  import opened Tiling
  import opened Wrappers

  datatype SubCode = NoSubs | Mono(boxes: seq<Box>) | Coloured(subs: seq<Sub>)

  datatype TileCode = RawTile(pixels: seq<Byte>) | PaintedTile(bg: Option<Color>, fg: Option<Color>, code: SubCode)

  predicate Blank(tile: TileCode) {
    tile == PaintedTile(None, None, NoSubs)
  }

  predicate ValidBox(b: Box, t: TileRect) {
    StaysIn(b, t) && 1 <= b.w <= 16 && 1 <= b.h <= 16 && b.x < 16 && b.y < 16
  }

  /** What an encoder may send for a tile, after a decoder state: sub-rectangles that stay in the tile, no colour left
      undefined, no blank tile straight after a raw one. */
  predicate ValidTile(tile: TileCode, t: TileRect, s: Hex) {
    match tile
    case RawTile(pixels) => |pixels| == t.w * t.h * 4
    case PaintedTile(bg, fg, code) =>
      && (bg.Some? || s.bg.Some?)
      && (Blank(tile) ==> !Bit(s.last, RAW))
      && match code
         case NoSubs => true
         case Mono(boxes) => |boxes| < 256 && (fg.Some? || s.fg.Some?) && forall b :: b in boxes ==> ValidBox(b, t)
         case Coloured(subs) => |subs| < 256 && forall u :: u in subs ==> ValidBox(u.box, t)
  }

  function Mask(tile: TileCode): (m: Byte)
    ensures m <= 30
  {
    match tile
    case RawTile(_) => 1
    case PaintedTile(bg, fg, code) =>
      (if bg.Some? then 2 else 0) + (if fg.Some? then 4 else 0)
      + (if code.NoSubs? then 0 else 8) + (if code.Coloured? then 16 else 0)
  }

  function Colour(c: Option<Color>): seq<Byte> {
    if c.Some? then c.value else []
  }

  function EncodeBox(b: Box): seq<Byte>
    requires b.x < 16 && b.y < 16 && 1 <= b.w <= 16 && 1 <= b.h <= 16
  {
    [b.x * 16 + b.y, (b.w - 1) * 16 + (b.h - 1)]
  }

  function EncodeBoxes(boxes: seq<Box>, t: TileRect): (r: seq<Byte>)
    requires forall b :: b in boxes ==> ValidBox(b, t)
    ensures |r| == |boxes| * 2
  {
    if boxes == [] then []
    else
      assert ValidBox(boxes[0], t);
      EncodeBox(boxes[0]) + EncodeBoxes(boxes[1..], t)
  }

  function EncodeSubs(subs: seq<Sub>, t: TileRect): (r: seq<Byte>)
    requires forall u :: u in subs ==> ValidBox(u.box, t)
    ensures |r| == |subs| * 6
  {
    if subs == [] then []
    else
      assert ValidBox(subs[0].box, t);
      subs[0].color + EncodeBox(subs[0].box) + EncodeSubs(subs[1..], t)
  }

  function EncodeCode(code: SubCode, t: TileRect): seq<Byte>
    requires code.Mono? ==> |code.boxes| < 256 && forall b :: b in code.boxes ==> ValidBox(b, t)
    requires code.Coloured? ==> |code.subs| < 256 && forall u :: u in code.subs ==> ValidBox(u.box, t)
  {
    match code
    case NoSubs => []
    case Mono(boxes) => [|boxes|] + EncodeBoxes(boxes, t)
    case Coloured(subs) => [|subs|] + EncodeSubs(subs, t)
  }

  function EncodeTile(tile: TileCode, t: TileRect, s: Hex): seq<Byte>
    requires ValidTile(tile, t, s)
  {
    match tile
    case RawTile(pixels) => [1] + pixels
    case PaintedTile(bg, fg, code) => [Mask(tile)] + Colour(bg) + Colour(fg) + EncodeCode(code, t)
  }

  function Or(c: Option<Color>, d: Option<Color>): Option<Color> {
    if c.Some? then c else d
  }

  /** Sub-rectangles without a colour have the foreground. */
  function WithColour(boxes: seq<Box>, fg: Color): (subs: seq<Sub>)
    ensures |subs| == |boxes| && forall i :: 0 <= i < |boxes| ==> subs[i] == Sub(boxes[i], fg)
  {
    seq(|boxes|, i requires 0 <= i < |boxes| => Sub(boxes[i], fg))
  }

  function SubsIn(code: SubCode, fg: Option<Color>): seq<Sub>
    requires code.Mono? ==> fg.Some?
  {
    match code
    case NoSubs => []
    case Mono(boxes) => WithColour(boxes, fg.value)
    case Coloured(subs) => subs
  }

  /** What the tile means. */
  function DrawTile(tile: TileCode, t: TileRect, s: Hex): Call
    requires ValidTile(tile, t, s)
  {
    match tile
    case RawTile(pixels) => BlitImage(t.x, t.y, t.w, t.h, Opaqued(pixels), Received)
    case PaintedTile(bg, fg, code) =>
      var c := Or(bg, s.bg).value;
      if Blank(tile) then FillRect(t.x, t.y, t.w, t.h, c, Own)
      else BlitImage(t.x, t.y, t.w, t.h, Flat(Picture(t, Opaque(c), SubsIn(code, Or(fg, s.fg)))), Own)
  }

  /** What the decoder remembers of a tile. */
  function AfterTile(tile: TileCode, s: Hex): Hex
    requires s.tiles > 0
  {
    var next := s.(tiles := s.tiles - 1, last := Mask(tile));
    match tile
    case RawTile(_) => next
    case PaintedTile(bg, fg, code) => next.(bg := Or(bg, s.bg), fg := Or(fg, s.fg))
  }

  lemma MaskBits(tile: TileCode)
    requires tile.PaintedTile?
    ensures var m := Mask(tile);
            && !Bit(m, RAW) && (Bit(m, BACKGROUND) <==> tile.bg.Some?) && (Bit(m, FOREGROUND) <==> tile.fg.Some?)
            && (Bit(m, SUBRECTS) <==> !tile.code.NoSubs?) && (Bit(m, COLOURED) <==> tile.code.Coloured?)
  {
  }

  lemma {:induction false} BoxesDecode(boxes: seq<Box>, t: TileRect, fg: Color)
    requires forall b :: b in boxes ==> ValidBox(b, t)
    ensures SubsOf(EncodeBoxes(boxes, t), |boxes|, false, Some(fg)) == WithColour(boxes, fg)
    decreases |boxes|
  {
    if boxes != [] {
      assert boxes[0] in boxes;
      var q := EncodeBoxes(boxes, t);
      assert q[2..] == EncodeBoxes(boxes[1..], t);
      BoxesDecode(boxes[1..], t, fg);
      assert BoxOf(q[0], q[1]) == boxes[0];
      assert WithColour(boxes, fg) == [Sub(boxes[0], fg)] + WithColour(boxes[1..], fg);
    }
  }

  lemma SubDecodes(u: Sub, more: seq<Byte>, t: TileRect, fg: Option<Color>)
    requires ValidBox(u.box, t)
    ensures var q := u.color + EncodeBox(u.box) + more;
            |q| >= 6 && q[6..] == more && SubIn(q[..6], true, fg) == u
  {
    var q := u.color + EncodeBox(u.box) + more;
    assert q[..6] == u.color + EncodeBox(u.box);
    assert q[..6][..4] == u.color;
  }

  lemma {:induction false} SubsDecode(subs: seq<Sub>, t: TileRect, fg: Option<Color>)
    requires forall u :: u in subs ==> ValidBox(u.box, t)
    ensures SubsOf(EncodeSubs(subs, t), |subs|, true, fg) == subs
    decreases |subs|
  {
    if subs != [] {
      assert subs[0] in subs;
      var q := EncodeSubs(subs, t);
      SubDecodes(subs[0], EncodeSubs(subs[1..], t), t, fg);
      SubsDecode(subs[1..], t, fg);
    }
  }

  /** The parts of an encoded tile, where the decoder looks for them. */
  lemma PaintedParts(tile: TileCode, t: TileRect, s: Hex)
    requires ValidTile(tile, t, s) && tile.PaintedTile?
    ensures var b := EncodeTile(tile, t, s);
            && |b| >= 1 && b[0] == Mask(tile) && HeadLen(b[0]) <= |b|
            && b[HeadLen(b[0])..] == EncodeCode(tile.code, t)
            && Background(s, b) == Or(tile.bg, s.bg) && Foreground(s, b) == Or(tile.fg, s.fg)
  {
    MaskBits(tile);
    var b := EncodeTile(tile, t, s);
    var n := HeadLen(b[0]);
    assert b == ([Mask(tile)] + Colour(tile.bg) + Colour(tile.fg)) + EncodeCode(tile.code, t);
    if tile.bg.Some? {
      assert b[1..5] == tile.bg.value;
    }
    if tile.fg.Some? {
      assert b[n - 4..n] == tile.fg.value;
    }
  }

  lemma PaintedIsWhole(tile: TileCode, t: TileRect, s: Hex, more: seq<Byte>)
    requires ValidTile(tile, t, s) && tile.PaintedTile?
    ensures var b := EncodeTile(tile, t, s);
            |b| >= 1 && b[0] == Mask(tile) && Whole(b, t) && Need(b + more, t) == Some(|b|)
  {
    MaskBits(tile);
    PaintedParts(tile, t, s);
    var b := EncodeTile(tile, t, s);
    var n := HeadLen(b[0]);
    if !tile.code.NoSubs? {
      assert b[n] == b[n..][0];
    }
  }

  lemma SubsInTile(tile: TileCode, t: TileRect, s: Hex)
    requires ValidTile(tile, t, s) && tile.PaintedTile?
    ensures forall u :: u in SubsIn(tile.code, Or(tile.fg, s.fg)) ==> StaysIn(u.box, t)
  {
    if tile.code.Mono? {
      forall i | 0 <= i < |tile.code.boxes|
        ensures StaysIn(tile.code.boxes[i], t)
      {
        assert ValidBox(tile.code.boxes[i], t);
      }
    }
  }

  lemma PaintedDecodes(tile: TileCode, t: TileRect, s: Hex)
    requires ValidTile(tile, t, s) && tile.PaintedTile?
    requires var b := EncodeTile(tile, t, s); Whole(b, t) && b[0] == Mask(tile)
    ensures !Bit(Mask(tile), RAW)
    ensures Painted(s, t, EncodeTile(tile, t, s)) ==
            Some(Picture(t, Opaque(Or(tile.bg, s.bg).value), SubsIn(tile.code, Or(tile.fg, s.fg))))
  {
    MaskBits(tile);
    PaintedParts(tile, t, s);
    var b := EncodeTile(tile, t, s);
    var n := HeadLen(b[0]);
    var bg, fg := Or(tile.bg, s.bg).value, Or(tile.fg, s.fg);
    var subs := SubsIn(tile.code, fg);
    if !tile.code.NoSubs? {
      assert b[n] == b[n..][0] && b[n + 1..] == b[n..][1..];
      if tile.code.Mono? {
        BoxesDecode(tile.code.boxes, t, fg.value);
      } else {
        SubsDecode(tile.code.subs, t, fg);
      }
    }
    SubsInTile(tile, t, s);
    PaintsPicture(t, Opaque(bg), subs);
  }

  lemma TileDecodes(tile: TileCode, t: TileRect, s: Hex, more: seq<Byte>)
    requires ValidTile(tile, t, s) && s.tiles > 0
    ensures var b := EncodeTile(tile, t, s);
            && Whole(b, t) && Need(b + more, t) == Some(|b|)
            && Drawn(s, t, b) == Some([DrawTile(tile, t, s)]) && NextTile(s, b) == AfterTile(tile, s)
  {
    var b := EncodeTile(tile, t, s);
    if tile.RawTile? {
      assert b[1..] == tile.pixels;
    } else {
      MaskBits(tile);
      PaintedIsWhole(tile, t, s, more);
      PaintedParts(tile, t, s);
      PaintedDecodes(tile, t, s);
    }
  }

  /** A blank tile is filled with the background exactly if the tile before it was not raw; after a raw one it is
      taken and not drawn. */
  lemma BlankIsFilledExactly(t: TileRect, s: Hex, more: seq<Byte>)
    requires s.tiles > 0 && s.bg.Some?
    ensures var o, fill := OneTile(s, t, [0] + more), [FillRect(t.x, t.y, t.w, t.h, s.bg.value, Own)];
            && o == Outcome(s.(tiles := s.tiles - 1, last := 0), more, if Bit(s.last, RAW) then [] else fill, Done)
            && (o.calls == fill <==> !Bit(s.last, RAW))
  {
    var q := [0] + more;
    assert q[..1] == [0] && q[1..] == more;
  }

  /** The tiles of a rectangle, each valid after those before it. */
  predicate ValidTiles(tiles: seq<TileCode>, ts: seq<TileRect>, s: Hex)
    requires s.tiles == |ts|
    decreases |ts|
  {
    if ts == [] then tiles == []
    else tiles != [] && ValidTile(tiles[0], ts[0], s) && ValidTiles(tiles[1..], ts[1..], AfterTile(tiles[0], s))
  }

  function EncodeTiles(tiles: seq<TileCode>, ts: seq<TileRect>, s: Hex): seq<Byte>
    requires s.tiles == |ts| && ValidTiles(tiles, ts, s)
    decreases |ts|
  {
    if ts == [] then []
    else EncodeTile(tiles[0], ts[0], s) + EncodeTiles(tiles[1..], ts[1..], AfterTile(tiles[0], s))
  }

  function DrawTiles(tiles: seq<TileCode>, ts: seq<TileRect>, s: Hex): seq<Call>
    requires s.tiles == |ts| && ValidTiles(tiles, ts, s)
    decreases |ts|
  {
    if ts == [] then []
    else [DrawTile(tiles[0], ts[0], s)] + DrawTiles(tiles[1..], ts[1..], AfterTile(tiles[0], s))
  }

  /** What the decoder remembers of a rectangle. */
  function AfterTiles(tiles: seq<TileCode>, ts: seq<TileRect>, s: Hex): (s': Hex)
    requires s.tiles == |ts| && ValidTiles(tiles, ts, s)
    ensures s'.tiles == 0
    decreases |ts|
  {
    if ts == [] then s else AfterTiles(tiles[1..], ts[1..], AfterTile(tiles[0], s))
  }

  lemma OneTileDecodes(tile: TileCode, t: TileRect, s: Hex, more: seq<Byte>)
    requires s.tiles > 0 && ValidTile(tile, t, s)
    ensures OneTile(s, t, EncodeTile(tile, t, s) + more) ==
            Outcome(AfterTile(tile, s), more, [DrawTile(tile, t, s)], Done)
  {
    var b := EncodeTile(tile, t, s);
    TileDecodes(tile, t, s, more);
    assert (b + more)[..|b|] == b && (b + more)[|b|..] == more;
  }

  lemma LoopGoesOn(s: Hex, ts: seq<TileRect>, q: seq<Byte>, o: Outcome<Hex>)
    requires s.tiles == |ts| && ts != [] && o == OneTile(s, ts[0], q) && o.verdict.Done?
    ensures Loop(s, ts, q) == Loop(o.state, ts[1..], o.rest).After(o.calls)
  {
  }

  lemma {:induction false} LoopDecodes(tiles: seq<TileCode>, ts: seq<TileRect>, s: Hex, more: seq<Byte>)
    requires s.tiles == |ts| && ValidTiles(tiles, ts, s)
    ensures Loop(s, ts, EncodeTiles(tiles, ts, s) + more) ==
            Outcome(AfterTiles(tiles, ts, s), more, DrawTiles(tiles, ts, s), Done)
    decreases |ts|
  {
    if ts == [] {
      assert EncodeTiles(tiles, ts, s) + more == more;
    } else {
      var next := AfterTile(tiles[0], s);
      var b, tail := EncodeTile(tiles[0], ts[0], s), EncodeTiles(tiles[1..], ts[1..], next) + more;
      assert EncodeTiles(tiles, ts, s) + more == b + tail;
      OneTileDecodes(tiles[0], ts[0], s, tail);
      LoopGoesOn(s, ts, b + tail, Outcome(next, tail, [DrawTile(tiles[0], ts[0], s)], Done));
      LoopDecodes(tiles[1..], ts[1..], next, more);
    }
  }

  /** The decoder draws what the standard's encoding means, pixel by pixel, and reads no further: for every
      rectangle, every choice of tile kinds and every state left by rectangles before. */
  lemma DecodesEncoding(tiles: seq<TileCode>, r: Rect, s: Hex, more: seq<Byte>)
    requires s.tiles == 0 && ValidTiles(tiles, TilesLeft(r, Total(r)), Start(s, r))
    ensures var s', ts := Start(s, r), TilesLeft(r, Total(r));
            Decode(s, r, EncodeTiles(tiles, ts, s') + more) ==
            Outcome(AfterTiles(tiles, ts, s'), more, DrawTiles(tiles, ts, s'), Done)
  {
    LoopDecodes(tiles, TilesLeft(r, Total(r)), Start(s, r), more);
  }
}
