/**
 The Hextile decoder of `html/static/js/core/decoders/hextile.js` (section 7.7.4 of RFC 6143): a rectangle is
 cut into tiles; a tile is raw, blank, or a background with sub-rectangles.  The decoder only takes whole tiles,
 and keeps its colours from one tile, and one rectangle, to the next.
 */
module Hextile {
  import opened Arithmetic
  import opened Bytes
  import opened Decoding
  import opened Pictures
  import opened Tiling
  import opened Wrappers
  import W = Websock

  const RAW: nat := 1
  const BACKGROUND: nat := 2
  const FOREGROUND: nat := 4
  const SUBRECTS: nat := 8
  const COLOURED: nat := 16

  predicate Bit(b: Byte, mask: nat)
    requires mask > 0
  {
    (b as int) / mask % 2 == 1
  }

  datatype Hex = Hex(tiles: nat, tilesX: nat, totalTiles: nat, last: Byte, bg: Option<Color>, fg: Option<Color>)

  /** The subencoding byte and the colours it announces. */
  function HeadLen(sub: Byte): nat {
    1 + (if Bit(sub, BACKGROUND) then 4 else 0) + (if Bit(sub, FOREGROUND) then 4 else 0)
  }

  function SubLen(coloured: bool): nat {
    if coloured then 6 else 2
  }

  /** How many bytes the tile takes; unknown while the number of sub-rectangles has not arrived. */
  function Need(q: seq<Byte>, t: TileRect): (n: Option<nat>)
    requires |q| >= 1
    ensures n.Some? ==> n.value >= 1
    ensures n.Some? && !Bit(q[0], RAW) ==> n.value >= HeadLen(q[0])
  {
    if Bit(q[0], RAW) then Some(1 + t.w * t.h * 4)
    else if !Bit(q[0], SUBRECTS) then Some(HeadLen(q[0]))
    else if |q| < HeadLen(q[0]) + 1 then None
    else Some(HeadLen(q[0]) + 1 + (q[HeadLen(q[0])] as int) * SubLen(Bit(q[0], COLOURED)))
  }

  /** A sub-rectangle from its position and size bytes. */
  function BoxOf(xy: Byte, wh: Byte): Box {
    Box((xy as int) / 16, (xy as int) % 16, (wh as int) / 16 + 1, (wh as int) % 16 + 1)
  }

  /** A sub-rectangle with its own colour, or with the foreground. */
  function SubIn(b: seq<Byte>, coloured: bool, fg: Option<Color>): Sub
    requires |b| == SubLen(coloured) && (coloured || fg.Some?)
  {
    if coloured then Sub(BoxOf(b[4], b[5]), b[..4]) else Sub(BoxOf(b[0], b[1]), fg.value)
  }

  function SubsOf(b: seq<Byte>, count: nat, coloured: bool, fg: Option<Color>): (subs: seq<Sub>)
    requires |b| == count * SubLen(coloured)
    requires count == 0 || coloured || fg.Some?
    ensures |subs| == count
    decreases count
  {
    if count == 0 then []
    else
      var n := SubLen(coloured);
      SizeLeft(count, n);
      [SubIn(b[..n], coloured, fg)] + SubsOf(b[n..], count - 1, coloured, fg)
  }

  lemma SizeLeft(n: nat, size: nat)
    requires n > 0
    ensures n * size == size + (n - 1) * size
  {
  }

  /** A complete tile. */
  ghost predicate Whole(b: seq<Byte>, t: TileRect) {
    |b| >= 1 && b[0] <= 30 && Need(b, t) == Some(|b|)
  }

  function Background(s: Hex, b: seq<Byte>): Option<Color>
    requires |b| >= 1 && |b| >= HeadLen(b[0])
  {
    if Bit(b[0], BACKGROUND) then Some(b[1..5]) else s.bg
  }

  function Foreground(s: Hex, b: seq<Byte>): Option<Color>
    requires |b| >= 1 && |b| >= HeadLen(b[0])
  {
    var n := HeadLen(b[0]);
    if Bit(b[0], FOREGROUND) then Some(b[n - 4..n]) else s.fg
  }

  /** All sub-rectangles of a tile. */
  function AllSubs(b: seq<Byte>, t: TileRect, fg: Option<Color>): seq<Sub>
    requires Whole(b, t) && !Bit(b[0], RAW) && Bit(b[0], SUBRECTS)
    requires b[HeadLen(b[0])] == 0 || Bit(b[0], COLOURED) || fg.Some?
  {
    var n := HeadLen(b[0]);
    SubsOf(b[n + 1..], b[n], Bit(b[0], COLOURED), fg)
  }

  /** The pixels of a tile with a background; none when a colour it refers to was never given. */
  function Painted(s: Hex, t: TileRect, b: seq<Byte>): Option<seq<Color>>
    requires Whole(b, t) && !Bit(b[0], RAW)
  {
    var n, bg, fg := HeadLen(b[0]), Background(s, b), Foreground(s, b);
    if bg.None? then None
    else if !Bit(b[0], SUBRECTS) then Some(Uniform(t.w * t.h, Opaque(bg.value)))
    else if b[n] > 0 && !Bit(b[0], COLOURED) && fg.None? then None
    else Some(PaintAll(Uniform(t.w * t.h, Opaque(bg.value)), t.w, AllSubs(b, t, fg)))
  }

  /** What a tile draws; none when the source throws. */
  function Drawn(s: Hex, t: TileRect, b: seq<Byte>): Option<seq<Call>>
    requires Whole(b, t)
  {
    if b[0] == 0 then
      if Bit(s.last, RAW) then Some([])
      else if s.bg.None? then None
      else Some([FillRect(t.x, t.y, t.w, t.h, s.bg.value, Own)])
    else if Bit(b[0], RAW) then Some([BlitImage(t.x, t.y, t.w, t.h, Opaqued(b[1..]), Received)])
    else
      var img := Painted(s, t, b);
      if img.None? then None else Some([BlitImage(t.x, t.y, t.w, t.h, Flat(img.value), Own)])
  }

  function NextTile(s: Hex, b: seq<Byte>): Hex
    requires s.tiles > 0 && |b| >= 1 && (!Bit(b[0], RAW) ==> |b| >= HeadLen(b[0]))
  {
    var next := s.(tiles := s.tiles - 1, last := b[0]);
    if Bit(b[0], RAW) then next else next.(bg := Background(s, b), fg := Foreground(s, b))
  }

  /** The tile at the front of the unread bytes: taken whole or not at all. */
  function OneTile(s: Hex, t: TileRect, q: seq<Byte>): (o: Outcome<Hex>)
    requires s.tiles > 0
    ensures o.verdict.Done? ==> SameRect(o.state, s) && o.state.tiles == s.tiles - 1
    ensures !o.verdict.Done? ==> o == Outcome(s, q, [], o.verdict)
    ensures |o.rest| <= |q|
  {
    if |q| < 1 then Outcome(s, q, [], Wait)
    else if q[0] > 30 then Outcome(s, q, [], Fail)
    else
      var n := Need(q, t);
      if n.None? || |q| < n.value then Outcome(s, q, [], Wait)
      else TakeTile(s, t, q, n.value)
  }

  function TakeTile(s: Hex, t: TileRect, q: seq<Byte>, n: nat): Outcome<Hex>
    requires s.tiles > 0 && n <= |q| && Whole(q[..n], t)
  {
    var calls := Drawn(s, t, q[..n]);
    if calls.None? then Outcome(s, q, [], Fail)
    else Outcome(NextTile(s, q[..n]), q[n..], calls.value, Done)
  }

  ghost predicate SameRect(s': Hex, s: Hex) {
    s'.tilesX == s.tilesX && s'.totalTiles == s.totalTiles
  }

  /** The loop of `decodeRect`, with the tiles still to come. */
  function Loop(s: Hex, ts: seq<TileRect>, q: seq<Byte>): (o: Outcome<Hex>)
    requires s.tiles == |ts|
    ensures SameRect(o.state, s) && o.state.tiles <= s.tiles && |o.rest| <= |q|
    ensures o.verdict.Done? ==> o.state.tiles == 0
    ensures o.verdict.Wait? ==> o.state.tiles > 0
    decreases |ts|
  {
    if ts == [] then Outcome(s, q, [], Done)
    else
      var o := OneTile(s, ts[0], q);
      if o.verdict.Done? then Loop(o.state, ts[1..], o.rest).After(o.calls) else o
  }

  /** Between calls for a rectangle the counters are those of the rectangle. */
  ghost predicate Fits(s: Hex, r: Rect) {
    s.tiles > 0 ==> s.tiles <= s.totalTiles == Total(r) && s.tilesX == TilesX(r)
  }

  function Start(s: Hex, r: Rect): (s': Hex)
    requires Fits(s, r)
    ensures Fits(s', r) && s'.tiles <= Total(r)
  {
    if s.tiles == 0 then s.(tilesX := TilesX(r), totalTiles := Total(r), tiles := Total(r)) else s
  }

  /** `decodeRect`. */
  function Decode(s: Hex, r: Rect, q: seq<Byte>): (o: Outcome<Hex>)
    requires Fits(s, r)
    ensures Fits(o.state, r) && |o.rest| <= |q|
    ensures o.verdict.Done? ==> o.state.tiles == 0
    ensures o.verdict.Wait? ==> o.state.tiles > 0
  {
    var s' := Start(s, r);
    Loop(s', TilesLeft(r, s'.tiles), q)
  }

  // ---- Being called again ---------------------------------------------------------------------------

  lemma NeedResumes(q: seq<Byte>, t: TileRect, more: seq<Byte>)
    requires |q| >= 1 && Need(q, t).Some?
    ensures Need(q + more, t) == Need(q, t)
  {
  }

  lemma TakeResumes(s: Hex, t: TileRect, q: seq<Byte>, n: nat, more: seq<Byte>)
    requires s.tiles > 0 && n <= |q| && Whole(q[..n], t)
    ensures (q + more)[..n] == q[..n] && TakeTile(s, t, q + more, n) == TakeTile(s, t, q, n).Then(more)
  {
    Shorter(q, more, n);
  }

  lemma TileResumes(s: Hex, t: TileRect, q: seq<Byte>, more: seq<Byte>)
    requires s.tiles > 0
    ensures var o := OneTile(s, t, q); !o.verdict.Wait? ==> OneTile(s, t, q + more) == o.Then(more)
  {
    if |q| >= 1 && q[0] <= 30 {
      var n := Need(q, t);
      if n.Some? && n.value <= |q| {
        NeedResumes(q, t, more);
        TakeResumes(s, t, q, n.value, more);
      }
    }
  }

  /** The tiles that are left when the loop stops. */
  function Rest(ts: seq<TileRect>, s: Hex): (r: seq<TileRect>)
    requires s.tiles <= |ts|
    ensures |r| == s.tiles
  {
    ts[|ts| - s.tiles..]
  }

  lemma {:induction false} LoopResumes(s: Hex, ts: seq<TileRect>, q: seq<Byte>, more: seq<Byte>)
    requires s.tiles == |ts|
    ensures var first := Loop(s, ts, q);
            Resumes(first, Loop(first.state, Rest(ts, first.state), first.rest + more), Loop(s, ts, q + more), more)
    decreases |ts|
  {
    if ts != [] {
      var o := OneTile(s, ts[0], q);
      if o.verdict.Wait? {
        assert Rest(ts, s) == ts;
        ResumesAtOnce(o, Loop(s, ts, q + more), more);
      } else {
        TileResumes(s, ts[0], q, more);
        if o.verdict.Done? {
          LoopResumes(o.state, ts[1..], o.rest, more);
          var first := Loop(o.state, ts[1..], o.rest);
          assert Rest(ts, first.state) == Rest(ts[1..], first.state);
          ResumesAfter(first, Loop(first.state, Rest(ts[1..], first.state), first.rest + more),
                       Loop(o.state, ts[1..], o.rest + more), more, o.calls);
        }
      }
    }
  }

  /** However the bytes are cut, being called again gives what one call on all bytes gives. */
  lemma DecodeResumes(s: Hex, r: Rect, q: seq<Byte>, more: seq<Byte>)
    requires Fits(s, r)
    ensures var first := Decode(s, r, q);
            Resumes(first, Decode(first.state, r, first.rest + more), Decode(s, r, q + more), more)
  {
    var s' := Start(s, r);
    LoopResumes(s', TilesLeft(r, s'.tiles), q, more);
    TilesLeftLater(r, s'.tiles, Decode(s, r, q).state.tiles);
  }

  // ---- The object -----------------------------------------------------------------------------------

  class HextileDecoder {
    var tiles: nat
    var tilesX: nat
    var tilesY: nat
    var totalTiles: nat
    var lastsubencoding: Byte
    var background: Option<Color>
    var foreground: Option<Color>
    var tile: Rect           // position and size of the current tile
    const tileBuffer: array<Byte>

    ghost predicate Valid()
      reads this
    {
      tileBuffer.Length == 16 * 16 * 4
    }

    ghost function State(): Hex
      reads this
    {
      Hex(tiles, tilesX, totalTiles, lastsubencoding, background, foreground)
    }

    constructor ()
      ensures Valid() && fresh(tileBuffer) && State() == Hex(0, 0, 0, 0, None, None)
    {
      tiles, tilesX, tilesY, totalTiles := 0, 0, 0, 0;
      lastsubencoding := 0;
      background, foreground := None, None;
      tile := Rect(0, 0, 0, 0);
      tileBuffer := new Byte[16 * 16 * 4](_ => 0);
    }

    method PutPixel(p: nat, color: Color, ghost img: seq<Color>)
      requires Valid() && Shows(tileBuffer[..], img)
      modifies tileBuffer
      ensures Shows(tileBuffer[..], PaintRow(img, p, 1, Opaque(color)))
    {
      ghost var data := tileBuffer[..];
      WritePixel(tileBuffer, p, color[0], color[1], color[2]);
      if 4 * p + 4 <= tileBuffer.Length {
        PutShows(data, tileBuffer[..], img, p, Opaque(color));
      } else {
        PutOutside(img, p, Opaque(color));
      }
    }

    /** `_startTile`. */
    method StartTile(t: TileRect, color: Color)
      requires Valid()
      modifies this`tile, tileBuffer
      ensures tile == t && Shows(tileBuffer[..], Uniform(t.w * t.h, Opaque(color)))
    {
      tile := t;
      var n := t.w * t.h;
      assert n <= 16 * 16 by {
        MulAtLeast(t.w, 16, t.h);
      }
      var i := 0;
      while i < n
        invariant i <= n && tile == t
        invariant Shows(tileBuffer[..], Uniform(i, Opaque(color)))
      {
        assert Uniform(i + 1, Opaque(color)) == Uniform(i, Opaque(color)) + [Opaque(color)];
        AppendPixel(tileBuffer, i, color[0], color[1], color[2], Uniform(i, Opaque(color)));
        i := i + 1;
      }
    }

    /** `_subTile`. */
    method SubTile(x: nat, y: nat, w: nat, h: nat, color: Color, ghost img: seq<Color>)
      requires Valid() && Shows(tileBuffer[..], img)
      modifies tileBuffer
      ensures Shows(tileBuffer[..], PaintRows(img, tile.w, x, y, w, h, Opaque(color)))
    {
      var yend := y + h;
      ghost var now := img;
      var j := y;
      while j < yend
        invariant y <= j <= yend
        invariant Shows(tileBuffer[..], now)
        invariant PaintRows(now, tile.w, x, j, w, yend - j, Opaque(color)) ==
                  PaintRows(img, tile.w, x, y, w, h, Opaque(color))
      {
        SubTileRow(x, j, w, color, now);
        now := PaintRow(now, x + j * tile.w, w, Opaque(color));
        j := j + 1;
      }
    }

    /** The inner loop. */
    method SubTileRow(x: nat, j: nat, w: nat, color: Color, ghost img: seq<Color>)
      requires Valid() && Shows(tileBuffer[..], img)
      modifies tileBuffer
      ensures Shows(tileBuffer[..], PaintRow(img, x + j * tile.w, w, Opaque(color)))
    {
      var xend := x + w;
      var i := x;
      ghost var start := x + j * tile.w;
      RowGrows(img, start, 0, Opaque(color));
      while i < xend
        invariant x <= i <= xend
        invariant Shows(tileBuffer[..], PaintRow(img, start, i - x, Opaque(color)))
      {
        RowGrows(img, start, i - x, Opaque(color));
        PutPixel(i + j * tile.w, color, PaintRow(img, start, i - x, Opaque(color)));
        i := i + 1;
      }
    }

    /** `_finishTile`. */
    method FinishTile(display: DisplayPort, ghost img: seq<Color>)
      requires Valid() && Shows(tileBuffer[..], img) && |img| == tile.w * tile.h
      modifies display`calls
      ensures display.calls == old(display.calls) + [BlitImage(tile.x, tile.y, tile.w, tile.h, Flat(img), Own)]
    {
      ShowsFlat(tileBuffer[..], img);
      display.Blit(tile.x, tile.y, tile.w, tile.h, tileBuffer, 0);
    }

    /** One sub-rectangle of the receive queue. */
    method ReadSub(rQ: array<Byte>, at: nat, coloured: bool, ghost b: seq<Byte>) returns (sub: Sub, rQi: nat)
      requires at + |b| <= rQ.Length && b == rQ[at..at + |b|]
      requires SubLen(coloured) <= |b| && (coloured || foreground.Some?)
      ensures rQi == at + SubLen(coloured) && sub == SubIn(b[..SubLen(coloured)], coloured, foreground)
      ensures b[SubLen(coloured)..] == rQ[rQi..at + |b|]
    {
      rQi := at;
      var color;
      if coloured {
        color := rQ[rQi..rQi + 4];
        rQi := rQi + 4;
      } else {
        color := foreground.value;
      }
      var xy := rQ[rQi];
      rQi := rQi + 1;
      var wh := rQ[rQi];
      rQi := rQi + 1;
      sub := Sub(BoxOf(xy, wh), color);
      assert rQ[at..rQi] == b[..SubLen(coloured)];
    }

    method PaintSub(rQ: array<Byte>, at: nat, count: nat, coloured: bool, ghost img: seq<Color>, ghost b: seq<Byte>,
                    ghost all: seq<Color>)
        returns (rQi: nat, ghost img': seq<Color>, ghost b': seq<Byte>)
      requires Valid() && rQ != tileBuffer && at + |b| <= rQ.Length && b == rQ[at..at + |b|]
      requires Shows(tileBuffer[..], img) && Remaining(img, tile.w, b, count, coloured, foreground, all) && count > 0
      modifies tileBuffer
      ensures rQi + |b'| <= rQ.Length && b' == rQ[rQi..rQi + |b'|]
      ensures Shows(tileBuffer[..], img') && Remaining(img', tile.w, b', count - 1, coloured, foreground, all)
      ensures rQi + |b'| == at + |b|
    {
      RemainingStep(img, tile.w, b, count, coloured, foreground, all);
      var sub;
      sub, rQi := ReadSub(rQ, at, coloured, b);
      img', b' := Over(img, tile.w, sub), b[SubLen(coloured)..];
      SubTile(sub.box.x, sub.box.y, sub.box.w, sub.box.h, sub.color, img);
    }

    /** The sub-rectangles of a tile, read from position `at` on. */
    method SubTiles(rQ: array<Byte>, at: nat, count: nat, coloured: bool, ghost img: seq<Color>,
                    ghost bytes: seq<Byte>, ghost all: seq<Color>)
        returns (rQi: nat)
      requires Valid() && rQ != tileBuffer && at + |bytes| <= rQ.Length && bytes == rQ[at..at + |bytes|]
      requires Shows(tileBuffer[..], img) && Remaining(img, tile.w, bytes, count, coloured, foreground, all)
      modifies tileBuffer
      ensures Shows(tileBuffer[..], all) && rQi == at + |bytes|
    {
      rQi := at;
      ghost var now, b := img, bytes;
      for s := 0 to count
        invariant rQi + |b| == at + |bytes| && b == rQ[rQi..rQi + |b|]
        invariant Shows(tileBuffer[..], now)
        invariant Remaining(now, tile.w, b, count - s, coloured, foreground, all)
      {
        rQi, now, b := PaintSub(rQ, rQi, count - s, coloured, now, b, all);
      }
    }

    /** How many bytes the tile takes, unless they are not all there. */
    method TileLength(t: TileRect, sock: W.Websock) returns (bytes: Option<nat>)
      requires sock.Valid() && |sock.Unread()| >= 1
      ensures var n := Need(sock.Unread(), t);
              bytes == if n.Some? && n.value <= |sock.Unread()| then n else None
    {
      var subencoding := sock.Peek8();
      var n: nat := 1;
      if Bit(subencoding, RAW) {
        n := n + t.w * t.h * 4;
      } else {
        if Bit(subencoding, BACKGROUND) {
          n := n + 4;
        }
        if Bit(subencoding, FOREGROUND) {
          n := n + 4;
        }
        if Bit(subencoding, SUBRECTS) {
          n := n + 1;  // the count is not shifted off
          var wait := sock.Lacks(n);
          if wait {
            return None;
          }
          var subrects: int := sock.rQ[sock.rQi + n - 1];
          n := n + subrects * (if Bit(subencoding, COLOURED) then 4 + 2 else 2);
        }
      }
      var wait := sock.Lacks(n);
      if wait {
        return None;
      }
      return Some(n);
    }

    method MakeOpaque(rQ: array<Byte>, rQi: nat, pixels: nat)
      requires rQi + 4 * pixels <= rQ.Length
      modifies rQ
      ensures OpaqueUpTo(rQ[..], old(rQ[..]), rQi, pixels)
    {
      for i := 0 to pixels
        invariant OpaqueUpTo(rQ[..], old(rQ[..]), rQi, i)
      {
        OpaqueStep(rQ[..], old(rQ[..]), rQi, i);
        rQ[rQi + i * 4 + 3] := 255;
      }
    }

    /** A raw tile is made opaque in the receive queue itself. */
    method RawTile(t: TileRect, bytes: nat, sock: W.Websock, display: DisplayPort)
      requires sock.Valid() && bytes == 1 + t.w * t.h * 4 <= |sock.Unread()|
      modifies sock`rQi, sock.rQ, display`calls
      ensures sock.Valid() && sock.Unread() == old(sock.Unread())[bytes..]
      ensures display.calls == old(display.calls) +
              [BlitImage(t.x, t.y, t.w, t.h, Opaqued(old(sock.Unread())[1..bytes]), Received)]
    {
      var rQ, rQi := sock.rQ, sock.rQi + 1;
      var pixels := t.w * t.h;
      ghost var was := rQ[..];
      MakeOpaque(rQ, rQi, pixels);
      ghost var b := was[rQi..rQi + pixels * 4];
      assert b == old(sock.Unread())[1..bytes];
      OpaqueEnd(rQ[..], was, rQi, pixels);
      display.Blit(t.x, t.y, t.w, t.h, rQ, rQi);
      sock.rQi := rQi + bytes - 1;
      assert sock.Unread() == old(sock.Unread())[bytes..];
    }

    /** The colours that the subencoding announces. */
    method TileColours(sock: W.Websock) returns (rQi: nat)
      requires sock.Valid() && |sock.Unread()| >= 1 && |sock.Unread()| >= HeadLen(sock.Unread()[0])
      modifies this`background, this`foreground
      ensures rQi == sock.rQi + HeadLen(sock.Unread()[0])
      ensures background == Background(old(State()), sock.Unread())
              && foreground == Foreground(old(State()), sock.Unread())
    {
      ghost var q := sock.Unread();
      var rQ := sock.rQ;
      var subencoding := rQ[sock.rQi];
      rQi := sock.rQi + 1;
      if Bit(subencoding, BACKGROUND) {
        background := Some(rQ[rQi..rQi + 4]);
        Slice(rQ[..], sock.rQi, sock.rQend, 1, 5);
        rQi := rQi + 4;
      }
      if Bit(subencoding, FOREGROUND) {
        foreground := Some(rQ[rQi..rQi + 4]);
        Slice(rQ[..], sock.rQi, sock.rQend, HeadLen(q[0]) - 4, HeadLen(q[0]));
        rQi := rQi + 4;
      }
    }

    /** The sub-rectangles of a tile, if it has any; false where the source throws on an undefined colour. */
    method PaintSubs(rQ: array<Byte>, at: nat, ghost img: seq<Color>, ghost b: seq<Byte>, t: TileRect)
        returns (ok: bool, rQi: nat)
      requires Valid() && rQ != tileBuffer && Whole(b, t) && !Bit(b[0], RAW) && Bit(b[0], SUBRECTS)
      requires at + |b| <= rQ.Length && b == rQ[at..at + |b|] && Shows(tileBuffer[..], img) && tile == t
      modifies tileBuffer
      ensures ok <==> !(b[HeadLen(b[0])] > 0 && !Bit(b[0], COLOURED) && foreground.None?)
      ensures ok ==> rQi == at + |b| && Shows(tileBuffer[..], PaintAll(img, t.w, AllSubs(b, t, foreground)))
    {
      ghost var n := HeadLen(b[0]);
      var subencoding := rQ[at];
      rQi := at + HeadLen(subencoding);
      var subrects := rQ[rQi] as int;
      var coloured := Bit(subencoding, COLOURED);
      assert subrects == b[n];
      rQi := rQi + 1;
      if subrects > 0 && !coloured && foreground.None? {
        return false, rQi;
      }
      assert rQ[rQi..rQi + |b[n + 1..]|] == b[n + 1..];
      rQi := SubTiles(rQ, rQi, subrects, coloured, img, b[n + 1..], PaintAll(img, t.w, AllSubs(b, t, foreground)));
      ok := true;
    }

    /** The picture of a tile with a background; false where the source throws on an undefined colour. */
    method PaintTile(t: TileRect, sock: W.Websock, ghost b: seq<Byte>) returns (ok: bool, rQi: nat)
      requires Valid() && sock.Valid() && sock.rQ != tileBuffer
      requires b <= sock.Unread() && Whole(b, t) && !Bit(b[0], RAW)
      modifies this`background, this`foreground, this`tile, tileBuffer
      ensures ok <==> Painted(old(State()), t, b).Some?
      ensures ok ==> background == Background(old(State()), b) && foreground == Foreground(old(State()), b)
      ensures ok ==> rQi == sock.rQi + |b| && tile == t && Shows(tileBuffer[..], Painted(old(State()), t, b).value)
    {
      SamePrefix(State(), b, sock.Unread());
      rQi := TileColours(sock);
      if background.None? {
        return false, rQi;
      }
      StartTile(t, background.value);
      if Bit(sock.rQ[sock.rQi], SUBRECTS) {
        assert b == sock.rQ[sock.rQi..sock.rQi + |b|];
        ok, rQi := PaintSubs(sock.rQ, sock.rQi, Uniform(t.w * t.h, Opaque(background.value)), b, t);
      } else {
        ok := true;
      }
    }

    /** A tile in the colour of the background before it, unless the one before it was raw. */
    method BlankTile(t: TileRect, sock: W.Websock, display: DisplayPort) returns (ok: bool)
      requires sock.Valid() && |sock.Unread()| >= 1
      modifies sock`rQi, display`calls
      ensures sock.Valid()
      ensures ok <==> Bit(lastsubencoding, RAW) || background.Some?
      ensures ok ==> sock.Unread() == old(sock.Unread())[1..]
      ensures !ok || Bit(lastsubencoding, RAW) ==> display.calls == old(display.calls)
      ensures ok && !Bit(lastsubencoding, RAW) ==>
                display.calls == old(display.calls) + [FillRect(t.x, t.y, t.w, t.h, background.value, Own)]
    {
      if !Bit(lastsubencoding, RAW) {
        if background.None? {
          return false;
        }
        display.Issue(FillRect(t.x, t.y, t.w, t.h, background.value, Own));
      }
      sock.SkipBytes(1);
      ok := true;
    }

    /** A tile with a background. */
    method PaintedTile(t: TileRect, sock: W.Websock, display: DisplayPort, ghost b: seq<Byte>) returns (ok: bool)
      requires Valid() && sock.Valid() && sock.rQ != tileBuffer
      requires b <= sock.Unread() && Whole(b, t) && !Bit(b[0], RAW)
      modifies this`background, this`foreground, this`tile, tileBuffer, sock`rQi, display`calls
      ensures sock.Valid()
      ensures var img := Painted(old(State()), t, b);
              && (ok <==> img.Some?)
              && display.calls == old(display.calls) +
                (if ok then [BlitImage(t.x, t.y, t.w, t.h, Flat(img.value), Own)] else [])
      ensures ok ==> background == Background(old(State()), b) && foreground == Foreground(old(State()), b)
      ensures ok ==> sock.Unread() == old(sock.Unread())[|b|..]
    {
      var rQi;
      ok, rQi := PaintTile(t, sock, b);
      if ok {
        FinishTile(display, Painted(old(State()), t, b).value);
        sock.SkipBytes(rQi - sock.rQi);
      }
    }

    /** One tile of `decodeRect`. */
    method DecodeTile(t: TileRect, bytes: nat, sock: W.Websock, display: DisplayPort) returns (ok: bool)
      requires Valid() && sock.Valid() && sock.rQ != tileBuffer && tiles > 0
      requires bytes <= |sock.Unread()| && Whole(sock.Unread()[..bytes], t)
      modifies this, tileBuffer, sock`rQi, sock.rQ, display`calls
      ensures sock.Valid()
      ensures var s, b := old(State()), old(sock.Unread())[..bytes];
              var calls := Drawn(s, t, b);
              && (ok <==> calls.Some?)
              && display.calls == old(display.calls) + (if ok then calls.value else [])
              && (ok ==> State() == NextTile(s, b) && sock.Unread() == old(sock.Unread())[bytes..])
    {
      ghost var b := sock.Unread()[..bytes];
      var subencoding := sock.Peek8();
      assert subencoding == b[0];
      if subencoding == 0 {
        ok := BlankTile(t, sock, display);
        if !ok {
          return false;
        }
      } else if Bit(subencoding, RAW) {
        assert sock.Unread()[1..bytes] == b[1..];
        RawTile(t, bytes, sock, display);
      } else {
        ok := PaintedTile(t, sock, display, b);
        if !ok {
          return false;
        }
      }
      lastsubencoding := subencoding;
      tiles := tiles - 1;
      ok := true;
    }

    /** The peek at the next tile, and the tile itself when all of it is there. */
    method PeekTile(t: TileRect, sock: W.Websock, display: DisplayPort) returns (v: Verdict)
      requires Valid() && sock.Valid() && sock.rQ != tileBuffer && tiles > 0
      modifies this, tileBuffer, sock`rQi, sock.rQ, display`calls
      ensures sock.Valid()
      ensures var o := OneTile(old(State()), t, old(sock.Unread()));
              && v == o.verdict && display.calls == old(display.calls) + o.calls
              && (!v.Fail? ==> State() == o.state && sock.Unread() == o.rest)
    {
      ghost var q := sock.Unread();
      var wait := sock.Lacks(1);
      if wait {
        return Wait;
      }
      var subencoding := sock.Peek8();
      if subencoding > 30 {
        return Fail;
      }
      var bytes := TileLength(t, sock);
      if bytes.None? {
        return Wait;
      }
      assert Whole(q[..bytes.value], t);
      var ok := DecodeTile(t, bytes.value, sock, display);
      v := if ok then Done else Fail;
    }

    method DecodeRect(r: Rect, sock: W.Websock, display: DisplayPort) returns (v: Verdict)
      requires Valid() && sock.Valid() && sock.rQ != tileBuffer && Fits(State(), r)
      modifies this, tileBuffer, sock`rQi, sock.rQ, display`calls
      ensures Valid() && sock.Valid()
      ensures var o := Decode(old(State()), r, old(sock.Unread()));
              && v == o.verdict && display.calls == old(display.calls) + o.calls
              && (!v.Fail? ==> State() == o.state && sock.Unread() == o.rest)
    {
      if tiles == 0 {
        tilesX := (r.w + 15) / 16;
        tilesY := (r.h + 15) / 16;
        totalTiles := tilesX * tilesY;
        tiles := totalTiles;
      }
      ghost var all := Loop(State(), TilesLeft(r, tiles), sock.Unread()).After(display.calls);
      while tiles > 0
        invariant sock.Valid() && sock.rQ == old(sock.rQ) && Fits(State(), r)
        invariant Ahead(State(), r, sock.Unread(), display.calls, all)
        decreases tiles
      {
        ghost var s, q, before := State(), sock.Unread(), display.calls;
        var t := TileRectAt(r);
        v := PeekTile(t, sock, display);
        AheadStep(s, r, q, before, all);
        if !v.Done? {
          return v;
        }
      }
      return Done;
    }

    /** Where the next tile is. */
    method TileRectAt(r: Rect) returns (t: TileRect)
      requires Fits(State(), r) && tiles > 0
      ensures t == TilesLeft(r, tiles)[0]
    {
      var currTile := totalTiles - tiles;
      Column(r, currTile);
      var tileX := currTile % tilesX;
      var tileY := currTile / tilesX;
      var tx := r.x + tileX * 16;
      var ty := r.y + tileY * 16;
      assert Tile(r, currTile) == Rect(tx, ty, Min(16, (r.x + r.w) - tx), Min(16, (r.y + r.h) - ty));
      t := Rect(tx, ty, Min(16, (r.x + r.w) - tx), Min(16, (r.y + r.h) - ty));
    }
  }

  /** Decoding the tiles still to come, after the calls made so far, completes the outcome. */
  ghost predicate Ahead(s: Hex, r: Rect, q: seq<Byte>, before: seq<Call>, all: Outcome<Hex>) {
    s.tiles <= Total(r) && Loop(s, TilesLeft(r, s.tiles), q).After(before) == all
  }

  lemma AheadStep(s: Hex, r: Rect, q: seq<Byte>, before: seq<Call>, all: Outcome<Hex>)
    requires Ahead(s, r, q, before, all) && s.tiles > 0
    ensures var o := OneTile(s, TilesLeft(r, s.tiles)[0], q);
            if o.verdict.Done? then Ahead(o.state, r, o.rest, before + o.calls, all) else o.After(before) == all
  {
    var ts := TilesLeft(r, s.tiles);
    var o := OneTile(s, ts[0], q);
    if o.verdict.Done? {
      TilesLeftLater(r, s.tiles, s.tiles - 1);
      var next := Loop(o.state, ts[1..], o.rest);
      assert before + (o.calls + next.calls) == (before + o.calls) + next.calls;
    }
  }

  lemma SamePrefix(s: Hex, b: seq<Byte>, q: seq<Byte>)
    requires b <= q && |b| >= 1 && |b| >= HeadLen(b[0])
    ensures Background(s, q) == Background(s, b) && Foreground(s, q) == Foreground(s, b)
  {
    var n := HeadLen(b[0]);
    if Bit(b[0], FOREGROUND) {
      assert q[n - 4..n] == b[n - 4..n];
    }
    if Bit(b[0], BACKGROUND) {
      assert q[1..5] == b[1..5];
    }
  }

  /** The first `n` pixels from position `at` on are opaque; nothing else has changed. */
  ghost predicate OpaqueUpTo(q: seq<Byte>, was: seq<Byte>, at: nat, n: nat) {
    && |q| == |was|
    && forall k :: 0 <= k < |q| ==> q[k] == if at <= k < at + 4 * n && (k - at) % 4 == 3 then 255 else was[k]
  }

  lemma OpaqueStep(q: seq<Byte>, was: seq<Byte>, at: nat, n: nat)
    requires OpaqueUpTo(q, was, at, n) && at + n * 4 + 3 < |q|
    ensures OpaqueUpTo(q[at + n * 4 + 3 := 255], was, at, n + 1)
  {
  }

  lemma OpaqueEnd(q: seq<Byte>, was: seq<Byte>, at: nat, n: nat)
    requires OpaqueUpTo(q, was, at, n) && at + n * 4 <= |q|
    ensures q[at..at + n * 4] == Opaqued(was[at..at + n * 4]) && q[at + n * 4..] == was[at + n * 4..]
  {
  }

  /** Painting what is left of the sub-rectangles completes the picture. */
  ghost predicate Remaining(now: seq<Color>, width: nat, b: seq<Byte>, count: nat, coloured: bool, fg: Option<Color>,
                            all: seq<Color>) {
    && |b| == count * SubLen(coloured)
    && (count == 0 || coloured || fg.Some?)
    && PaintAll(now, width, SubsOf(b, count, coloured, fg)) == all
  }

  lemma RemainingStep(now: seq<Color>, width: nat, b: seq<Byte>, count: nat, coloured: bool, fg: Option<Color>,
                      all: seq<Color>)
    requires Remaining(now, width, b, count, coloured, fg, all) && count > 0
    ensures var n := SubLen(coloured);
            && n <= |b|
            && Remaining(Over(now, width, SubIn(b[..n], coloured, fg)), width, b[n..], count - 1, coloured, fg, all)
  {
    SizeLeft(count, SubLen(coloured));
    var subs := SubsOf(b, count, coloured, fg);
    assert subs[1..] == SubsOf(b[SubLen(coloured)..], count - 1, coloured, fg);
  }
}
