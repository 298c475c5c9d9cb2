/**
 What the rectangle decoders ask the display for: drawing only, with as many bytes as there are pixels; and which
 rectangles bring images, and which are drawn from bytes in the receive buffer.
 */
module Drawing {
  import opened Bytes
  import opened Decoding
  import opened Handover
  import opened Rfb
  import opened RfbUpdate
  import opened Tiling
  import opened Wrappers
  import H = Hextile
  import HE = HextileEncoding
  import P = Pictures
  import R = Rre
  import T = Tight
  import TE = TightEncoding

  /** A call that draws, with enough bytes and no more. */
  predicate Draws(c: Call) {
    !Ends(c) && (c.BlitImage? ==> |c.data| == c.w * c.h * 4)
  }

  ghost predicate AllDraw(calls: seq<Call>) {
    forall c :: c in calls ==> Draws(c)
  }

  // ---- The decoders ---------------------------------------------------------------------------------

  lemma {:induction false} LoopDraws(n: int, r: Rect, q: seq<Byte>)
    ensures AllDraw(R.Loop(n, r, q).calls)
    decreases |q|
  {
    if n > 0 && |q| >= 12 {
      LoopDraws(n - 1, r, q[12..]);
    }
  }

  lemma RreDraws(n: int, r: Rect, q: seq<Byte>)
    ensures AllDraw(R.Decode(n, r, q).calls)
  {
    if n != 0 {
      LoopDraws(n, r, q);
    } else if |q| >= 8 {
      LoopDraws(S32(q[..4]), r, q[8..]);
    }
  }

  lemma TileDraws(s: H.Hex, t: TileRect, b: seq<Byte>)
    requires H.Whole(b, t)
    ensures H.Drawn(s, t, b).Some? ==> AllDraw(H.Drawn(s, t, b).value)
  {
  }

  lemma {:induction false} TilesDraw(s: H.Hex, ts: seq<TileRect>, q: seq<Byte>)
    requires s.tiles == |ts|
    ensures AllDraw(H.Loop(s, ts, q).calls)
    decreases |ts|
  {
    if ts != [] {
      var o := H.OneTile(s, ts[0], q);
      if o.verdict.Done? {
        TileDraws(s, ts[0], q[..H.Need(q, ts[0]).value]);
        TilesDraw(o.state, ts[1..], o.rest);
      }
    }
  }

  lemma CopyDraws(inf: T.Inflater, s: T.Tight, stream: nat, r: Rect, q: seq<Byte>)
    requires stream < 4
    ensures AllDraw(T.Copy(inf, s, stream, r, q).calls)
  {
  }

  lemma IndicesDraw(inf: T.Inflater, s: T.Tight, stream: nat, r: Rect, q: seq<Byte>)
    requires stream < 4
    ensures AllDraw(T.Indices(inf, s, stream, r, q).calls)
  {
  }

  lemma PaletteDraws(inf: T.Inflater, s: T.Tight, stream: nat, r: Rect, q: seq<Byte>)
    requires stream < 4
    ensures AllDraw(T.Palette(inf, s, stream, r, q).calls)
  {
    var l := T.LoadPalette(s, q);
    if s.numColors != 0 {
      IndicesDraw(inf, s, stream, r, q);
    } else if l.Some? {
      IndicesDraw(inf, l.value.0, stream, r, l.value.1);
    }
  }

  lemma FilteredDraws(inf: T.Inflater, s: T.Tight, r: Rect, q: seq<Byte>)
    requires s.ctl.Some? && s.filter.Some?
    ensures AllDraw(T.Filtered(inf, s, r, q).calls)
  {
    if s.filter.value == 0 {
      CopyDraws(inf, s, s.ctl.value % 4, r, q);
    } else if s.filter.value == 1 {
      PaletteDraws(inf, s, s.ctl.value % 4, r, q);
    }
  }

  lemma BasicDraws(inf: T.Inflater, s: T.Tight, r: Rect, q: seq<Byte>)
    requires s.ctl.Some?
    ensures AllDraw(T.Basic(inf, s, r, q).calls)
  {
    if s.filter.Some? {
      FilteredDraws(inf, s, r, q);
    } else if BitAt(s.ctl.value, 2) == 0 {
      FilteredDraws(inf, s.(filter := Some(0)), r, q);
    } else if |q| >= 1 {
      FilteredDraws(inf, s.(filter := Some(q[0] as int)), r, q[1..]);
    }
  }

  lemma BodyDraws(inf: T.Inflater, s: T.Tight, r: Rect, q: seq<Byte>)
    requires s.ctl.Some?
    ensures AllDraw(T.Body(inf, s, r, q).calls)
  {
    if s.ctl.value < 8 {
      BasicDraws(inf, s, r, q);
    }
  }

  lemma TightDraws(inf: T.Inflater, s: T.Tight, r: Rect, q: seq<Byte>)
    ensures AllDraw(T.Decode(inf, s, r, q).calls)
  {
    if s.ctl.Some? {
      BodyDraws(inf, s, r, q);
    } else if |q| >= 1 {
      BodyDraws(inf, T.Control(s, q[0]), r, q[1..]);
    }
  }

  /** Whatever bytes a rectangle has. */
  lemma RectDraws(env: Env, c: Client, q: seq<Byte>)
    requires c.fbu.encoding.Some?
    ensures AllDraw(HandleRect(env, c, q).calls)
  {
    match c.fbu.encoding.value
    case 2 => RreDraws(c.rre, c.fbu.rect, q);
    case 5 =>
      var s := H.Start(c.hex, c.fbu.rect);
      TilesDraw(s, TilesLeft(c.fbu.rect, s.tiles), q);
    case 7 => TightDraws(env.inf, c.tight, c.fbu.rect, q);
    case _ =>
  }

  // ---- Images, and bytes in the receive buffer ------------------------------------------------------

  ghost predicate HasImage(calls: seq<Call>) {
    exists c :: c in calls && Image(c)
  }

  ghost predicate HasExposed(calls: seq<Call>) {
    exists c :: c in calls && Exposed(c)
  }

  /** A Tight rectangle with an image. */
  predicate Pictured(code: RectCode) {
    code.TightCode? && code.code.JpegCode? && code.rect.w != 0 && code.rect.h != 0
  }

  /** An RRE rectangle, or a Hextile rectangle with a raw tile. */
  predicate FromBuffer(code: RectCode) {
    code.RreCode? || (code.HextileCode? && HasRaw(code.tiles))
  }

  predicate HasRaw(tiles: seq<HE.TileCode>) {
    exists i :: 0 <= i < |tiles| && tiles[i].RawTile?
  }

  /** No rectangle drawn from the receive buffer comes after one with an image. */
  predicate NoneLate(codes: seq<RectCode>) {
    forall i, j :: 0 <= i < j < |codes| && Pictured(codes[i]) ==> !FromBuffer(codes[j])
  }

  lemma {:induction false} SubsAreExposed(r: Rect, subs: seq<R.Sub>)
    ensures AllDraw(R.DrawSubs(r, subs)) && !HasImage(R.DrawSubs(r, subs))
    decreases |subs|
  {
    if subs != [] {
      SubsAreExposed(r, subs[1..]);
    }
  }

  lemma RreIsExposed(r: Rect, background: seq<Byte>, subs: seq<R.Sub>)
    ensures var calls := R.Draw(r, background, subs); AllDraw(calls) && !HasImage(calls) && HasExposed(calls)
  {
    SubsAreExposed(r, subs);
    assert R.Draw(r, background, subs)[0] in R.Draw(r, background, subs);
  }

  lemma TileKind(tile: HE.TileCode, t: TileRect, s: H.Hex)
    requires HE.ValidTile(tile, t, s)
    ensures var c := HE.DrawTile(tile, t, s); Draws(c) && !Image(c) && (Exposed(c) <==> tile.RawTile?)
  {
  }

  lemma {:induction false} TilesKind(tiles: seq<HE.TileCode>, ts: seq<TileRect>, s: H.Hex)
    requires s.tiles == |ts| && HE.ValidTiles(tiles, ts, s)
    ensures var calls := HE.DrawTiles(tiles, ts, s);
            AllDraw(calls) && !HasImage(calls) && (HasExposed(calls) <==> HasRaw(tiles))
    decreases |ts|
  {
    if ts != [] {
      TileKind(tiles[0], ts[0], s);
      TilesKind(tiles[1..], ts[1..], HE.AfterTile(tiles[0], s));
      var c, rest := HE.DrawTile(tiles[0], ts[0], s), HE.DrawTiles(tiles[1..], ts[1..], HE.AfterTile(tiles[0], s));
      Cons(c, rest);
      assert HasRaw(tiles) <==> tiles[0].RawTile? || HasRaw(tiles[1..]) by {
        assert tiles == [tiles[0]] + tiles[1..];
        if HasRaw(tiles[1..]) {
          var i :| 0 <= i < |tiles[1..]| && tiles[1..][i].RawTile?;
          assert tiles[i + 1].RawTile?;
        }
      }
    }
  }

  lemma Cons(c: Call, rest: seq<Call>)
    ensures AllDraw([c] + rest) <==> Draws(c) && AllDraw(rest)
    ensures HasImage([c] + rest) <==> Image(c) || HasImage(rest)
    ensures HasExposed([c] + rest) <==> Exposed(c) || HasExposed(rest)
  {
    assert c in [c] + rest && forall d :: d in rest ==> d in [c] + rest;
  }

  lemma TightKind(env: Env, m: Memory, code: RectCode)
    requires code.TightCode? && ValidRect(env, m, code)
    ensures var calls := DrawRect(env, m, code);
            AllDraw(calls) && !HasExposed(calls) && (HasImage(calls) <==> Pictured(code))
  {
    var c := DrawRect(env, m, code)[0];
    Cons(c, []);
    assert DrawRect(env, m, code) == [c] + [];
  }

  /** What a rectangle means for the display. */
  lemma RectKind(env: Env, m: Memory, code: RectCode)
    requires ValidRect(env, m, code)
    ensures var calls := DrawRect(env, m, code);
            AllDraw(calls) && (HasImage(calls) <==> Pictured(code)) && (HasExposed(calls) <==> FromBuffer(code))
  {
    match code
    case CopyCode(_, _, _) =>
    case RreCode(r, background, subs) => RreIsExposed(r, background, subs);
    case HextileCode(r, tiles) => TilesKind(tiles, TilesLeft(r, Total(r)), H.Start(m.hex, r));
    case TightCode(_, _, _) => TightKind(env, m, code);
  }

  // ---- Whole updates --------------------------------------------------------------------------------

  lemma Snoc(init: seq<Call>, c: Call)
    ensures AllDraw(init + [c]) <==> AllDraw(init) && Draws(c)
    ensures HasImage(init + [c]) <==> HasImage(init) || Image(c)
    ensures HasExposed(init + [c]) <==> HasExposed(init) || Exposed(c)
  {
    assert c in init + [c] && forall d :: d in init ==> d in init + [c];
  }

  lemma {:induction false} SafeOn(before: seq<Call>, calls: seq<Call>)
    requires AllDraw(calls) && !(HasImage(calls) && HasExposed(calls))
    ensures ImageSince(before + calls) <==> ImageSince(before) || HasImage(calls)
    ensures Safe(before + calls) <==> Safe(before) && !(ImageSince(before) && HasExposed(calls))
    decreases |calls|
  {
    if calls == [] {
      assert before + calls == before;
    } else {
      var n := |calls| - 1;
      var init, c := calls[..n], calls[n];
      assert calls == init + [c] && before + calls == before + init + [c];
      Snoc(init, c);
      SafeOn(before, init);
      OneMoreCall(before + init, c);
    }
  }

  lemma {:induction false} RectsSafe(env: Env, m: Memory, codes: seq<RectCode>, before: seq<Call>)
    requires ValidRects(env, m, codes)
    ensures Safe(before + CallsOf(PiecesOf(env, m, codes))) <==>
            Safe(before) && NoneLate(codes)
              && (ImageSince(before) ==> forall j :: 0 <= j < |codes| ==> !FromBuffer(codes[j]))
    decreases |codes|
  {
    var ps := PiecesOf(env, m, codes);
    if codes == [] {
      assert before + CallsOf(ps) == before;
    } else {
      var first, rest := DrawRect(env, m, codes[0]), PiecesOf(env, AfterRect(env, m, codes[0]), codes[1..]);
      assert ps[1..] == rest;
      assert before + CallsOf(ps) == before + first + CallsOf(rest);
      RectKind(env, m, codes[0]);
      SafeOn(before, first);
      RectsSafe(env, AfterRect(env, m, codes[0]), codes[1..], before + first);
      LateOrNot(codes, ImageSince(before));
    }
  }

  lemma LateOrNot(codes: seq<RectCode>, seen: bool)
    requires codes != []
    ensures NoneLate(codes) && (seen ==> forall j :: 0 <= j < |codes| ==> !FromBuffer(codes[j])) <==>
            && !(seen && FromBuffer(codes[0])) && NoneLate(codes[1..])
            && (seen || Pictured(codes[0]) ==> forall j :: 0 <= j < |codes[1..]| ==> !FromBuffer(codes[1..][j]))
  {
    var rest := codes[1..];
    assert forall j :: 0 <= j < |rest| ==> rest[j] == codes[j + 1];
    assert forall j :: 0 < j < |codes| ==> codes[j] == rest[j - 1];
  }

  lemma FinishIsSafe(env: Env, calls: seq<Call>)
    ensures Safe(calls + Finish(env)) <==> Safe(calls)
    ensures Ended(calls + Finish(env))
  {
    OneMoreCall(calls, Flip);
    if !env.continuous {
      OneMoreCall(calls + [Flip], UpdateRequest);
      assert calls + Finish(env) == calls + [Flip] + [UpdateRequest];
    }
  }

  /** A new update starts afresh. */
  lemma {:induction false} SafeAfterEnd(before: seq<Call>, calls: seq<Call>)
    requires Ended(before)
    ensures Safe(before + calls) <==> Safe(before) && Safe(calls)
    ensures ImageSince(before + calls) <==> ImageSince(calls)
    decreases |calls|
  {
    if calls == [] {
      assert before + calls == before;
    } else {
      var n := |calls| - 1;
      var init, c := calls[..n], calls[n];
      SafeAfterEnd(before, init);
      assert calls == init + [c] && before + calls == before + init + [c];
      OneMoreCall(before + init, c);
      OneMoreCall(init, c);
    }
  }

  lemma UpdateSafe(env: Env, m: Memory, u: Update, calls: seq<Call>)
    requires ValidUpdate(env, m, u) && calls == CallsOf(PiecesOf(env, m, u.rects))
    ensures Safe(calls + Finish(env)) <==> NoneLate(u.rects)
    ensures Ended(calls + Finish(env))
  {
    RectsSafe(env, m, u.rects, []);
    assert [] + calls == calls;
    FinishIsSafe(env, calls);
  }

  ghost predicate AllInOrder(us: seq<Update>) {
    us == [] || (NoneLate(us[0].rects) && AllInOrder(us[1..]))
  }

  lemma {:induction false} UpdatesInOrder(env: Env, m: Memory, us: seq<Update>)
    requires ValidUpdates(env, m, us)
    ensures Safe(DrawUpdates(env, m, us)) <==> AllInOrder(us)
    decreases |us|
  {
    if us != [] {
      var calls, m1 := CallsOf(PiecesOf(env, m, us[0].rects)), UpdatePiece(env, m, us[0]).after;
      UpdateSafe(env, m, us[0], calls);
      UpdatesInOrder(env, m1, us[1..]);
      SafeAfterEnd(calls + Finish(env), DrawUpdates(env, m1, us[1..]));
    }
  }

  lemma {:induction false} InOrder(us: seq<Update>)
    ensures AllInOrder(us) <==> forall u :: u in us ==> NoneLate(u.rects)
    decreases |us|
  {
    if us != [] {
      InOrder(us[1..]);
      assert us == [us[0]] + us[1..];
    }
  }

  /** The calls for updates are safe exactly if in each of them no rectangle that is drawn from the receive buffer, an
      RRE rectangle or a Hextile rectangle with a raw tile, comes after an image. */
  lemma UpdatesSafe(env: Env, m: Memory, us: seq<Update>)
    requires ValidUpdates(env, m, us)
    ensures Safe(DrawUpdates(env, m, us)) <==> forall u :: u in us ==> NoneLate(u.rects)
  {
    UpdatesInOrder(env, m, us);
    InOrder(us);
  }
}
