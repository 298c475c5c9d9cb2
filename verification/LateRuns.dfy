/**
 Runs of the client and the display that go wrong, byte by byte: an RRE rectangle behind an image whose colour the next
 message overwrites, a raw Hextile tile behind an image, and an image of the wrong size for which the client waits.
 */
module LateRuns {
  import opened Bytes
  import opened Decoding
  import opened Growing
  import opened Handover
  import opened Rfb
  import opened RfbUpdate
  import opened Streaming
  import opened Tiling
  import opened Viewing
  import opened ViewingExactly
  import opened Wrappers
  import H = Hextile
  import HE = HextileEncoding
  import P = Pictures
  import Q = RenderQueue
  import Schedules
  import TE = TightEncoding

  // ---- Rectangles that arrive whole -----------------------------------------------------------------

  function RunWith(u: Machine<Client>, pics: Q.Pictures, fronts: Fronts, c: Client, q: seq<Byte>, n: nat,
                   d: Q.DisplayState): Run<Client>
    requires u.Valid()
  {
    RunUntil(u, c, q, Busy(u, pics, fronts, c, q, n, d))
  }

  /** The header of a rectangle and its data: two steps. */
  lemma RectArrives(u: Machine<Client>, pics: Q.Pictures, fronts: Fronts, c: Client, q: seq<Byte>, n: nat,
                    d: Q.DisplayState, c1: Client, q1: seq<Byte>, c2: Client, q2: seq<Byte>, calls: seq<Call>)
    requires u.Valid() && !u.header(c) && !u.header(c1)
    requires u.step(c, q) == Outcome(c1, q1, [], Done) && u.step(c1, q1) == Outcome(c2, q2, calls, Done)
    ensures RunWith(u, pics, fronts, c, q, n, d) ==
            RunWith(u, pics, fronts, c2, q2, n + |calls|, Deliver(pics, fronts, n, d, calls)).After(calls)
  {
    RunGoesOn(u, pics, fronts, c, q, n, d, Outcome(c1, q1, [], Done));
    RunGoesOn(u, pics, fronts, c1, q1, n, d, Outcome(c2, q2, calls, Done));
    AfterNothing(RunWith(u, pics, fronts, c1, q1, n, d).outcome);
  }

  /** The header of an update, when nothing is queued. */
  lemma HeadArrives(u: Machine<Client>, pics: Q.Pictures, fronts: Fronts, c: Client, q: seq<Byte>, n: nat,
                    d: Q.DisplayState, c1: Client, q1: seq<Byte>)
    requires u.Valid() && d.queue == [] && u.step(c, q) == Outcome(c1, q1, [], Done)
    ensures RunWith(u, pics, fronts, c, q, n, d) == RunWith(u, pics, fronts, c1, q1, n, d)
  {
    RunGoesOn(u, pics, fronts, c, q, n, d, Outcome(c1, q1, [], Done));
    AfterNothing(RunWith(u, pics, fronts, c1, q1, n, d).outcome);
  }

  lemma RestArrives(u: Machine<Client>, pics: Q.Pictures, fronts: Fronts, c: Client, n: nat, d: Q.DisplayState)
    requires u.Valid() && u.Hungry(c)
    ensures RunWith(u, pics, fronts, c, [], n, d) == Run(Outcome(c, [], [], Wait), false, [])
  {
    RunStops(u, pics, fronts, c, [], n, d, Outcome(c, [], [], Wait));
  }

  /** The client is at rest, with its calls delivered. */
  ghost predicate Rests(pics: Q.Pictures, fronts: Fronts, d0: Q.DisplayState, w: World, c: Client, calls: seq<Call>) {
    && w.conn.client == c && w.conn.unread == [] && w.conn.calls == calls && !w.conn.flushing && !w.conn.failed
    && w.d == Deliver(pics, fronts, 0, d0, calls)
  }

  lemma GoRests(u: Machine<Client>, pics: Q.Pictures, fronts: Fronts, c: Client, q: seq<Byte>, d0: Q.DisplayState,
                c': Client, calls: seq<Call>)
    requires u.Valid() && q != []
    requires RunWith(u, pics, fronts, c, q, 0, d0) == Run(Outcome(c', [], calls, Wait), false, [])
    ensures Rests(pics, fronts, d0, Go(u, pics, fronts, Opened(c).(unread := q), d0), c', calls)
  {
    assert [] + calls == calls;
  }

  // ---- The updates ----------------------------------------------------------------------------------

  const JPEG := TightCode(PIXEL, 0, TE.JpegCode([1, 2, 3]))

  /** The image alone. */
  const ALONE := Update([JPEG], None)

  function ImageCall(): Call {
    ImageRect(0, 0, 1, 1, [1, 2, 3])
  }

  lemma JpegMeans(env: Env, m: Memory)
    requires Idle(m)
    ensures ValidRect(env, m, JPEG) && Slack(JPEG) == 0 && DrawRect(env, m, JPEG) == [ImageCall()]
    ensures |EncodeRect(env, m, JPEG)| == 17
  {
    JpegIsValid(env, m);
  }

  lemma FirstHead(env: Env, m: Memory, last: Rect, count: nat, more: seq<Byte>)
    requires Idle(m) && 0 < count < 0x1_0000
    ensures Step(env, Between(m, 0, last), UpdateHead(count) + more) == Outcome(Between(m, count, last), more, [], Done)
  {
    var q := UpdateHead(count) + more;
    assert q[2..4] == Put16(count) && q[4..] == more;
  }

  /** A rectangle takes the client two steps. */
  lemma RectSteps(env: Env, m: Memory, rects: nat, last: Rect, code: RectCode, more: seq<Byte>)
    requires rects > 0 && ValidRect(env, m, code) && |more| >= Slack(code)
    ensures Step(env, Between(m, rects, last), EncodeRect(env, m, code) + more) ==
            Outcome(Within(m, rects, code.rect, Number(code)), EncodeData(env, m, code) + more, [], Done)
    ensures Step(env, Within(m, rects, code.rect, Number(code)), EncodeData(env, m, code) + more) ==
            Outcome(Between(AfterRect(env, m, code), rects - 1, code.rect), more,
                    DrawRect(env, m, code) + FinishIf(env, rects == 1), Done)
  {
    HeadStep(env, m, rects, last, code, more);
    RectStep(env, m, rects, code, more);
  }

  lemma StepsRun(env: Env, pics: Q.Pictures, fronts: Fronts, c: Client, q: seq<Byte>, c1: Client, q1: seq<Byte>,
                 c2: Client, q2: seq<Byte>, calls: seq<Call>, n: nat, d: Q.DisplayState)
    requires Updates(env).Valid() && c.fbu.rects > 0 && c1.fbu.rects > 0
    requires Step(env, c, q) == Outcome(c1, q1, [], Done) && Step(env, c1, q1) == Outcome(c2, q2, calls, Done)
    ensures RunWith(Updates(env), pics, fronts, c, q, n, d) ==
            RunWith(Updates(env), pics, fronts, c2, q2, n + |calls|, Deliver(pics, fronts, n, d, calls)).After(calls)
  {
    RectArrives(Updates(env), pics, fronts, c, q, n, d, c1, q1, c2, q2, calls);
  }

  lemma RectRuns(env: Env, pics: Q.Pictures, fronts: Fronts, m: Memory, rects: nat, last: Rect, code: RectCode,
                 more: seq<Byte>, calls: seq<Call>, n: nat, d: Q.DisplayState)
    requires Updates(env).Valid() && rects > 0 && ValidRect(env, m, code) && |more| >= Slack(code)
    requires calls == DrawRect(env, m, code) + FinishIf(env, rects == 1)
    ensures RunWith(Updates(env), pics, fronts, Between(m, rects, last), EncodeRect(env, m, code) + more, n, d) ==
            RunWith(Updates(env), pics, fronts, Between(AfterRect(env, m, code), rects - 1, code.rect), more,
                    n + |calls|, Deliver(pics, fronts, n, d, calls)).After(calls)
  {
    RectSteps(env, m, rects, last, code, more);
    StepsRun(env, pics, fronts, Between(m, rects, last), EncodeRect(env, m, code) + more,
             Within(m, rects, code.rect, Number(code)), EncodeData(env, m, code) + more,
             Between(AfterRect(env, m, code), rects - 1, code.rect), more, calls, n, d);
  }

  ghost function After(env: Env, m: Memory): (m': Memory)
    requires Idle(m)
    ensures Idle(m')
  {
    JpegMeans(env, m);
    AfterRect(env, m, JPEG)
  }

  lemma AloneBytes(env: Env, m: Memory)
    requires Idle(m)
    ensures ValidRect(env, m, JPEG) && ValidUpdate(env, m, ALONE)
    ensures EncodeUpdate(env, m, ALONE) == UpdateHead(1) + (EncodeRect(env, m, JPEG) + [])
    ensures DrawUpdate(env, m, ALONE) == [ImageCall()] + Finish(env)
  {
    JpegMeans(env, m);
    assert ALONE.rects[1..] == [];
    var ps := PiecesOf(env, m, ALONE.rects);
    assert ps == [PieceOf(env, m, JPEG)] && ps[1..] == [];
    assert BytesOf(ps) == EncodeRect(env, m, JPEG) + [];
    assert CallsOf(ps) == [ImageCall()] + [] == [ImageCall()];
    var bytes := UpdateHead(1) + (EncodeRect(env, m, JPEG) + []);
    assert bytes + [] == bytes;
  }

  lemma LateBytes(env: Env, m: Memory, code: RectCode)
    requires Idle(m) && ValidRect(env, After(env, m), code)
    ensures ValidRect(env, m, JPEG) && ValidUpdate(env, m, Late(code)) && ValidUpdates(env, m, [Late(code)])
    ensures EncodeUpdate(env, m, Late(code)) ==
            UpdateHead(2) + (EncodeRect(env, m, JPEG) + (EncodeRect(env, After(env, m), code) + []))
    ensures DrawUpdate(env, m, Late(code)) == [ImageCall()] + (DrawRect(env, After(env, m), code) + Finish(env))
  {
    JpegMeans(env, m);
    LateIsValid(env, m, code);
    var codes := Late(code).rects;
    assert codes[1..] == [code] && codes[1..][1..] == [];
    var rest := PiecesOf(env, After(env, m), [code]);
    assert rest == [PieceOf(env, After(env, m), code)] && rest[1..] == [];
    var ps := PiecesOf(env, m, codes);
    assert ps == [PieceOf(env, m, JPEG)] + rest && ps[1..] == rest;
    var body := EncodeRect(env, m, JPEG) + (EncodeRect(env, After(env, m), code) + []);
    assert BytesOf(rest) == EncodeRect(env, After(env, m), code) + [];
    assert BytesOf(ps) == body;
    assert UpdateHead(2) + body + [] == UpdateHead(2) + body;
    var draws := DrawRect(env, After(env, m), code);
    assert rest[0].calls == draws && CallsOf(rest) == draws + [];
    assert draws + [] == draws;
    Associates([ImageCall()], DrawRect(env, After(env, m), code), Finish(env));
  }

  /** The image alone, in one message. */
  lemma AloneArrives(env: Env, m: Memory, last: Rect, pics: Q.Pictures, fronts: Fronts, d0: Q.DisplayState)
    requires Idle(m) && d0.queue == [] && Updates(env).Valid()
    ensures ValidUpdate(env, m, ALONE)
    ensures var q := EncodeUpdate(env, m, ALONE);
            Rests(pics, fronts, d0, Go(Updates(env), pics, fronts, Opened(Between(m, 0, last)).(unread := q), d0),
                  Between(After(env, m), 0, PIXEL), [ImageCall()] + Finish(env))
  {
    AloneBytes(env, m);
    JpegMeans(env, m);
    var c0, c1, c2 := Between(m, 0, last), Between(m, 1, last), Between(After(env, m), 0, PIXEL);
    var rect, calls := EncodeRect(env, m, JPEG) + [], [ImageCall()] + Finish(env);
    FirstHead(env, m, last, 1, rect);
    HeadArrives(Updates(env), pics, fronts, c0, UpdateHead(1) + rect, 0, d0, c1, rect);
    RectRuns(env, pics, fronts, m, 1, last, JPEG, [], calls, 0, d0);
    RestIsHungry(env, c2);
    RestArrives(Updates(env), pics, fronts, c2, |calls|, Deliver(pics, fronts, 0, d0, calls));
    assert calls + [] == calls;
    GoRests(Updates(env), pics, fronts, c0, UpdateHead(1) + rect, d0, c2, calls);
  }

  lemma FirstRect(env: Env, m: Memory, last: Rect, pics: Q.Pictures, fronts: Fronts, d: Q.DisplayState, more: seq<Byte>)
    requires Idle(m) && Updates(env).Valid()
    ensures ValidRect(env, m, JPEG)
    ensures RunWith(Updates(env), pics, fronts, Between(m, 2, last), EncodeRect(env, m, JPEG) + more, 0, d) ==
            RunWith(Updates(env), pics, fronts, Between(After(env, m), 1, PIXEL), more, |[ImageCall()]|,
                    Deliver(pics, fronts, 0, d, [ImageCall()])).After([ImageCall()])
  {
    JpegMeans(env, m);
    assert [ImageCall()] + [] == [ImageCall()];
    RectRuns(env, pics, fronts, m, 2, last, JPEG, more, [ImageCall()], 0, d);
  }

  lemma LastRect(env: Env, m: Memory, last: Rect, code: RectCode, pics: Q.Pictures, fronts: Fronts, n: nat,
                 d: Q.DisplayState)
    requires ValidRect(env, m, code) && Slack(code) == 0 && Updates(env).Valid()
    ensures var calls := DrawRect(env, m, code) + Finish(env);
            RunWith(Updates(env), pics, fronts, Between(m, 1, last), EncodeRect(env, m, code) + [], n, d) ==
            RunWith(Updates(env), pics, fronts, Between(AfterRect(env, m, code), 0, code.rect), [], n + |calls|,
                    Deliver(pics, fronts, n, d, calls)).After(calls)
  {
    RectRuns(env, pics, fronts, m, 1, last, code, [], DrawRect(env, m, code) + Finish(env), n, d);
  }

  lemma TwoRects(env: Env, m: Memory, last: Rect, code: RectCode, pics: Q.Pictures, fronts: Fronts, d0: Q.DisplayState)
    requires Idle(m) && ValidRect(env, After(env, m), code) && Slack(code) == 0 && Updates(env).Valid()
    ensures ValidRect(env, m, JPEG)
    ensures var m1 := After(env, m);
            RunWith(Updates(env), pics, fronts, Between(m, 2, last),
              EncodeRect(env, m, JPEG) + (EncodeRect(env, m1, code) + []), 0, d0) ==
            Run(Outcome(Between(AfterRect(env, m1, code), 0, code.rect), [],
                        [ImageCall()] + (DrawRect(env, m1, code) + Finish(env)), Wait), false, [])
  {
    var m1 := After(env, m);
    var c3 := Between(AfterRect(env, m1, code), 0, code.rect);
    var q2 := EncodeRect(env, m1, code) + [];
    FirstRect(env, m, last, pics, fronts, d0, q2);
    LastRect(env, m1, PIXEL, code, pics, fronts, 1, Deliver(pics, fronts, 0, d0, [ImageCall()]));
    RestIsHungry(env, c3);
    RunsJoin(Updates(env), pics, fronts, Between(m, 2, last), EncodeRect(env, m, JPEG) + q2,
             Between(m1, 1, PIXEL), q2, c3, d0, [ImageCall()], DrawRect(env, m1, code) + Finish(env));
  }

  /** An image and another rectangle, in one message. */
  lemma LateArrives(env: Env, m: Memory, last: Rect, code: RectCode, pics: Q.Pictures, fronts: Fronts,
                    d0: Q.DisplayState)
    requires Idle(m) && ValidRect(env, After(env, m), code) && Slack(code) == 0 && d0.queue == []
             && Updates(env).Valid()
    ensures ValidUpdate(env, m, Late(code))
    ensures var q := EncodeUpdate(env, m, Late(code));
            Rests(pics, fronts, d0, Go(Updates(env), pics, fronts, Opened(Between(m, 0, last)).(unread := q), d0),
                  Between(AfterRect(env, After(env, m), code), 0, code.rect),
                  [ImageCall()] + (DrawRect(env, After(env, m), code) + Finish(env)))
  {
    LateBytes(env, m, code);
    TwoRects(env, m, last, code, pics, fronts, d0);
    var c0, c1 := Between(m, 0, last), Between(m, 2, last);
    var q1 := EncodeRect(env, m, JPEG) + (EncodeRect(env, After(env, m), code) + []);
    FirstHead(env, m, last, 2, q1);
    HeadArrives(Updates(env), pics, fronts, c0, UpdateHead(2) + q1, 0, d0, c1, q1);
    GoRests(Updates(env), pics, fronts, c0, UpdateHead(2) + q1, d0,
            Between(AfterRect(env, After(env, m), code), 0, code.rect),
            [ImageCall()] + (DrawRect(env, After(env, m), code) + Finish(env)));
  }

  lemma RunsJoin(u: Machine<Client>, pics: Q.Pictures, fronts: Fronts, c1: Client, q1: seq<Byte>, c2: Client,
                 q2: seq<Byte>, c3: Client, d: Q.DisplayState, first: seq<Call>, second: seq<Call>)
    requires u.Valid() && u.Hungry(c3)
    requires var d1 := Deliver(pics, fronts, 0, d, first);
             && RunWith(u, pics, fronts, c1, q1, 0, d) == RunWith(u, pics, fronts, c2, q2, |first|, d1).After(first)
             && RunWith(u, pics, fronts, c2, q2, |first|, d1) ==
                RunWith(u, pics, fronts, c3, [], |first| + |second|,
                  Deliver(pics, fronts, |first|, d1, second)).After(second)
    ensures RunWith(u, pics, fronts, c1, q1, 0, d) == Run(Outcome(c3, [], first + second, Wait), false, [])
  {
    var d1 := Deliver(pics, fronts, 0, d, first);
    RestArrives(u, pics, fronts, c3, |first| + |second|, Deliver(pics, fronts, |first|, d1, second));
    assert second + [] == second;
  }

  // ---- On the display -------------------------------------------------------------------------------

  function FirstImage(): Q.Action {
    Q.ImageAction(0, 0, 1, 1, 0)
  }

  /** The first image waits, with these actions behind it. */
  ghost predicate Holds(d: Q.DisplayState, behind: seq<Q.Action>, issued: seq<Q.Action>) {
    && d.queue == [FirstImage()] + behind && d.issued == [FirstImage()] + issued && d.applied == []
    && d.loaded == map[] && 0 in d.armed && !d.flushing
  }

  lemma ImageHolds(pics: Q.Pictures, d0: Q.DisplayState, front: seq<Byte>)
    requires Schedules.Fresh(d0, 0) && d0.loaded == map[]
    ensures Holds(Give(pics, d0, ImageCall(), 0, front), [], [])
  {
    Schedules.GiveImage(pics, d0, ImageCall(), 0, front);
    GiveFlushes(pics, d0, ImageCall(), 0, front);
    GiveGrows(pics, d0, ImageCall(), 0, front);
    assert [] + [FirstImage()] == [FirstImage()] + [];
  }

  lemma MoreHolds(pics: Q.Pictures, d: Q.DisplayState, c: Call, n: nat, front: seq<Byte>, a: Q.Action, queued: Q.Action,
                  behind: seq<Q.Action>, issued: seq<Q.Action>)
    requires Holds(d, behind, issued) && ActionOf(c, n) == [a] && !a.ImageAction?
    requires !c.BlitImage? ==> queued == a
    requires c.BlitImage? ==>
               c.from.Received? && queued == Q.BlitAction(c.x, c.y, c.w, c.h, (front + c.data)[..c.w * c.h * 4])
    ensures Holds(Give(pics, d, c, n, front), behind + [queued], issued + [a])
  {
    assert [FirstImage()] + behind + [queued] == [FirstImage()] + (behind + [queued]);
    assert [FirstImage()] + issued + [a] == [FirstImage()] + (issued + [a]);
    if c.BlitImage? {
      assert (front + c.data)[|front|..|front| + c.w * c.h * 4] == c.data;
    }
  }

  lemma FinishHolds(env: Env, pics: Q.Pictures, fronts: Fronts, d: Q.DisplayState, n: nat, behind: seq<Q.Action>,
                    issued: seq<Q.Action>)
    requires Holds(d, behind, issued)
    ensures Holds(Deliver(pics, fronts, n, d, Finish(env)), behind + [Q.FlipAction], issued + [Q.FlipAction])
  {
    var d1 := Give(pics, d, Flip, n, fronts(n));
    MoreHolds(pics, d, Flip, n, fronts(n), Q.FlipAction, Q.FlipAction, behind, issued);
    assert Deliver(pics, fronts, n, d, Finish(env)) == Deliver(pics, fronts, n + 1, d1, Finish(env)[1..]);
    if env.continuous {
      assert Finish(env)[1..] == [];
    } else {
      var request := [UpdateRequest];
      assert Finish(env)[1..] == request && request[1..] == [];
      assert Give(pics, d1, UpdateRequest, n + 1, fronts(n + 1)) == d1;
      assert Deliver(pics, fronts, n + 1, d1, request) == Deliver(pics, fronts, n + 2, d1, []);
    }
  }

  /** An image, one more call, and the end of the update. */
  lemma LateHolds(env: Env, pics: Q.Pictures, fronts: Fronts, d0: Q.DisplayState, c: Call, a: Q.Action,
                  queued: Q.Action)
    requires Schedules.Fresh(d0, 0) && d0.loaded == map[] && ActionOf(c, 1) == [a] && !a.ImageAction?
    requires !c.BlitImage? ==> queued == a
    requires c.BlitImage? ==>
               c.from.Received? && queued == Q.BlitAction(c.x, c.y, c.w, c.h, (fronts(1) + c.data)[..c.w * c.h * 4])
    ensures Holds(Deliver(pics, fronts, 0, d0, [ImageCall()] + ([c] + Finish(env))), [queued, Q.FlipAction],
            [a, Q.FlipAction])
  {
    var d1 := Give(pics, d0, ImageCall(), 0, fronts(0));
    var d2 := Give(pics, d1, c, 1, fronts(1));
    var tail := [c] + Finish(env);
    assert ([ImageCall()] + tail)[1..] == tail && tail[1..] == Finish(env);
    ImageHolds(pics, d0, fronts(0));
    MoreHolds(pics, d1, c, 1, fronts(1), a, queued, [], []);
    assert [] + [queued] == [queued] && [] + [a] == [a];
    FinishHolds(env, pics, fronts, d2, 2, [queued], [a]);
    assert [queued] + [Q.FlipAction] == [queued, Q.FlipAction] && [a] + [Q.FlipAction] == [a, Q.FlipAction];
    assert Deliver(pics, fronts, 0, d0, [ImageCall()] + tail) == Deliver(pics, fronts, 1, d1, tail);
  }

  // ---- A raw tile behind an image -------------------------------------------------------------------

  const RAW_CODE := HextileCode(PIXEL, [HE.RawTile([7, 7, 7, 0])])

  function TileAction(data: seq<Byte>): Q.Action {
    Q.BlitAction(0, 0, 1, 1, data)
  }

  lemma OneRaw(ts: seq<TileRect>, s: H.Hex)
    requires s.tiles == |ts| == 1 && ts[0] == PIXEL
    ensures var tiles := [HE.RawTile([7, 7, 7, 0])];
            && HE.ValidTiles(tiles, ts, s)
            && HE.DrawTiles(tiles, ts, s) == [BlitImage(0, 0, 1, 1, [7, 7, 7, 255], Received)]
            && HE.EncodeTiles(tiles, ts, s) == [1] + [7, 7, 7, 0]
  {
    var tile := HE.RawTile([7, 7, 7, 0]);
    var rest := HE.AfterTile(tile, s);
    OneTileIsValid(tile, ts, s);
    assert ts[1..] == [] && [tile][1..] == [];
    assert HE.DrawTiles([], [], rest) == [] && HE.EncodeTiles([], [], rest) == [];
    assert P.Opaqued([7, 7, 7, 0]) == [7, 7, 7, 255];
    assert HE.EncodeTile(tile, ts[0], s) + [] == [1] + [7, 7, 7, 0];
  }

  lemma RawDraws(env: Env, m: Memory, ts: seq<TileRect>, s: H.Hex)
    requires Idle(m) && Total(PIXEL) == 1 && ts == TilesLeft(PIXEL, 1) && s == H.Start(m.hex, PIXEL)
             && ValidRect(env, m, RAW_CODE)
    ensures s.tiles == |ts| && HE.ValidTiles(RAW_CODE.tiles, ts, s)
    ensures DrawRect(env, m, RAW_CODE) == HE.DrawTiles(RAW_CODE.tiles, ts, s)
    ensures EncodeRect(env, m, RAW_CODE) == RectHead(PIXEL, 5) + HE.EncodeTiles(RAW_CODE.tiles, ts, s)
  {
  }

  lemma RawMeans(env: Env, m: Memory)
    requires Idle(m)
    ensures ValidRect(env, m, RAW_CODE) && Slack(RAW_CODE) == 0
    ensures DrawRect(env, m, RAW_CODE) == [BlitImage(0, 0, 1, 1, [7, 7, 7, 255], Received)]
    ensures EncodeRect(env, m, RAW_CODE) == RectHead(PIXEL, 5) + ([1] + [7, 7, 7, 0])
  {
    RawIsValid(env, m);
    SmallIsTile(PIXEL);
    var ts, s := TilesLeft(PIXEL, 1), H.Start(m.hex, PIXEL);
    RawDraws(env, m, ts, s);
    OneRaw(ts, s);
  }

  /** The load of the first image, when no flush is owed. */
  lemma LoadHeld(u: Machine<Client>, pics: Q.Pictures, fronts: Fronts, w: World, behind: seq<Q.Action>,
                 issued: seq<Q.Action>)
    requires u.Valid() && Holds(w.d, behind, issued) && forall i :: 0 <= i < |behind| ==> !behind[i].ImageAction?
    ensures CanHappen(w, Loaded(0, 1, 1))
    ensures var w' := Happens(u, pics, fronts, w, Loaded(0, 1, 1));
            w'.conn == w.conn && w'.d.queue == [] && w'.d.applied == [FirstImage()] + behind
  {
    Schedules.LoadDrains(pics, w.d);
  }

  ghost function FirstMessageOf(u: Machine<Client>, pics: Q.Pictures, fronts: Fronts, c: Client, d0: Q.DisplayState,
                                bytes: seq<Byte>): World
    requires u.Valid()
  {
    Go(u, pics, fronts, Opened(c).(unread := bytes), d0)
  }

  /** Two happenings, the first of them a message to the client at its start. */
  lemma TwoHappen(u: Machine<Client>, pics: Q.Pictures, fronts: Fronts, c: Client, d0: Q.DisplayState, bytes: seq<Byte>,
                  colors: nat -> seq<Byte>, h: Happening)
    requires u.Valid() && d0.queue == [] && CanHappen(FirstMessageOf(u, pics, fronts, c, d0, bytes), h)
    ensures AllCanHappen(u, pics, fronts, Start(c, d0), [Message(bytes, colors), h])
    ensures HappenAll(u, pics, fronts, Start(c, d0), [Message(bytes, colors), h]) ==
            Happens(u, pics, fronts, FirstMessageOf(u, pics, fronts, c, d0, bytes), h)
  {
    var first := Message(bytes, colors);
    FirstGo(u, pics, fronts, c, d0, bytes, colors);
    OneMoreHappening(u, pics, fronts, Start(c, d0), [], first);
    OneMoreHappening(u, pics, fronts, Start(c, d0), [] + [first], h);
    assert [] + [first] + [h] == [first, h];
  }

  lemma ThreeHappen(u: Machine<Client>, pics: Q.Pictures, fronts: Fronts, c: Client, d0: Q.DisplayState,
                    bytes: seq<Byte>, colors: nat -> seq<Byte>, h: Happening, h': Happening)
    requires u.Valid() && d0.queue == [] && CanHappen(FirstMessageOf(u, pics, fronts, c, d0, bytes), h)
    requires CanHappen(Happens(u, pics, fronts, FirstMessageOf(u, pics, fronts, c, d0, bytes), h), h')
    ensures AllCanHappen(u, pics, fronts, Start(c, d0), [Message(bytes, colors), h, h'])
    ensures HappenAll(u, pics, fronts, Start(c, d0), [Message(bytes, colors), h, h']) ==
            Happens(u, pics, fronts, Happens(u, pics, fronts, FirstMessageOf(u, pics, fronts, c, d0, bytes), h), h')
  {
    TwoHappen(u, pics, fronts, c, d0, bytes, colors, h);
    OneMoreHappening(u, pics, fronts, Start(c, d0), [Message(bytes, colors), h], h');
    assert [Message(bytes, colors), h] + [h'] == [Message(bytes, colors), h, h'];
  }

  lemma RawSlices(head: seq<Byte>, image: seq<Byte>, rect: seq<Byte>)
    requires |head| == 4 && |image| == 17 && |rect| == 12
    ensures var q := head + (image + (rect + ([1] + [7, 7, 7, 0]) + []));
            |q| == 38 && q[..4] == head && q[33] == 1 && q[34..] == [7, 7, 7, 0]
  {
  }

  /** The bytes of the update: the data of the tile are the last four, and the byte that announces it comes before. */
  lemma RawBytes(env: Env, m: Memory)
    requires Idle(m)
    ensures ValidUpdate(env, m, LATE_RAW) && ValidUpdates(env, m, [LATE_RAW])
    ensures var q := EncodeUpdate(env, m, LATE_RAW);
            |q| == 38 && q[..4] == [0, 0, 0, 2] && q[33] == 1 && q[34..] == [7, 7, 7, 0]
  {
    RawMeans(env, After(env, m));
    LateBytes(env, m, RAW_CODE);
    JpegMeans(env, m);
    var head, image, rect := UpdateHead(2), EncodeRect(env, m, JPEG), RectHead(PIXEL, 5);
    assert head == [0, 0, 0, 2] && |rect| == 12;
    RawSlices(head, image, rect);
  }

  lemma ActionsOfThree(env: Env, c: Call, a: Q.Action)
    requires ActionOf(c, 1) == [a]
    ensures ActionsOf([ImageCall()] + ([c] + Finish(env))) == [FirstImage(), a, Q.FlipAction]
  {
    var two := [ImageCall(), c];
    assert two[..1] == [ImageCall()] && two[..1][..0] == [];
    assert ActionsOf([]) == [] && ActionsOf([ImageCall()]) == [] + [FirstImage()];
    assert ActionsOf(two) == [FirstImage()] + [a];
    assert [ImageCall()] + ([c] + Finish(env)) == two + Finish(env);
    FinishFlips(env, two);
  }

  lemma RawHolds(env: Env, pics: Q.Pictures, fronts: Fronts, d0: Q.DisplayState)
    requires Schedules.Fresh(d0, 0) && d0.loaded == map[] && |fronts(1)| >= 4 && fronts(1)[..4] == [0, 0, 0, 2]
    ensures var calls := [ImageCall()] + ([BlitImage(0, 0, 1, 1, [7, 7, 7, 255], Received)] + Finish(env));
            && Holds(Deliver(pics, fronts, 0, d0, calls),
                     [TileAction([0, 0, 0, 2]), Q.FlipAction], [TileAction([7, 7, 7, 255]), Q.FlipAction])
            && ActionsOf(calls) == [FirstImage(), TileAction([7, 7, 7, 255]), Q.FlipAction]
  {
    var c := BlitImage(0, 0, 1, 1, [7, 7, 7, 255], Received);
    assert (fronts(1) + c.data)[..4] == fronts(1)[..4];
    LateHolds(env, pics, fronts, d0, c, TileAction([7, 7, 7, 255]), TileAction([0, 0, 0, 2]));
    ActionsOfThree(env, c, TileAction([7, 7, 7, 255]));
  }

  lemma LateRawArrives(env: Env, m: Memory, last: Rect, pics: Q.Pictures, fronts: Fronts, d0: Q.DisplayState)
    requires Idle(m) && Schedules.Fresh(d0, 0) && d0.loaded == map[] && Updates(env).Valid()
    requires |fronts(1)| >= 4 && fronts(1)[..4] == [0, 0, 0, 2]
    ensures ValidUpdate(env, m, LATE_RAW)
    ensures var w := FirstMessageOf(Updates(env), pics, fronts, Between(m, 0, last), d0,
            EncodeUpdate(env, m, LATE_RAW));
            && Holds(w.d, [TileAction([0, 0, 0, 2]), Q.FlipAction], [TileAction([7, 7, 7, 255]), Q.FlipAction])
            && ActionsOf(w.conn.calls) == [FirstImage(), TileAction([7, 7, 7, 255]), Q.FlipAction]
            && !w.conn.flushing && w.conn.unread == []
  {
    RawMeans(env, After(env, m));
    RawBytes(env, m);
    LateArrives(env, m, last, RAW_CODE, pics, fronts, d0);
    RawHolds(env, pics, fronts, d0);
  }

  lemma RunRaw(u: Machine<Client>, pics: Q.Pictures, fronts: Fronts, c: Client, d0: Q.DisplayState, bytes: seq<Byte>,
               colors: nat -> seq<Byte>, a: Q.Action, queued: Q.Action)
    requires u.Valid() && d0.queue == [] && !queued.ImageAction?
    requires Holds(FirstMessageOf(u, pics, fronts, c, d0, bytes).d, [queued, Q.FlipAction], [a, Q.FlipAction])
    ensures var hs := [Message(bytes, colors), Loaded(0, 1, 1)];
            && AllCanHappen(u, pics, fronts, Start(c, d0), hs)
            && var w := HappenAll(u, pics, fronts, Start(c, d0), hs);
               && w.conn == FirstMessageOf(u, pics, fronts, c, d0, bytes).conn
               && w.d.queue == [] && w.d.applied == [FirstImage(), queued, Q.FlipAction]
  {
    LoadHeld(u, pics, fronts, FirstMessageOf(u, pics, fronts, c, d0, bytes), [queued, Q.FlipAction], [a, Q.FlipAction]);
    TwoHappen(u, pics, fronts, c, d0, bytes, colors, Loaded(0, 1, 1));
  }

  /** In one message an image and a raw tile; then the image is loaded.  What stands before the data of the tile in the
      receive buffer is what was sent before them; what is drawn for the tile is the first four bytes of the message. */
  lemma LateRawRun(env: Env, m: Memory, last: Rect, pics: Q.Pictures, fronts: Fronts, d0: Q.DisplayState,
                   colors: nat -> seq<Byte>)
    requires Idle(m) && Schedules.Fresh(d0, 0) && d0.loaded == map[]
    requires ValidUpdate(env, m, LATE_RAW) && |fronts(1)| == 34 && fronts(1) <= EncodeUpdate(env, m, LATE_RAW)
    ensures var hs := [Message(EncodeUpdate(env, m, LATE_RAW), colors), Loaded(0, 1, 1)];
            && CanPlay(env, m, last, pics, fronts, d0, hs)
            && var w := Play(env, m, last, pics, fronts, d0, hs);
               && !w.conn.flushing && w.conn.unread == [] && w.d.queue == []
               && ActionsOf(w.conn.calls) == [FirstImage(), TileAction([7, 7, 7, 255]), Q.FlipAction]
               && w.d.applied == [FirstImage(), TileAction([0, 0, 0, 2]), Q.FlipAction]
  {
    var q := EncodeUpdate(env, m, LATE_RAW);
    UpdatesIsValid(env);
    RawBytes(env, m);
    assert fronts(1)[..4] == q[..4];
    LateRawArrives(env, m, last, pics, fronts, d0);
    RunRaw(Updates(env), pics, fronts, Between(m, 0, last), d0, q, colors, TileAction([7, 7, 7, 255]),
      TileAction([0, 0, 0, 2]));
  }

  // ---- An RRE rectangle behind an image -------------------------------------------------------------

  const RRE_CODE := RreCode(PIXEL, [7, 7, 7, 0], [])

  function FillOf(color: seq<Byte>): Q.Action {
    Q.FillAction(0, 0, 1, 1, color, true)
  }

  lemma RreMeans(env: Env, m: Memory)
    requires Idle(m)
    ensures ValidRect(env, m, RRE_CODE) && Slack(RRE_CODE) == 0
    ensures DrawRect(env, m, RRE_CODE) == [FillRect(0, 0, 1, 1, [7, 7, 7, 0], Received)]
    ensures EncodeRect(env, m, RRE_CODE) == RectHead(PIXEL, 2) + (Put32(0) + [7, 7, 7, 0])
  {
    var call := [FillRect(0, 0, 1, 1, [7, 7, 7, 0], Received)];
    assert call + [] == call && Put32(0) + [7, 7, 7, 0] + [] == Put32(0) + [7, 7, 7, 0];
  }

  /** The bytes of the update: the colour is the last four. */
  lemma RreBytes(env: Env, m: Memory)
    requires Idle(m)
    ensures ValidUpdate(env, m, LATE_RRE) && ValidUpdates(env, m, [LATE_RRE])
    ensures var q := EncodeUpdate(env, m, LATE_RRE); |q| == 41 && q[37..] == [7, 7, 7, 0]
  {
    RreMeans(env, After(env, m));
    LateBytes(env, m, RRE_CODE);
    JpegMeans(env, m);
    assert |RectHead(PIXEL, 2)| == 12;
  }

  /** The load of the first image, whatever else is queued. */
  lemma LoadLetsGo(u: Machine<Client>, pics: Q.Pictures, fronts: Fronts, w: World, behind: seq<Q.Action>)
    requires u.Valid() && [FirstImage()] + behind <= w.d.queue && w.d.applied == [] && w.d.loaded == map[]
             && 0 in w.d.armed
    requires forall i :: 0 <= i < |behind| ==> !behind[i].ImageAction?
    ensures CanHappen(w, Loaded(0, 1, 1))
    ensures var w' := Happens(u, pics, fronts, w, Loaded(0, 1, 1));
            [FirstImage()] + behind <= w'.d.applied && w.conn.calls <= w'.conn.calls
  {
    var all := [FirstImage()] + behind;
    var d1 := w.d.(loaded := w.d.loaded[0 := (1, 1)], armed := w.d.armed - {0});
    var d := Q.Handle(pics, w.d, Q.Load(0, 1, 1));
    assert forall i :: 0 <= i < |all| ==> w.d.queue[i] == all[i];
    ScanAtLeast(pics, d1, |all|);
    assert w.d.queue[..|all|] == all && [] + all == all;
    if w.d.flushing && !d.flushing {
      GoGrows(u, pics, fronts, w.conn.(flushing := false), d);
    }
  }

  /** A message over the colour of the fill that waits. */
  lemma FillOverwritten(u: Machine<Client>, pics: Q.Pictures, fronts: Fronts, w: World, next: seq<Byte>,
                        colors: nat -> seq<Byte>, was: seq<Byte>)
    requires u.Valid() && Holds(w.d, [FillOf(was), Q.FlipAction], [FillOf(was), Q.FlipAction]) && next != []
    ensures var w' := Happens(u, pics, fronts, w, Message(next, colors));
            && [FirstImage()] + [FillOf(colors(1)), Q.FlipAction] <= w'.d.queue && w'.d.applied == []
            && w'.d.loaded == map[] && 0 in w'.d.armed && w.conn.calls <= w'.conn.calls
  {
    var d := Q.Handle(pics, w.d, Q.Overwrite(colors));
    var q := Q.Overwritten(w.d.queue, colors);
    assert q[0] == Q.Recolored(w.d.queue[0], colors(0)) && q[1] == Q.Recolored(w.d.queue[1], colors(1));
    assert q[2] == Q.Recolored(w.d.queue[2], colors(2));
    assert q == [FirstImage()] + [FillOf(colors(1)), Q.FlipAction];
    GoGrows(u, pics, fronts, w.conn.(unread := w.conn.unread + next), d);
  }

  lemma LateRreArrives(env: Env, m: Memory, last: Rect, pics: Q.Pictures, fronts: Fronts, d0: Q.DisplayState)
    requires Idle(m) && Schedules.Fresh(d0, 0) && d0.loaded == map[] && Updates(env).Valid()
    ensures ValidUpdate(env, m, LATE_RRE)
    ensures var w := FirstMessageOf(Updates(env), pics, fronts, Between(m, 0, last), d0,
            EncodeUpdate(env, m, LATE_RRE));
            && Holds(w.d, [FillOf([7, 7, 7, 0]), Q.FlipAction], [FillOf([7, 7, 7, 0]), Q.FlipAction])
            && ActionsOf(w.conn.calls) == [FirstImage(), FillOf([7, 7, 7, 0]), Q.FlipAction]
            && !w.conn.flushing && w.conn.unread == []
  {
    var c := FillRect(0, 0, 1, 1, [7, 7, 7, 0], Received);
    RreBytes(env, m);
    RreMeans(env, After(env, m));
    LateArrives(env, m, last, RRE_CODE, pics, fronts, d0);
    LateHolds(env, pics, fronts, d0, c, FillOf([7, 7, 7, 0]), FillOf([7, 7, 7, 0]));
    ActionsOfThree(env, c, FillOf([7, 7, 7, 0]));
  }

  lemma RunRre(u: Machine<Client>, pics: Q.Pictures, fronts: Fronts, c: Client, d0: Q.DisplayState, bytes: seq<Byte>,
               any: nat -> seq<Byte>, next: seq<Byte>, colors: nat -> seq<Byte>, was: seq<Byte>)
    requires u.Valid() && d0.queue == [] && next != []
    requires Holds(FirstMessageOf(u, pics, fronts, c, d0, bytes).d, [FillOf(was), Q.FlipAction],
             [FillOf(was), Q.FlipAction])
    ensures var hs := [Message(bytes, any), Message(next, colors), Loaded(0, 1, 1)];
            && AllCanHappen(u, pics, fronts, Start(c, d0), hs)
            && var w := HappenAll(u, pics, fronts, Start(c, d0), hs);
               && ActionsOf(FirstMessageOf(u, pics, fronts, c, d0, bytes).conn.calls) <= ActionsOf(w.conn.calls)
               && [FirstImage(), FillOf(colors(1)), Q.FlipAction] <= w.d.applied
  {
    var w1 := FirstMessageOf(u, pics, fronts, c, d0, bytes);
    FillOverwritten(u, pics, fronts, w1, next, colors, was);
    var w2 := Happens(u, pics, fronts, w1, Message(next, colors));
    LoadLetsGo(u, pics, fronts, w2, [FillOf(colors(1)), Q.FlipAction]);
    ActionsBefore(w1.conn.calls, Happens(u, pics, fronts, w2, Loaded(0, 1, 1)).conn.calls);
    assert [FirstImage()] + [FillOf(colors(1)), Q.FlipAction] == [FirstImage(), FillOf(colors(1)), Q.FlipAction];
    ThreeHappen(u, pics, fronts, c, d0, bytes, any, Message(next, colors), Loaded(0, 1, 1));
  }

  /** In one message an image and an RRE rectangle, which the client reads to the end; then a message that is long
      enough, of any bytes; then the image is loaded.  The fill is drawn in the colour that the second message has
      where the first had that of the rectangle. */
  lemma LateRreRun(env: Env, m: Memory, last: Rect, pics: Q.Pictures, fronts: Fronts, d0: Q.DisplayState,
                   any: nat -> seq<Byte>, next: seq<Byte>, colors: nat -> seq<Byte>)
    requires Idle(m) && Schedules.Fresh(d0, 0) && d0.loaded == map[] && ValidUpdate(env, m, LATE_RRE)
    requires |next| >= 41 && colors(1) == next[37..41]
    ensures var hs := [Message(EncodeUpdate(env, m, LATE_RRE), any), Message(next, colors), Loaded(0, 1, 1)];
            && CanPlay(env, m, last, pics, fronts, d0, hs)
            && var w := Play(env, m, last, pics, fronts, d0, hs);
               && [FirstImage(), FillOf([7, 7, 7, 0]), Q.FlipAction] <= ActionsOf(w.conn.calls)
               && [FirstImage(), FillOf(next[37..41]), Q.FlipAction] <= w.d.applied
  {
    var q, c0 := EncodeUpdate(env, m, LATE_RRE), Between(m, 0, last);
    UpdatesIsValid(env);
    LateRreArrives(env, m, last, pics, fronts, d0);
    RunRre(Updates(env), pics, fronts, c0, d0, q, any, next, colors, [7, 7, 7, 0]);
  }

  // ---- A client held up for good --------------------------------------------------------------------

  lemma HeaderOfOne(env: Env, c: Client)
    requires c.fbu.rects == 0
    ensures Step(env, c, [0, 0, 0, 1]) == Outcome(c.(fbu := c.fbu.(rects := 1)), [], [], Done)
  {
    var q := [0, 0, 0, 1];
    assert q[2..4] == [0, 1] && q[4..] == [];
  }

  lemma HeldAtHeader(u: Machine<Client>, pics: Q.Pictures, fronts: Fronts, w: World, q: seq<Byte>, o: Outcome<Client>,
                     colors: nat -> seq<Byte>)
    requires u.Valid() && u.header(w.conn.client) && w.conn.unread == [] && q != []
    requires u.step(w.conn.client, q) == o && o.verdict.Done?
    requires !w.conn.flushing && !w.conn.failed && Holds(w.d, [Q.FlipAction], [Q.FlipAction])
    ensures var w' := Happens(u, pics, fronts, w, Message(q, colors));
            w'.conn.flushing && w'.d == w.d.(flushing := true)
  {
    OverwriteKeepsNoViews(w.d, colors);
    assert Q.Handle(pics, w.d, Q.Overwrite(colors)) == w.d;
    assert [] + q == q;
    RunStops(u, pics, fronts, w.conn.client, q, |w.conn.calls|, w.d, o);
  }

  lemma WrongSizeHolds(u: Machine<Client>, pics: Q.Pictures, fronts: Fronts, w: World)
    requires u.Valid() && w.conn.flushing && w.d.flushing && w.d.queue == [FirstImage()] + [Q.FlipAction]
             && w.d.loaded == map[]
    ensures CanHappen(w, Loaded(0, 2, 1))
    ensures var w' := Happens(u, pics, fronts, w, Loaded(0, 2, 1)); w'.conn.flushing && w'.d.flushing && Q.Stuck(w'.d)
  {
  }

  /** An update with an image; the header of the next update, at which the client finds the display busy; then the image
      comes in another size than announced.  From there on `Viewing.HeldForever` applies. */
  lemma HeldRun(env: Env, m: Memory, last: Rect, pics: Q.Pictures, fronts: Fronts, d0: Q.DisplayState,
                any: nat -> seq<Byte>)
    requires Idle(m) && Schedules.Fresh(d0, 0) && d0.loaded == map[] && ValidUpdate(env, m, ALONE)
    ensures var hs := [Message(EncodeUpdate(env, m, ALONE), any), Message([0, 0, 0, 1], any), Loaded(0, 2, 1)];
            && CanPlay(env, m, last, pics, fronts, d0, hs)
            && var w := Play(env, m, last, pics, fronts, d0, hs);
               w.conn.flushing && w.d.flushing && Q.Stuck(w.d)
  {
    var q, c0 := EncodeUpdate(env, m, ALONE), Between(m, 0, last);
    UpdatesIsValid(env);
    AloneArrives(env, m, last, pics, fronts, d0);
    var w1 := FirstMessageOf(Updates(env), pics, fronts, c0, d0, q);
    AloneHolds(env, pics, fronts, d0);
    var c := Between(After(env, m), 0, PIXEL);
    HeaderOfOne(env, c);
    HeldAtHeader(Updates(env), pics, fronts, w1, [0, 0, 0, 1], Step(env, c, [0, 0, 0, 1]), any);
    var w2 := Happens(Updates(env), pics, fronts, w1, Message([0, 0, 0, 1], any));
    WrongSizeHolds(Updates(env), pics, fronts, w2);
    ThreeHappen(Updates(env), pics, fronts, c0, d0, q, any, Message([0, 0, 0, 1], any), Loaded(0, 2, 1));
  }

  lemma AloneHolds(env: Env, pics: Q.Pictures, fronts: Fronts, d0: Q.DisplayState)
    requires Schedules.Fresh(d0, 0) && d0.loaded == map[]
    ensures Holds(Deliver(pics, fronts, 0, d0, [ImageCall()] + Finish(env)), [Q.FlipAction], [Q.FlipAction])
  {
    var d1 := Give(pics, d0, ImageCall(), 0, fronts(0));
    ImageHolds(pics, d0, fronts(0));
    FinishHolds(env, pics, fronts, d1, 1, [], []);
    assert ([ImageCall()] + Finish(env))[1..] == Finish(env);
    assert [] + [Q.FlipAction] == [Q.FlipAction];
  }
}
