/**
 The RFB client and the display together: from the bytes of updates to the pixels on the screen.  Messages arrive and
 images are loaded at any time; at the header of an update the client waits for the display until nothing is queued.
 */
module Viewing {
  import opened Bytes
  import opened Decoding
  import opened Handover
  import opened Rfb
  import opened RfbUpdate
  import opened Streaming
  import opened Tiling
  import opened Wrappers
  import Drawing
  import H = Hextile
  import HE = HextileEncoding
  import Q = RenderQueue
  import S = Screen
  import Schedules
  import TE = TightEncoding

  datatype World = World(conn: Conn<Client>, d: Q.DisplayState)

  /** A message is written to the receive buffer, and so over what views of it show; or the browser has an image. */
  datatype Happening =
    | Message(bytes: seq<Byte>, colors: nat -> seq<Byte>)
    | Loaded(img: nat, w: nat, h: nat)
    | Spoiled(img: nat)

  /** What stands in the receive buffer before the data of the n-th call. */
  type Fronts = nat -> seq<Byte>

  function Deliver(pics: Q.Pictures, fronts: Fronts, n: nat, d: Q.DisplayState, calls: seq<Call>): Q.DisplayState
    decreases |calls|
  {
    if calls == [] then d
    else Deliver(pics, fronts, n + 1, Give(pics, d, calls[0], n, fronts(n)), calls[1..])
  }

  /** At which header the client finds the display busy, if at any. */
  function Busy(u: Machine<Client>, pics: Q.Pictures, fronts: Fronts, c: Client, q: seq<Byte>, n: nat,
                d: Q.DisplayState): Option<nat>
    requires u.Valid()
    decreases u.size(c, q)
  {
    var o := u.step(c, q);
    if !o.verdict.Done? then None
    else if u.header(c) && d.queue != [] then Some(0)
    else
      var p := Busy(u, pics, fronts, o.state, o.rest, n + |o.calls|, Deliver(pics, fronts, n, d, o.calls));
      if p.None? then None else Some(p.value + if u.header(c) then 1 else 0)
  }

  /** `_handleMessage`, every call being handed to the display as it is made. */
  function Go(u: Machine<Client>, pics: Q.Pictures, fronts: Fronts, k: Conn<Client>, d: Q.DisplayState): World
    requires u.Valid()
  {
    if k.unread == [] || k.failed || k.flushing then World(k, d)
    else
      var r := RunUntil(u, k.client, k.unread, Busy(u, pics, fronts, k.client, k.unread, |k.calls|, d));
      var d' := Deliver(pics, fronts, |k.calls|, d, r.outcome.calls);
      World(Process(u, k, Busy(u, pics, fronts, k.client, k.unread, |k.calls|, d)),
            if r.held then Q.Handle(pics, d', Q.Flush) else d')
  }

  /** An empty message writes nothing. */
  function Written(pics: Q.Pictures, d: Q.DisplayState, bytes: seq<Byte>, colors: nat -> seq<Byte>): Q.DisplayState {
    if bytes == [] then d else Q.Handle(pics, d, Q.Overwrite(colors))
  }

  predicate CanHappen(w: World, h: Happening) {
    match h
    case Message(_, _) => true
    case Loaded(img, _, _) => img !in w.d.loaded
    case Spoiled(img) => img !in w.d.loaded
  }

  /** The display reports that it is flushed when the load of an image lets go all that waits. */
  function Happens(u: Machine<Client>, pics: Q.Pictures, fronts: Fronts, w: World, h: Happening): World
    requires u.Valid() && CanHappen(w, h)
  {
    match h
    case Message(bytes, colors) =>
      Go(u, pics, fronts, w.conn.(unread := w.conn.unread + bytes), Written(pics, w.d, bytes, colors))
    case Loaded(img, width, height) =>
      var d' := Q.Handle(pics, w.d, Q.Load(img, width, height));
      if w.d.flushing && !d'.flushing then Go(u, pics, fronts, w.conn.(flushing := false), d') else World(w.conn, d')
    case Spoiled(img) => World(w.conn, Q.Handle(pics, w.d, Q.Spoil(img)))
  }

  ghost predicate AllCanHappen(u: Machine<Client>, pics: Q.Pictures, fronts: Fronts, w: World, hs: seq<Happening>)
    requires u.Valid()
    decreases |hs|, 0
  {
    hs == [] ||
    (AllCanHappen(u, pics, fronts, w, hs[..|hs| - 1])
      && CanHappen(HappenAll(u, pics, fronts, w, hs[..|hs| - 1]), hs[|hs| - 1]))
  }

  ghost function HappenAll(u: Machine<Client>, pics: Q.Pictures, fronts: Fronts, w: World, hs: seq<Happening>): World
    requires u.Valid() && AllCanHappen(u, pics, fronts, w, hs)
    decreases |hs|, 1
  {
    if hs == [] then w else Happens(u, pics, fronts, HappenAll(u, pics, fronts, w, hs[..|hs| - 1]), hs[|hs| - 1])
  }

  function Sent(hs: seq<Happening>): seq<Byte> {
    if hs == [] then []
    else Sent(hs[..|hs| - 1]) + if hs[|hs| - 1].Message? then hs[|hs| - 1].bytes else []
  }

  // ---- The client is polite -------------------------------------------------------------------------

  /** After the end of an update nothing but a request. */
  predicate EndsOnce(calls: seq<Call>) {
    forall i :: 0 < i < |calls| && Ends(calls[i - 1]) ==> calls[i].UpdateRequest?
  }

  /** What matters here about a step: an update ends with its last rectangle, and a header that is not the whole of
      an update draws nothing. */
  ghost predicate StepShaped(c: Client, o: Outcome<Client>) {
    && EndsOnce(o.calls)
    && (o.calls != [] && Ends(o.calls[|o.calls| - 1]) ==> o.state.fbu.rects == 0)
    && (o.verdict.Done? && o.state.fbu.rects == 0 ==> o.calls != [] && Ends(o.calls[|o.calls| - 1]))
    && (c.fbu.rects == 0 && (!o.verdict.Done? || o.state.fbu.rects > 0) ==> o.calls == [])
    && (!o.verdict.Done? ==> (o.state.fbu.rects == 0 <==> c.fbu.rects == 0))
  }

  ghost predicate Shaped(u: Machine<Client>) {
    && u.Valid()
    && (forall c: Client :: u.header(c) <==> c.fbu.rects == 0)
    && (forall c: Client, q: seq<Byte> :: StepShaped(c, u.step(c, q)))
  }

  lemma EndShapes(env: Env, c: Client, o: Outcome<Client>)
    requires c.fbu.rects > 0 && o.state.fbu.rects > 0 && (o.verdict.Done? ==> o.state.hex.tiles == 0)
    requires Drawing.AllDraw(o.calls)
    ensures StepShaped(c, EndRect(env, o))
  {
    assert forall i :: 0 <= i < |o.calls| ==> Drawing.Draws(o.calls[i]);
  }

  lemma StepShapes(env: Env, c: Client, q: seq<Byte>)
    ensures StepShaped(c, Step(env, c, q))
  {
    if c.fbu.rects > 0 && c.fbu.encoding.Some? {
      Drawing.RectDraws(env, c, q);
      EndShapes(env, c, HandleRect(env, c, q));
    }
  }

  lemma UpdatesAreShaped(env: Env)
    ensures Shaped(Updates(env))
  {
    UpdatesIsValid(env);
    forall c: Client, q: seq<Byte>
      ensures StepShaped(c, Updates(env).step(c, q))
    {
      StepShapes(env, c, q);
    }
  }

  /** Between updates the last call ended one; an update that has begun began when nothing was queued, and nothing was
      since. */
  predicate Begun(c: Client, made: seq<Call>, d: Q.DisplayState) {
    (c.fbu.rects == 0 ==> Ended(made)) && (c.fbu.rects > 0 && Ended(made) ==> d.queue == [])
  }

  lemma {:induction false} ScanFlushes(pics: Q.Pictures, d: Q.DisplayState)
    ensures Q.Scan(pics, d).flushing ==> d.flushing && Q.Scan(pics, d).queue != []
    ensures d.flushing && !Q.Scan(pics, d).flushing ==> Q.Scan(pics, d).queue == []
    decreases |d.queue|
  {
    if d.queue != [] && Q.Ready(d, d.queue[0]) {
      ScanFlushes(pics, Q.Execute(pics, d, d.queue[0]).(queue := d.queue[1..]));
    }
  }

  lemma IssueFlushes(pics: Q.Pictures, d: Q.DisplayState, a: Q.Action, queued: Q.Action)
    requires !d.flushing
    ensures !Q.Issue(pics, d, a, queued).flushing
  {
    ScanFlushes(pics, d.(issued := d.issued + [a], queue := d.queue + [queued]));
  }

  lemma GiveFlushes(pics: Q.Pictures, d: Q.DisplayState, c: Call, n: nat, front: seq<Byte>)
    requires !d.flushing
    ensures !Give(pics, d, c, n, front).flushing
  {
    var e := EventOf(c, n, front);
    if e.Some? {
      match e.value
      case Call(a) => IssueFlushes(pics, d, a, a);
      case BlitCall(x, y, w, h, buffer, offset) =>
        IssueFlushes(pics, d, Q.BlitAction(x, y, w, h, buffer[offset..offset + w * h * 4]),
          Q.BlitAction(x, y, w, h, buffer[..w * h * 4]));
    }
  }

  /** A property of the calls made and the display that every further call of a polite client keeps. */
  ghost predicate Lasting(pics: Q.Pictures, inv: (seq<Call>, Q.DisplayState) -> bool) {
    forall made: seq<Call>, d: Q.DisplayState, c: Call, front: seq<Byte> ::
      inv(made, d) && Polite(made, c, d) ==> inv(made + [c], Give(pics, d, c, |made|, front))
  }

  lemma {:induction false} DeliverKeeps(pics: Q.Pictures, inv: (seq<Call>, Q.DisplayState) -> bool, fronts: Fronts,
                                        made: seq<Call>, d: Q.DisplayState, calls: seq<Call>)
    requires Lasting(pics, inv) && inv(made, d) && EndsOnce(calls) && (calls != [] ==> Polite(made, calls[0], d))
    ensures inv(made + calls, Deliver(pics, fronts, |made|, d, calls))
    decreases |calls|
  {
    if calls == [] {
      assert made + calls == made;
    } else {
      var d' := Give(pics, d, calls[0], |made|, fronts(|made|));
      assert inv(made + [calls[0]], d');
      EndsOnceOn(made, calls, d');
      DeliverKeeps(pics, inv, fronts, made + [calls[0]], d', calls[1..]);
      assert made + [calls[0]] + calls[1..] == made + calls;
    }
  }

  lemma EndsOnceOn(made: seq<Call>, calls: seq<Call>, d: Q.DisplayState)
    requires EndsOnce(calls) && calls != []
    ensures EndsOnce(calls[1..]) && (calls[1..] != [] ==> Polite(made + [calls[0]], calls[1..][0], d))
  {
    assert forall i :: 0 <= i < |calls[1..]| ==> calls[1..][i] == calls[i + 1];
  }

  lemma {:induction false} DeliverOn(pics: Q.Pictures, fronts: Fronts, n: nat, d: Q.DisplayState, a: seq<Call>,
                                     b: seq<Call>)
    ensures Deliver(pics, fronts, n, d, a + b) == Deliver(pics, fronts, n + |a|, Deliver(pics, fronts, n, d, a), b)
    decreases |a|
  {
    if a == [] {
      assert a + b == b;
    } else {
      assert (a + b)[1..] == a[1..] + b;
      DeliverOn(pics, fronts, n + 1, Give(pics, d, a[0], n, fronts(n)), a[1..], b);
    }
  }

  /** One step of the client that is not held up. */
  lemma StepDelivers(u: Machine<Client>, pics: Q.Pictures, inv: (seq<Call>, Q.DisplayState) -> bool, fronts: Fronts,
                     c: Client, q: seq<Byte>, made: seq<Call>, d: Q.DisplayState, o: Outcome<Client>)
    requires Shaped(u) && Lasting(pics, inv) && inv(made, d) && Begun(c, made, d) && u.step(c, q) == o
    requires u.header(c) && o.verdict.Done? ==> d.queue == []
    ensures var d' := Deliver(pics, fronts, |made|, d, o.calls);
            inv(made + o.calls, d') && Begun(o.state, made + o.calls, d')
  {
    assert StepShaped(c, o);
    DeliverKeeps(pics, inv, fronts, made, d, o.calls);
    if o.calls == [] {
      assert made + o.calls == made;
    } else {
      assert (made + o.calls)[|made + o.calls| - 1] == o.calls[|o.calls| - 1];
    }
  }

  /** A run of the client with the display: it is held up only while something is queued. */
  ghost predicate Kept(inv: (seq<Call>, Q.DisplayState) -> bool, made: seq<Call>, r: Run<Client>, d': Q.DisplayState) {
    && inv(made + r.outcome.calls, d')
    && if r.held then d'.queue != [] && Ended(made + r.outcome.calls)
      else Begun(r.outcome.state, made + r.outcome.calls, d')
  }

  lemma RunGoesOn(u: Machine<Client>, pics: Q.Pictures, fronts: Fronts, c: Client, q: seq<Byte>, n: nat,
                  d: Q.DisplayState, o: Outcome<Client>)
    requires u.Valid() && u.step(c, q) == o && o.verdict.Done? && (u.header(c) ==> d.queue == [])
    ensures var d' := Deliver(pics, fronts, n, d, o.calls);
            RunUntil(u, c, q, Busy(u, pics, fronts, c, q, n, d)) ==
            RunUntil(u, o.state, o.rest, Busy(u, pics, fronts, o.state, o.rest, n + |o.calls|, d')).After(o.calls)
  {
  }

  lemma RunStops(u: Machine<Client>, pics: Q.Pictures, fronts: Fronts, c: Client, q: seq<Byte>, n: nat,
                 d: Q.DisplayState, o: Outcome<Client>)
    requires u.Valid() && u.step(c, q) == o && (o.verdict.Done? ==> u.header(c) && d.queue != [])
    ensures RunUntil(u, c, q, Busy(u, pics, fronts, c, q, n, d)) ==
            if o.verdict.Done? then Run(o.(calls := []), true, o.calls) else Run(o, false, [])
  {
  }

  lemma KeptBefore(pics: Q.Pictures, inv: (seq<Call>, Q.DisplayState) -> bool, fronts: Fronts, made: seq<Call>,
                   d: Q.DisplayState, calls: seq<Call>, r: Run<Client>)
    requires Kept(inv, made + calls, r,
             Deliver(pics, fronts, |made + calls|, Deliver(pics, fronts, |made|, d, calls), r.outcome.calls))
    ensures Kept(inv, made, r.After(calls), Deliver(pics, fronts, |made|, d, calls + r.outcome.calls))
  {
    DeliverOn(pics, fronts, |made|, d, calls, r.outcome.calls);
    assert made + (calls + r.outcome.calls) == made + calls + r.outcome.calls;
  }

  ghost predicate Delivers(u: Machine<Client>, pics: Q.Pictures, inv: (seq<Call>, Q.DisplayState) -> bool,
                           fronts: Fronts, c: Client, q: seq<Byte>, made: seq<Call>, d: Q.DisplayState)
    requires u.Valid()
  {
    var r := RunUntil(u, c, q, Busy(u, pics, fronts, c, q, |made|, d));
    Kept(inv, made, r, Deliver(pics, fronts, |made|, d, r.outcome.calls))
  }

  lemma DeliversBy(u: Machine<Client>, pics: Q.Pictures, inv: (seq<Call>, Q.DisplayState) -> bool, fronts: Fronts,
                   c: Client, q: seq<Byte>, made: seq<Call>, d: Q.DisplayState, r: Run<Client>)
    requires u.Valid() && RunUntil(u, c, q, Busy(u, pics, fronts, c, q, |made|, d)) == r
    requires Kept(inv, made, r, Deliver(pics, fronts, |made|, d, r.outcome.calls))
    ensures Delivers(u, pics, inv, fronts, c, q, made, d)
  {
  }

  lemma DeliversWith(u: Machine<Client>, pics: Q.Pictures, inv: (seq<Call>, Q.DisplayState) -> bool, fronts: Fronts,
                   c: Client, q: seq<Byte>, made: seq<Call>, d: Q.DisplayState, o: Outcome<Client>, r: Run<Client>)
    requires u.Valid() && u.step(c, q) == o && o.verdict.Done? && (u.header(c) ==> d.queue == [])
    requires var d1 := Deliver(pics, fronts, |made|, d, o.calls);
             && r == RunUntil(u, o.state, o.rest, Busy(u, pics, fronts, o.state, o.rest, |made + o.calls|, d1))
             && Kept(inv, made + o.calls, r, Deliver(pics, fronts, |made + o.calls|, d1, r.outcome.calls))
    ensures Delivers(u, pics, inv, fronts, c, q, made, d)
  {
    assert |made + o.calls| == |made| + |o.calls|;
    RunGoesOn(u, pics, fronts, c, q, |made|, d, o);
    KeptBefore(pics, inv, fronts, made, d, o.calls, r);
    DeliversBy(u, pics, inv, fronts, c, q, made, d, r.After(o.calls));
  }

  lemma DeliversOn(u: Machine<Client>, pics: Q.Pictures, inv: (seq<Call>, Q.DisplayState) -> bool, fronts: Fronts,
                   c: Client, q: seq<Byte>, made: seq<Call>, d: Q.DisplayState, o: Outcome<Client>)
    requires u.Valid() && u.step(c, q) == o && o.verdict.Done? && (u.header(c) ==> d.queue == [])
    requires Delivers(u, pics, inv, fronts, o.state, o.rest, made + o.calls, Deliver(pics, fronts, |made|, d, o.calls))
    ensures Delivers(u, pics, inv, fronts, c, q, made, d)
  {
    var d1 := Deliver(pics, fronts, |made|, d, o.calls);
    DeliversWith(u, pics, inv, fronts, c, q, made, d, o,
                 RunUntil(u, o.state, o.rest, Busy(u, pics, fronts, o.state, o.rest, |made + o.calls|, d1)));
  }

  lemma {:induction false} RunDelivers(u: Machine<Client>, pics: Q.Pictures, inv: (seq<Call>, Q.DisplayState) -> bool,
                                       fronts: Fronts, c: Client, q: seq<Byte>, made: seq<Call>, d: Q.DisplayState)
    requires Shaped(u) && Lasting(pics, inv) && inv(made, d) && Begun(c, made, d)
    ensures Delivers(u, pics, inv, fronts, c, q, made, d)
    decreases u.size(c, q)
  {
    var o := u.step(c, q);
    if o.verdict.Done? && u.header(c) && d.queue != [] {
      RunStops(u, pics, fronts, c, q, |made|, d, o);
      assert made + [] == made;
    } else {
      StepDelivers(u, pics, inv, fronts, c, q, made, d, o);
      if o.verdict.Done? {
        RunDelivers(u, pics, inv, fronts, o.state, o.rest, made + o.calls, Deliver(pics, fronts, |made|, d, o.calls));
        DeliversOn(u, pics, inv, fronts, c, q, made, d, o);
      } else {
        RunStops(u, pics, fronts, c, q, |made|, d, o);
      }
    }
  }

  // ---- Client and display ---------------------------------------------------------------------------

  /** Nor does what happens to the display between calls. */
  ghost predicate Steady(pics: Q.Pictures, inv: (seq<Call>, Q.DisplayState) -> bool) {
    forall made: seq<Call>, d: Q.DisplayState, e: Q.Event ::
      inv(made, d) && Meantime(e) && Q.Possible(d, e) ==> inv(made, Q.Handle(pics, d, e))
  }

  /** The client waits for the display exactly while the display owes it a flush, and then something is queued. */
  ghost predicate Together(inv: (seq<Call>, Q.DisplayState) -> bool, w: World) {
    && inv(w.conn.calls, w.d)
    && (w.conn.flushing <==> w.d.flushing) && (w.d.flushing ==> w.d.queue != [])
    && (w.conn.flushing ==> Ended(w.conn.calls))
    && (w.conn.flushing || w.conn.failed || Begun(w.conn.client, w.conn.calls, w.d))
  }

  lemma {:induction false} DeliverFlushes(pics: Q.Pictures, fronts: Fronts, n: nat, d: Q.DisplayState, calls: seq<Call>)
    requires !d.flushing
    ensures !Deliver(pics, fronts, n, d, calls).flushing
    decreases |calls|
  {
    if calls != [] {
      GiveFlushes(pics, d, calls[0], n, fronts(n));
      DeliverFlushes(pics, fronts, n + 1, Give(pics, d, calls[0], n, fronts(n)), calls[1..]);
    }
  }

  lemma GoKeeps(u: Machine<Client>, pics: Q.Pictures, inv: (seq<Call>, Q.DisplayState) -> bool, fronts: Fronts,
                k: Conn<Client>, d: Q.DisplayState)
    requires Shaped(u) && Lasting(pics, inv) && Steady(pics, inv) && inv(k.calls, d)
    requires !k.flushing && !d.flushing && (k.failed || Begun(k.client, k.calls, d))
    ensures Together(inv, Go(u, pics, fronts, k, d))
  {
    if k.unread != [] && !k.failed {
      RunDelivers(u, pics, inv, fronts, k.client, k.unread, k.calls, d);
      var r := RunUntil(u, k.client, k.unread, Busy(u, pics, fronts, k.client, k.unread, |k.calls|, d));
      DeliverFlushes(pics, fronts, |k.calls|, d, r.outcome.calls);
    }
  }

  lemma LoadFlushes(pics: Q.Pictures, d: Q.DisplayState, img: nat, w: nat, h: nat)
    requires img !in d.loaded
    ensures var d' := Q.Handle(pics, d, Q.Load(img, w, h));
            && (d'.flushing ==> d.flushing) && (d.flushing && !d'.flushing ==> d'.queue == [])
            && ((d.flushing ==> d.queue != []) && d'.flushing ==> d'.queue != [])
            && (d.queue == [] ==> d'.queue == [])
  {
    var d1 := d.(loaded := d.loaded[img := (w, h)], armed := d.armed - {img});
    ScanFlushes(pics, d1);
  }

  lemma HappensKeeps(u: Machine<Client>, pics: Q.Pictures, inv: (seq<Call>, Q.DisplayState) -> bool, fronts: Fronts,
                     w: World, h: Happening)
    requires Shaped(u) && Lasting(pics, inv) && Steady(pics, inv) && Together(inv, w) && CanHappen(w, h)
    ensures Together(inv, Happens(u, pics, fronts, w, h))
  {
    match h
    case Message(bytes, colors) =>
      var k, d := w.conn.(unread := w.conn.unread + bytes), Written(pics, w.d, bytes, colors);
      if !k.flushing {
        GoKeeps(u, pics, inv, fronts, k, d);
      }
    case Loaded(img, width, height) =>
      LoadFlushes(pics, w.d, img, width, height);
      var d := Q.Handle(pics, w.d, Q.Load(img, width, height));
      if w.d.flushing && !d.flushing {
        GoKeeps(u, pics, inv, fronts, w.conn.(flushing := false), d);
      }
    case Spoiled(_) =>
  }

  lemma {:induction false} AllKeep(u: Machine<Client>, pics: Q.Pictures, inv: (seq<Call>, Q.DisplayState) -> bool,
                                   fronts: Fronts, w: World, hs: seq<Happening>)
    requires Shaped(u) && Lasting(pics, inv) && Steady(pics, inv) && Together(inv, w)
             && AllCanHappen(u, pics, fronts, w, hs)
    ensures Together(inv, HappenAll(u, pics, fronts, w, hs))
    decreases |hs|
  {
    if hs != [] {
      var n := |hs| - 1;
      AllKeep(u, pics, inv, fronts, w, hs[..n]);
      HappensKeeps(u, pics, inv, fronts, HappenAll(u, pics, fronts, w, hs[..n]), hs[n]);
    }
  }

  // ---- The client sees a connection -----------------------------------------------------------------

  /** What happened, as the client sees it, with the headers at which it found the display busy. */
  lemma HappensToClient(u: Machine<Client>, pics: Q.Pictures, fronts: Fronts, w: World, h: Happening)
      returns (es: seq<Event>)
    requires u.Valid() && CanHappen(w, h) && (w.conn.flushing <==> w.d.flushing)
    ensures |es| <= 1 && Arrived(es) == if h.Message? then h.bytes else []
    ensures Happens(u, pics, fronts, w, h).conn == if es == [] then w.conn else Handle(u, w.conn, es[0])
  {
    match h
    case Message(bytes, colors) =>
      var k, d := w.conn.(unread := w.conn.unread + bytes), Written(pics, w.d, bytes, colors);
      es := [Recv(bytes, Busy(u, pics, fronts, k.client, k.unread, |k.calls|, d))];
      assert [] + bytes == bytes;
    case Loaded(img, width, height) =>
      var k, d := w.conn.(flushing := false), Q.Handle(pics, w.d, Q.Load(img, width, height));
      es := if w.d.flushing && !d.flushing then [Flushed(Busy(u, pics, fronts, k.client, k.unread, |k.calls|, d))]
        else [];
    case Spoiled(_) => es := [];
  }

  lemma OneMoreEvent(u: Machine<Client>, k: Conn<Client>, events: seq<Event>, e: Event)
    requires u.Valid()
    ensures HandleAll(u, k, events + [e]) == Handle(u, HandleAll(u, k, events), e)
    ensures Arrived(events + [e]) == Arrived(events) + Arrived([e])
  {
    assert (events + [e])[..|events|] == events;
    assert [e][..0] == [];
  }

  lemma {:induction false} AllToClient(u: Machine<Client>, pics: Q.Pictures, inv: (seq<Call>, Q.DisplayState) -> bool,
                                       fronts: Fronts, w: World, hs: seq<Happening>) returns (events: seq<Event>)
    requires Shaped(u) && Lasting(pics, inv) && Steady(pics, inv) && Together(inv, w)
             && AllCanHappen(u, pics, fronts, w, hs)
    ensures HappenAll(u, pics, fronts, w, hs).conn == HandleAll(u, w.conn, events) && Arrived(events) == Sent(hs)
    decreases |hs|
  {
    if hs == [] {
      events := [];
    } else {
      var n := |hs| - 1;
      AllKeep(u, pics, inv, fronts, w, hs[..n]);
      events := AllToClient(u, pics, inv, fronts, w, hs[..n]);
      var es := HappensToClient(u, pics, fronts, HappenAll(u, pics, fronts, w, hs[..n]), hs[n]);
      if es == [] {
        assert Sent(hs) == Arrived(events) + [];
      } else {
        OneMoreEvent(u, w.conn, events, es[0]);
        assert es == [es[0]];
        events := events + es;
      }
    }
  }

  // ---- Pixels ---------------------------------------------------------------------------------------

  /** An update ends with a flip on the display. */
  lemma FinishFlips(env: Env, calls: seq<Call>)
    ensures ActionsOf(calls + Finish(env)) == ActionsOf(calls) + [Q.FlipAction]
  {
    OneMoreCall(calls, Flip);
    if !env.continuous {
      OneMoreCall(calls + [Flip], UpdateRequest);
      assert calls + Finish(env) == calls + [Flip] + [UpdateRequest];
      assert ActionsOf(calls) + [Q.FlipAction] + [] == ActionsOf(calls) + [Q.FlipAction];
    }
  }

  /** So do updates. */
  lemma {:induction false} UpdatesFlip(env: Env, m: Memory, us: seq<Update>) returns (before: seq<Call>)
    requires ValidUpdates(env, m, us) && us != []
    ensures DrawUpdates(env, m, us) == before + Finish(env)
    decreases |us|
  {
    var first, m1 := DrawUpdate(env, m, us[0]), UpdatePiece(env, m, us[0]).after;
    if |us| == 1 {
      before := CallsOf(PiecesOf(env, m, us[0].rects));
      assert DrawUpdates(env, m1, us[1..]) == [];
      assert DrawUpdates(env, m, us) == first + [] == first;
    } else {
      before := UpdatesFlip(env, m1, us[1..]);
      assert first + (before + Finish(env)) == (first + before) + Finish(env);
      before := first + before;
    }
  }

  lemma {:induction false} ApplyAllIsSound(pics: Q.Pictures, s: S.Screen, actions: seq<Q.Action>)
    requires S.Fits(s) && S.Agrees(s)
    ensures S.Fits(Q.ApplyAll(pics, s, actions)) && S.Agrees(Q.ApplyAll(pics, s, actions))
    decreases |actions|
  {
    if actions != [] {
      var n := |actions| - 1;
      ApplyAllIsSound(pics, s, actions[..n]);
      Q.ApplyIsSound(pics, Q.ApplyAll(pics, s, actions[..n]), actions[n]);
    }
  }

  lemma FlippedAtTheEnd(pics: Q.Pictures, s: S.Screen, actions: seq<Q.Action>)
    requires S.Fits(s) && S.Agrees(s)
    ensures S.FullyAgrees(Q.ApplyAll(pics, s, actions + [Q.FlipAction]))
  {
    ApplyAllIsSound(pics, s, actions);
    Q.ApplyOneMore(pics, s, actions, Q.FlipAction);
    S.FlipShowsAll(Q.ApplyAll(pics, s, actions));
  }

  lemma UpdatesAreShown(env: Env, m: Memory, us: seq<Update>, pics: Q.Pictures, s: S.Screen)
    requires ValidUpdates(env, m, us) && us != [] && S.Fits(s) && S.Agrees(s)
    ensures S.FullyAgrees(Q.ApplyAll(pics, s, ActionsOf(DrawUpdates(env, m, us))))
  {
    var before := UpdatesFlip(env, m, us);
    FinishFlips(env, before);
    FlippedAtTheEnd(pics, s, ActionsOf(before));
  }

  // ---- From bytes to pixels -------------------------------------------------------------------------

  ghost function HandedFrom(pics: Q.Pictures, s: S.Screen): (seq<Call>, Q.DisplayState) -> bool {
    (made, d) => Handed(pics, s, made, d)
  }

  lemma HandedLasts(pics: Q.Pictures, s: S.Screen)
    ensures Lasting(pics, HandedFrom(pics, s)) && Steady(pics, HandedFrom(pics, s))
  {
    forall made: seq<Call>, d: Q.DisplayState, c: Call, front: seq<Byte> | Handed(pics, s, made, d)
      && Polite(made, c, d)
      ensures Handed(pics, s, made + [c], Give(pics, d, c, |made|, front))
    {
      GiveKeeps(pics, s, made, d, c, front);
    }
    forall made: seq<Call>, d: Q.DisplayState, e: Q.Event | Handed(pics, s, made, d) && Meantime(e) && Q.Possible(d, e)
      ensures Handed(pics, s, made, Q.Handle(pics, d, e))
    {
      MeantimeKeeps(pics, s, made, d, e);
    }
  }

  /** The client and the display at the start. */
  function Start(c: Client, d: Q.DisplayState): World {
    World(Opened(c), d)
  }

  lemma StartsTogether(pics: Q.Pictures, c: Client, d: Q.DisplayState)
    requires Schedules.Fresh(d, 0)
    ensures Together(HandedFrom(pics, d.screen), Start(c, d))
  {
  }

  /** All that happened, seen from the client; and what it means for a display whose images have all been loaded. */
  lemma AllArrives(u: Machine<Client>, pics: Q.Pictures, fronts: Fronts, c: Client, d0: Q.DisplayState,
                   hs: seq<Happening>)
      returns (events: seq<Event>)
    requires Shaped(u) && Schedules.Fresh(d0, 0) && AllCanHappen(u, pics, fronts, Start(c, d0), hs)
    ensures var w := HappenAll(u, pics, fronts, Start(c, d0), hs);
            && w.conn == HandleAll(u, Opened(c), events) && Arrived(events) == Sent(hs)
            && Handed(pics, d0.screen, w.conn.calls, w.d) && (w.conn.flushing <==> w.d.flushing)
  {
    HandedLasts(pics, d0.screen);
    StartsTogether(pics, c, d0);
    AllKeep(u, pics, HandedFrom(pics, d0.screen), fronts, Start(c, d0), hs);
    events := AllToClient(u, pics, HandedFrom(pics, d0.screen), fronts, Start(c, d0), hs);
  }

  lemma HandedAtRest(pics: Q.Pictures, s: S.Screen, made: seq<Call>, d: Q.DisplayState)
    requires Handed(pics, s, made, d) && forall a :: a in d.issued ==> Q.Ready(d, a)
    ensures d.queue == [] && !d.flushing
    ensures Safe(made) ==> d.applied == ActionsOf(made) && d.screen == Q.ApplyAll(pics, s, ActionsOf(made))
  {
    Q.ReadyExactly(d);
    assert d.applied + [] == d.applied;
  }

  /** Updates reach the screen: updates arrive in any pieces, while images are loaded at any time and the client waits
      for the display whenever it finds it busy.  When all bytes are there and every image has been loaded with the
      size that was announced, the client is not held up, nothing is queued, and both canvases are what drawing the
      updates one call after the other makes of them, the viewport showing all of it; provided that in no update an
      RRE rectangle or a raw Hextile tile comes after an image. */
  lemma UpdatesReachTheScreen(env: Env, m: Memory, last: Rect, us: seq<Update>,
                              pics: Q.Pictures, fronts: Fronts, d0: Q.DisplayState, hs: seq<Happening>)
    requires ValidUpdates(env, m, us) && (forall u :: u in us ==> Drawing.NoneLate(u.rects))
    requires SlackAfterAll(us) == 0 && Updates(env).Valid() && Schedules.Fresh(d0, 0)
    requires AllCanHappen(Updates(env), pics, fronts, Start(Between(m, 0, last), d0), hs)
             && Sent(hs) == EncodeUpdates(env, m, us)
    requires var d := HappenAll(Updates(env), pics, fronts, Start(Between(m, 0, last), d0), hs).d;
             forall a :: a in d.issued ==> Q.Ready(d, a)
    ensures var w := HappenAll(Updates(env), pics, fronts, Start(Between(m, 0, last), d0), hs);
            && !w.conn.flushing && !w.conn.failed && w.conn.unread == [] && w.conn.calls == DrawUpdates(env, m, us)
            && w.d.queue == [] && w.d.screen == Q.ApplyAll(pics, d0.screen, ActionsOf(DrawUpdates(env, m, us)))
            && (us != [] ==> S.FullyAgrees(w.d.screen))
  {
    UpdatesAreShaped(env);
    var events := AllArrives(Updates(env), pics, fronts, Between(m, 0, last), d0, hs);
    var w := HappenAll(Updates(env), pics, fronts, Start(Between(m, 0, last), d0), hs);
    HandedAtRest(pics, d0.screen, w.conn.calls, w.d);
    EveryUpdateIsDrawn(env, m, last, us, events);
    Drawing.UpdatesSafe(env, m, us);
    if us != [] {
      UpdatesAreShown(env, m, us, pics, d0.screen);
    }
  }

  /** The condition is exact: the display executes the calls for updates as they were made, whatever the browser loads
      and whenever, and whatever the receive buffer holds, exactly if in no update an RRE rectangle or a raw Hextile
      tile comes after an image. */
  lemma ExactlyInOrder(env: Env, m: Memory, us: seq<Update>, pics: Q.Pictures, d0: Q.DisplayState)
    requires ValidUpdates(env, m, us) && Schedules.Fresh(d0, |DrawUpdates(env, m, us)|)
    ensures var calls := DrawUpdates(env, m, us);
            (forall turns :: Schedules.Complete(pics, d0, calls, turns) ==>
              Schedules.TakeAll(pics, d0, calls, turns).d.applied == ActionsOf(calls))
            <==> forall u :: u in us ==> Drawing.NoneLate(u.rects)
  {
    Schedules.ExactlySafe(pics, d0, DrawUpdates(env, m, us));
    Drawing.UpdatesSafe(env, m, us);
  }

  // ---- Updates that go wrong ------------------------------------------------------------------------

  const PIXEL := Rect(0, 0, 1, 1)

  /** One pixel of JPEG, then one that is drawn from the receive buffer. */
  function Late(code: RectCode): Update {
    Update([TightCode(PIXEL, 0, TE.JpegCode([1, 2, 3])), code], None)
  }

  const LATE_RRE := Late(RreCode(PIXEL, [7, 7, 7, 0], []))
  const LATE_RAW := Late(HextileCode(PIXEL, [HE.RawTile([7, 7, 7, 0])]))

  lemma JpegIsValid(env: Env, m: Memory)
    requires Idle(m)
    ensures ValidRect(env, m, TightCode(PIXEL, 0, TE.JpegCode([1, 2, 3])))
  {
  }

  lemma OneTileIsValid(tile: HE.TileCode, ts: seq<TileRect>, s: H.Hex)
    requires s.tiles == |ts| == 1 && HE.ValidTile(tile, ts[0], s)
    ensures HE.ValidTiles([tile], ts, s)
  {
    assert ts[1..] == [] && [tile][1..] == [];
    var rest := HE.AfterTile(tile, s);
    assert rest.tiles == 0 && HE.ValidTiles([], [], rest);
  }

  lemma RawIsValid(env: Env, m: Memory)
    requires Idle(m)
    ensures ValidRect(env, m, HextileCode(PIXEL, [HE.RawTile([7, 7, 7, 0])]))
  {
    SmallIsTile(PIXEL);
    OneTileIsValid(HE.RawTile([7, 7, 7, 0]), TilesLeft(PIXEL, 1), H.Start(m.hex, PIXEL));
  }

  lemma LateIsValid(env: Env, m: Memory, code: RectCode)
    requires Idle(m) && ValidRect(env, m, Late(code).rects[0])
    requires ValidRect(env, AfterRect(env, m, Late(code).rects[0]), code)
    ensures ValidUpdate(env, m, Late(code)) && ValidUpdates(env, m, [Late(code)])
  {
    var codes := Late(code).rects;
    var m1 := AfterRect(env, m, codes[0]);
    assert codes[1..] == [code] && codes[1..][1..] == [];
    var last := PiecesOf(env, m1, codes[1..]);
    assert last == [PieceOf(env, m1, code)];
    assert PiecesOf(env, m, codes)[1] == last[0];
    assert [Late(code)][1..] == [];
  }

  /** For each kind an update, valid after whatever came before, and a way of loading its image that makes the display
      execute something else than what the client called for. */
  lemma LateGoesWrong(env: Env, m: Memory, u: Update, pics: Q.Pictures, d0: Q.DisplayState)
      returns (turns: seq<Schedules.Turn>)
    requires Idle(m) && (u == LATE_RRE || u == LATE_RAW) && Schedules.Fresh(d0, 0) && d0.loaded == map[]
    ensures ValidUpdates(env, m, [u])
    ensures var calls := DrawUpdates(env, m, [u]);
            Schedules.Complete(pics, d0, calls, turns)
              && Schedules.TakeAll(pics, d0, calls, turns).d.applied != ActionsOf(calls)
  {
    JpegIsValid(env, m);
    var m1 := AfterRect(env, m, u.rects[0]);
    if u == LATE_RAW {
      RawIsValid(env, m1);
    }
    LateIsValid(env, m, u.rects[1]);
    Drawing.UpdatesSafe(env, m, [u]);
    assert u in [u] && Drawing.Pictured(u.rects[0]) && Drawing.FromBuffer(u.rects[1]);
    turns := Schedules.UnsafeGoesWrong(pics, d0, DrawUpdates(env, m, [u]));
  }

  // ---- The client held up ---------------------------------------------------------------------------

  lemma HeldStays(u: Machine<Client>, pics: Q.Pictures, fronts: Fronts, w: World, h: Happening)
    requires u.Valid() && CanHappen(w, h) && w.conn.flushing && w.d.flushing && Q.Stuck(w.d)
    ensures var w' := Happens(u, pics, fronts, w, h);
            && w'.conn == w.conn.(unread := w.conn.unread + if h.Message? then h.bytes else [])
            && Q.Stays(w.d, w'.d)
  {
    match h
    case Message(bytes, colors) =>
      Q.StuckStays(pics, w.d, Q.Overwrite(colors));
    case Loaded(img, width, height) =>
      Q.StuckStays(pics, w.d, Q.Load(img, width, height));
      assert w.conn.unread + [] == w.conn.unread;
    case Spoiled(img) =>
      Q.StuckStays(pics, w.d, Q.Spoil(img));
      assert w.conn.unread + [] == w.conn.unread;
  }

  /** An image of the wrong size at the head of the queue: the client that waits for the display waits for good,
      however much more arrives and is loaded, and nothing more is drawn. */
  lemma {:induction false} HeldForever(u: Machine<Client>, pics: Q.Pictures, fronts: Fronts, w: World,
                                       hs: seq<Happening>)
    requires u.Valid() && AllCanHappen(u, pics, fronts, w, hs)
    requires w.conn.flushing && w.d.flushing && Q.Stuck(w.d)
    ensures var w' := HappenAll(u, pics, fronts, w, hs);
            && w'.conn == w.conn.(unread := w.conn.unread + Sent(hs)) && Q.Stays(w.d, w'.d)
    decreases |hs|
  {
    if hs == [] {
      assert w.conn.unread + [] == w.conn.unread;
    } else {
      var n := |hs| - 1;
      HeldForever(u, pics, fronts, w, hs[..n]);
      HeldStays(u, pics, fronts, HappenAll(u, pics, fronts, w, hs[..n]), hs[n]);
      Associates(w.conn.unread, Sent(hs[..n]), if hs[n].Message? then hs[n].bytes else []);
    }
  }
}
