/**
 For which updates client and display together draw what was meant, at every time and whatever happens: exactly for
 those in which no RRE rectangle and no raw Hextile tile comes after an image.
 */
module ViewingExactly {
  import opened Bytes
  import opened Decoding
  import opened Growing
  import opened Handover
  import opened Rfb
  import opened RfbUpdate
  import opened Streaming
  import opened Tiling
  import opened Viewing
  import opened Wrappers
  import Drawing
  import H = Hextile
  import HE = HextileEncoding
  import Q = RenderQueue
  import R = Rre
  import S = Screen
  import Schedules

  // ---- Safe updates ---------------------------------------------------------------------------------

  lemma {:induction false} SafeBefore(calls: seq<Call>, all: seq<Call>)
    requires calls <= all && Safe(all)
    ensures Safe(calls)
    decreases |all|
  {
    if |calls| == |all| {
      assert calls == all;
    } else {
      SafeBefore(calls, all[..|all| - 1]);
    }
  }

  lemma {:induction false} ActionsBefore(calls: seq<Call>, all: seq<Call>)
    requires calls <= all
    ensures ActionsOf(calls) <= ActionsOf(all)
    decreases |all|
  {
    if |calls| == |all| {
      assert calls == all;
    } else {
      ActionsBefore(calls, all[..|all| - 1]);
    }
  }

  /** The machine makes these calls of these bytes, and none that could be lost. */
  ghost predicate Covers(u: Machine<Client>, c: Client, bytes: seq<Byte>, calls: seq<Call>) {
    u.Valid() && u.Hungry(c) && Harmless(u, c, bytes) && Batch(u, c, bytes).calls == calls
  }

  lemma RunCalls(u: Machine<Client>, c: Client, calls: seq<Call>, events: seq<Event>, more: seq<Byte>)
    requires Covers(u, c, Arrived(events) + more, calls)
    ensures var k := HandleAll(u, Opened(c), events);
            k.calls <= calls && (more == [] && !k.flushing ==> k.calls == calls)
  {
    CallsSoFar(u, c, events, more);
    if more == [] {
      assert Arrived(events) + more == Arrived(events);
      NoLosses(u, c, events, more);
      if !HandleAll(u, Opened(c), events).flushing {
        ChunkingDoesNotMatter(u, c, events);
      }
    }
  }

  lemma TwoBytesWait(env: Env, c: Client)
    requires c.fbu.rects == 0
    ensures Step(env, c, [0, 0]) == Outcome(c, [0, 0], [], Wait)
  {
  }

  lemma UpdatesCover(env: Env, m: Memory, last: Rect, us: seq<Update>)
    requires ValidUpdates(env, m, us)
    ensures Covers(Updates(env), Between(m, 0, last), EncodeUpdates(env, m, us) + [0, 0], DrawUpdates(env, m, us))
  {
    ClientDraws(env);
    TwoBytesWait(env, AfterUpdates(env, m, last, us));
    UpdatesCoverBy(Updates(env), env, m, last, us);
  }

  lemma UpdatesCoverBy(u: Machine<Client>, env: Env, m: Memory, last: Rect, us: seq<Update>)
    requires Draws(u, env) && ValidUpdates(env, m, us)
    requires u.step(AfterUpdates(env, m, last, us), [0, 0]) == Outcome(AfterUpdates(env, m, last, us), [0, 0], [], Wait)
    ensures Covers(u, Between(m, 0, last), EncodeUpdates(env, m, us) + [0, 0], DrawUpdates(env, m, us))
  {
    UpdatesLead(u, env, m, last, us, [0, 0]);
    assert DrawUpdates(env, m, us) + [] == DrawUpdates(env, m, us);
  }

  lemma SoFar(u: Machine<Client>, pics: Q.Pictures, fronts: Fronts, c: Client, d0: Q.DisplayState, hs: seq<Happening>,
              calls: seq<Call>, more: seq<Byte>)
    requires Shaped(u) && Schedules.Fresh(d0, 0) && AllCanHappen(u, pics, fronts, Start(c, d0), hs)
    requires Covers(u, c, Sent(hs) + more, calls)
    ensures var w := HappenAll(u, pics, fronts, Start(c, d0), hs);
            && Handed(pics, d0.screen, w.conn.calls, w.d) && w.conn.calls <= calls
            && (more == [] && !w.conn.flushing ==> w.conn.calls == calls)
  {
    var events := AllArrives(u, pics, fronts, c, d0, hs);
    RunCalls(u, c, calls, events, more);
  }

  /** A run of the client and the display from their start. */
  ghost predicate CanPlay(env: Env, m: Memory, last: Rect, pics: Q.Pictures, fronts: Fronts, d0: Q.DisplayState,
                          hs: seq<Happening>)
  {
    && m.hex.tiles == 0 && Updates(env).Valid()
    && AllCanHappen(Updates(env), pics, fronts, Start(Between(m, 0, last), d0), hs)
  }

  ghost function Play(env: Env, m: Memory, last: Rect, pics: Q.Pictures, fronts: Fronts, d0: Q.DisplayState,
                      hs: seq<Happening>): World
    requires CanPlay(env, m, last, pics, fronts, d0, hs)
  {
    HappenAll(Updates(env), pics, fronts, Start(Between(m, 0, last), d0), hs)
  }

  lemma AlwaysBy(u: Machine<Client>, pics: Q.Pictures, fronts: Fronts, c: Client, d0: Q.DisplayState,
                 hs: seq<Happening>, bytes: seq<Byte>, calls: seq<Call>)
    requires Shaped(u) && Schedules.Fresh(d0, 0) && AllCanHappen(u, pics, fronts, Start(c, d0), hs)
    requires Sent(hs) <= bytes && Covers(u, c, bytes + [0, 0], calls) && Safe(calls)
    ensures var w := HappenAll(u, pics, fronts, Start(c, d0), hs);
            w.d.applied <= ActionsOf(w.conn.calls) && w.conn.calls <= calls
  {
    var more := bytes[|Sent(hs)|..] + [0, 0];
    assert Sent(hs) + more == bytes + [0, 0];
    SoFar(u, pics, fronts, c, d0, hs, calls, more);
    SafeBefore(HappenAll(u, pics, fronts, Start(c, d0), hs).conn.calls, calls);
  }

  /** At every time of a run with updates that are in order, the display has executed the first of the actions that the
      client's calls ask for, and the client has made the first of the calls that the updates mean. */
  lemma AlwaysAsMade(env: Env, m: Memory, last: Rect, us: seq<Update>, pics: Q.Pictures, fronts: Fronts,
                     d0: Q.DisplayState, hs: seq<Happening>)
    requires ValidUpdates(env, m, us) && (forall u :: u in us ==> Drawing.NoneLate(u.rects))
    requires Schedules.Fresh(d0, 0) && CanPlay(env, m, last, pics, fronts, d0, hs)
    requires Sent(hs) <= EncodeUpdates(env, m, us)
    ensures var w := Play(env, m, last, pics, fronts, d0, hs);
            w.d.applied <= ActionsOf(w.conn.calls) && w.conn.calls <= DrawUpdates(env, m, us)
  {
    UpdatesAreShaped(env);
    UpdatesCover(env, m, last, us);
    Drawing.UpdatesSafe(env, m, us);
    AlwaysBy(Updates(env), pics, fronts, Between(m, 0, last), d0, hs, EncodeUpdates(env, m, us),
      DrawUpdates(env, m, us));
  }

  // ---- Calls that come too late ---------------------------------------------------------------------

  /** The data of a tile are opaque, and so they are not what the byte before them makes of them. */
  predicate Telling(c: Call) {
    Exposed(c) && c.BlitImage? ==> |c.data| >= 4 && c.data[3] == 255
  }

  /** Before every raw tile stands the byte that announces it and nothing else. */
  function Announcing(): Fronts {
    n => [1]
  }

  /** Images are numbered by calls before the n-th, and none that waits is loaded. */
  ghost predicate Numbered(d: Q.DisplayState, n: nat) {
    && (forall k :: k in d.loaded ==> k < n)
    && (forall i :: 0 <= i < |d.queue| && d.queue[i].ImageAction? ==> d.queue[i].img < n && d.queue[i].img !in d.loaded)
    && (forall i, j :: 0 <= i < j < |d.queue| && d.queue[i].ImageAction? && d.queue[j].ImageAction? ==>
          d.queue[i].img < d.queue[j].img)
  }

  /** While something waits, and for an image, a call is added to the queue. */
  lemma GiveQueues(pics: Q.Pictures, d: Q.DisplayState, c: Call, n: nat, front: seq<Byte>) returns (more: seq<Q.Action>)
    requires n !in d.loaded
    ensures var d' := Give(pics, d, c, n, front); d'.queue == d.queue + more && d'.loaded == d.loaded
    ensures |more| <= 1 && (more != [] && more[0].ImageAction? ==> more[0].img == n)
    ensures (d.queue != [] || Image(c)) && ActionOf(c, n) != [] ==> more != []
  {
    if d.queue == [] && !Image(c) {
      more := [];
      Schedules.GivePlain(pics, d, c, n, front);
    } else if d.queue == [] {
      Schedules.GiveImage(pics, d, c, n, front);
      more := [Q.ImageAction(c.x, c.y, c.w, c.h, n)];
    } else {
      more := Give(pics, d, c, n, front).queue[|d.queue|..];
    }
  }

  lemma GiveNumbers(pics: Q.Pictures, d: Q.DisplayState, c: Call, n: nat, front: seq<Byte>)
    requires Numbered(d, n)
    ensures Numbered(Give(pics, d, c, n, front), n + 1)
  {
    var more := GiveQueues(pics, d, c, n, front);
  }

  lemma {:induction false} DeliverNumbers(pics: Q.Pictures, fronts: Fronts, n: nat, d: Q.DisplayState, calls: seq<Call>)
    requires Numbered(d, n)
    ensures Numbered(Deliver(pics, fronts, n, d, calls), n + |calls|)
    decreases |calls|
  {
    if calls != [] {
      GiveNumbers(pics, d, calls[0], n, fronts(n));
      DeliverNumbers(pics, fronts, n + 1, Give(pics, d, calls[0], n, fronts(n)), calls[1..]);
    }
  }

  predicate IsView(a: Q.Action) {
    a.FillAction? && a.view
  }

  /** In the queue, at this place, is something else than was asked for, or a view that can still become so. */
  ghost predicate SpoiltAt(d: Q.DisplayState, at: nat) {
    && at < |d.queue| && |Log(d)| == |d.issued|
    && (d.queue[at] != d.issued[|d.applied| + at] || IsView(d.queue[at]))
  }

  lemma SpoiltGrows(d: Q.DisplayState, d': Q.DisplayState, at: nat)
    requires SpoiltAt(d, at) && Grows(d, d')
    ensures SpoiltAt(d', at)
  {
  }

  lemma GiveSpoils(pics: Q.Pictures, d: Q.DisplayState, c: Call, n: nat)
    requires d.queue != [] && Exposed(c) && Telling(c) && |Log(d)| == |d.issued|
    ensures SpoiltAt(Give(pics, d, c, n, [1]), |d.queue|)
  {
    GiveGrows(pics, d, c, n, [1]);
    if c.BlitImage? {
      var queued := ([1] + c.data)[..c.w * c.h * 4];
      assert queued[0] == 1 && queued[1] == c.data[0] && queued[2] == c.data[1] && queued[3] == c.data[2];
      assert queued != c.data;
    }
  }

  /** An update that begins with nothing in the queue, and whose calls are all made before any image is loaded: the
      first call that comes too late spoils the queue. */
  lemma {:induction false} DeliverSpoils(pics: Q.Pictures, made: seq<Call>, d: Q.DisplayState, calls: seq<Call>)
      returns (at: nat)
    requires Numbered(d, |made|) && |Log(d)| == |d.issued| && (ImageSince(made) ==> d.queue != [])
    requires (forall c :: c in calls ==> Telling(c)) && Safe(made) && !Safe(made + calls)
    ensures SpoiltAt(Deliver(pics, Announcing(), |made|, d, calls), at)
    decreases |calls|
  {
    assert made + [] == made;
    if calls == [] {
      assert false;
    }
    var c, rest := calls[0], calls[1..];
    var d1 := Give(pics, d, c, |made|, [1]);
    OneMoreCall(made, c);
    GiveGrows(pics, d, c, |made|, [1]);
    if Safe(made + [c]) {
      var more := GiveQueues(pics, d, c, |made|, [1]);
      GiveNumbers(pics, d, c, |made|, [1]);
      assert made + calls == made + [c] + rest;
      at := DeliverSpoils(pics, made + [c], d1, rest);
    } else {
      GiveSpoils(pics, d, c, |made|);
      DeliverGrows(pics, Announcing(), |made| + 1, d1, rest);
      at := |d.queue|;
      SpoiltGrows(d1, Deliver(pics, Announcing(), |made| + 1, d1, rest), at);
    }
  }

  // ---- Going on -------------------------------------------------------------------------------------

  /** Client and display, with every image loaded in its size as soon as it was the first to wait. */
  ghost predicate Fit(pics: Q.Pictures, s: S.Screen, w: World) {
    Together(HandedFrom(pics, s), w) && Numbered(w.d, |w.conn.calls|)
  }

  /** The client about to go on, with nothing owed. */
  ghost predicate Free(pics: Q.Pictures, s: S.Screen, k: Conn<Client>, d: Q.DisplayState) {
    && Handed(pics, s, k.calls, d) && Numbered(d, |k.calls|)
    && !k.flushing && !d.flushing && (k.failed || Begun(k.client, k.calls, d))
  }

  lemma GoFits(u: Machine<Client>, pics: Q.Pictures, s: S.Screen, k: Conn<Client>, d: Q.DisplayState)
    requires Shaped(u) && Free(pics, s, k, d)
    ensures Fit(pics, s, Go(u, pics, Announcing(), k, d))
  {
    HandedLasts(pics, s);
    GoKeeps(u, pics, HandedFrom(pics, s), Announcing(), k, d);
    if k.unread != [] && !k.failed {
      var r := RunUntil(u, k.client, k.unread, Busy(u, pics, Announcing(), k.client, k.unread, |k.calls|, d));
      DeliverNumbers(pics, Announcing(), |k.calls|, d, r.outcome.calls);
    }
  }

  /** Going on at the beginning of an update. */
  lemma GoSpoils(u: Machine<Client>, pics: Q.Pictures, s: S.Screen, k: Conn<Client>, d: Q.DisplayState)
      returns (at: nat)
    requires Shaped(u) && Free(pics, s, k, d) && Ended(k.calls) && Safe(k.calls)
    requires var w := Go(u, pics, Announcing(), k, d);
             !Safe(w.conn.calls) && forall c :: c in w.conn.calls ==> Telling(c)
    ensures SpoiltAt(Go(u, pics, Announcing(), k, d).d, at)
  {
    var r := RunUntil(u, k.client, k.unread, Busy(u, pics, Announcing(), k.client, k.unread, |k.calls|, d));
    assert Go(u, pics, Announcing(), k, d).conn.calls == k.calls + r.outcome.calls;
    assert forall c :: c in r.outcome.calls ==> c in k.calls + r.outcome.calls;
    at := DeliverSpoils(pics, k.calls, d, r.outcome.calls);
  }

  /** The display after the first image in the queue has come in its size. */
  lemma HeadLoads(pics: Q.Pictures, d: Q.DisplayState, n: nat)
    requires Q.Inv(d) && Numbered(d, n) && d.queue != []
    ensures d.queue[0].ImageAction? && d.queue[0].img !in d.loaded
    ensures var a := d.queue[0];
            var d' := Q.Handle(pics, d, Q.Load(a.img, a.w, a.h));
            && Numbered(d', n) && Log(d') == Log(d) && d'.issued == d.issued
            && d.applied <= d'.applied && |d.applied| < |d'.applied|
  {
    var a := d.queue[0];
    var d1 := d.(loaded := d.loaded[a.img := (a.w, a.h)], armed := d.armed - {a.img});
    ScanLog(pics, d1);
    ScanLeaves(pics, d1);
    ScanAtLeast(pics, d1, 1);
  }

  /** What the load of the first image does to client and display. */
  ghost predicate Advances(w: World, w': World) {
    && |w.d.applied| < |w'.d.applied| && w.d.applied <= w'.d.applied
    && Log(w.d) <= Log(w'.d) && w.d.issued <= w'.d.issued
  }

  lemma LoadAdvances(u: Machine<Client>, pics: Q.Pictures, s: S.Screen, w: World)
    requires Shaped(u) && Fit(pics, s, w) && w.d.queue != []
    ensures w.d.queue[0].ImageAction? && CanHappen(w, HeadLoad(w.d))
    ensures var w' := Happens(u, pics, Announcing(), w, HeadLoad(w.d)); Fit(pics, s, w') && Advances(w, w')
  {
    HeadLoads(pics, w.d, |w.conn.calls|);
    var a := w.d.queue[0];
    var d := Q.Handle(pics, w.d, Q.Load(a.img, a.w, a.h));
    HandedLasts(pics, s);
    HappensKeeps(u, pics, HandedFrom(pics, s), Announcing(), w, HeadLoad(w.d));
    if w.d.flushing && !d.flushing {
      LoadFrees(pics, s, w);
      GoFits(u, pics, s, w.conn.(flushing := false), d);
      GoGrows(u, pics, Announcing(), w.conn.(flushing := false), d);
    }
  }

  lemma LoadFrees(pics: Q.Pictures, s: S.Screen, w: World)
    requires Fit(pics, s, w) && w.d.queue != [] && w.d.queue[0].ImageAction? && w.d.queue[0].img !in w.d.loaded
    requires var a := w.d.queue[0];
             w.d.flushing && !Q.Handle(pics, w.d, Q.Load(a.img, a.w, a.h)).flushing
    ensures var a := w.d.queue[0];
            Free(pics, s, w.conn.(flushing := false), Q.Handle(pics, w.d, Q.Load(a.img, a.w, a.h)))
  {
    var a := w.d.queue[0];
    HeadLoads(pics, w.d, |w.conn.calls|);
    LoadFlushes(pics, w.d, a.img, a.w, a.h);
    MeantimeKeeps(pics, s, w.conn.calls, w.d, Q.Load(a.img, a.w, a.h));
  }

  /** The load of an image lets the client go on, and that is where calls come too late. */
  lemma LoadSpoils(u: Machine<Client>, pics: Q.Pictures, s: S.Screen, w: World) returns (at: nat)
    requires Shaped(u) && Fit(pics, s, w) && w.d.queue != [] && w.d.queue[0].ImageAction? && CanHappen(w, HeadLoad(w.d))
    requires Safe(w.conn.calls)
    requires var w' := Happens(u, pics, Announcing(), w, HeadLoad(w.d));
             !Safe(w'.conn.calls) && forall c :: c in w'.conn.calls ==> Telling(c)
    ensures SpoiltAt(Happens(u, pics, Announcing(), w, HeadLoad(w.d)).d, at)
  {
    var a := w.d.queue[0];
    var d := Q.Handle(pics, w.d, Q.Load(a.img, a.w, a.h));
    LoadFrees(pics, s, w);
    at := GoSpoils(u, pics, s, w.conn.(flushing := false), d);
  }

  /** Something else than was asked for was executed there, or waits there. */
  ghost predicate WrongAt(d: Q.DisplayState, a: nat) {
    a < |Log(d)| && a < |d.issued| && Log(d)[a] != d.issued[a]
  }

  function OtherThan(want: Q.Action): seq<Byte> {
    if want.FillAction? then Schedules.Other(want.color) else []
  }

  lemma OverwrittenWrong(pics: Q.Pictures, d: Q.DisplayState, n: nat, at: nat)
    requires SpoiltAt(d, at) && Numbered(d, n)
    ensures var d' := Q.Handle(pics, d, Q.Overwrite(Q.All(OtherThan(d.issued[|d.applied| + at]))));
            WrongAt(d', |d.applied| + at) && Numbered(d', n)
  {
    var want := d.issued[|d.applied| + at];
    var colors := Q.All(OtherThan(want));
    var q := Q.Overwritten(d.queue, colors);
    assert forall i :: 0 <= i < |q| ==> q[i] == Q.Recolored(d.queue[i], colors(i));
    assert (d.applied + q)[|d.applied| + at] == q[at];
  }

  /** A message over the colours in the queue. */
  function Over(d: Q.DisplayState, at: nat, bytes: seq<Byte>): Happening
    requires |d.applied| + at < |d.issued|
  {
    Message(bytes, Q.All(OtherThan(d.issued[|d.applied| + at])))
  }

  lemma MessageSpoils(u: Machine<Client>, pics: Q.Pictures, s: S.Screen, w: World, at: nat, bytes: seq<Byte>)
    requires Shaped(u) && Fit(pics, s, w) && SpoiltAt(w.d, at) && bytes != []
    ensures var w' := Happens(u, pics, Announcing(), w, Over(w.d, at, bytes));
            Fit(pics, s, w') && WrongAt(w'.d, |w.d.applied| + at)
  {
    var h := Over(w.d, at, bytes);
    var k, d := w.conn.(unread := w.conn.unread + bytes), Q.Handle(pics, w.d, Q.Overwrite(h.colors));
    HandedLasts(pics, s);
    HappensKeeps(u, pics, HandedFrom(pics, s), Announcing(), w, h);
    OverwrittenWrong(pics, w.d, |w.conn.calls|, at);
    if !k.flushing {
      MeantimeKeeps(pics, s, w.conn.calls, w.d, Q.Overwrite(h.colors));
      GoFits(u, pics, s, k, d);
      GoGrows(u, pics, Announcing(), k, d);
    }
  }

  // ---- Whole runs -----------------------------------------------------------------------------------

  lemma OneMoreHappening(u: Machine<Client>, pics: Q.Pictures, fronts: Fronts, w: World, hs: seq<Happening>,
                         h: Happening)
    requires u.Valid() && AllCanHappen(u, pics, fronts, w, hs) && CanHappen(HappenAll(u, pics, fronts, w, hs), h)
    ensures AllCanHappen(u, pics, fronts, w, hs + [h])
    ensures HappenAll(u, pics, fronts, w, hs + [h]) == Happens(u, pics, fronts, HappenAll(u, pics, fronts, w, hs), h)
    ensures Sent(hs + [h]) == Sent(hs) + if h.Message? then h.bytes else []
  {
    assert (hs + [h])[..|hs|] == hs;
  }

  /** A run with these bytes, in which the images are loaded as they should. */
  ghost predicate Runs(u: Machine<Client>, pics: Q.Pictures, c: Client, d0: Q.DisplayState, hs: seq<Happening>,
                       bytes: seq<Byte>) {
    && Shaped(u) && Schedules.Fresh(d0, 0) && AllCanHappen(u, pics, Announcing(), Start(c, d0), hs) && Sent(hs) == bytes
    && Fit(pics, d0.screen, HappenAll(u, pics, Announcing(), Start(c, d0), hs))
  }

  ghost function At(u: Machine<Client>, pics: Q.Pictures, c: Client, d0: Q.DisplayState, hs: seq<Happening>): World
    requires u.Valid() && AllCanHappen(u, pics, Announcing(), Start(c, d0), hs)
  {
    HappenAll(u, pics, Announcing(), Start(c, d0), hs)
  }

  lemma RunOn(u: Machine<Client>, pics: Q.Pictures, c: Client, d0: Q.DisplayState, hs: seq<Happening>, bytes: seq<Byte>,
              h: Happening, more: seq<Byte>)
    requires Runs(u, pics, c, d0, hs, bytes) && CanHappen(At(u, pics, c, d0, hs), h)
    requires more == if h.Message? then h.bytes else []
    requires Fit(pics, d0.screen, Happens(u, pics, Announcing(), At(u, pics, c, d0, hs), h))
    ensures Runs(u, pics, c, d0, hs + [h], bytes + more)
    ensures At(u, pics, c, d0, hs + [h]) == Happens(u, pics, Announcing(), At(u, pics, c, d0, hs), h)
  {
    OneMoreHappening(u, pics, Announcing(), Start(c, d0), hs, h);
  }

  /** One image more. */
  lemma LoadOne(u: Machine<Client>, pics: Q.Pictures, c: Client, d0: Q.DisplayState, hs: seq<Happening>,
                bytes: seq<Byte>)
      returns (hs': seq<Happening>)
    requires Runs(u, pics, c, d0, hs, bytes) && At(u, pics, c, d0, hs).d.queue != []
    ensures Runs(u, pics, c, d0, hs', bytes) && Advances(At(u, pics, c, d0, hs), At(u, pics, c, d0, hs'))
    ensures var w := At(u, pics, c, d0, hs);
            && w.d.queue[0].ImageAction? && CanHappen(w, HeadLoad(w.d))
            && At(u, pics, c, d0, hs') == Happens(u, pics, Announcing(), w, HeadLoad(w.d))
  {
    var w := At(u, pics, c, d0, hs);
    LoadAdvances(u, pics, d0.screen, w);
    RunOn(u, pics, c, d0, hs, bytes, HeadLoad(w.d), []);
    assert bytes + [] == bytes;
    hs' := hs + [HeadLoad(w.d)];
  }

  lemma SoFarHere(u: Machine<Client>, pics: Q.Pictures, c: Client, d0: Q.DisplayState, hs: seq<Happening>,
                  bytes: seq<Byte>, calls: seq<Call>)
    requires Runs(u, pics, c, d0, hs, bytes) && Covers(u, c, bytes, calls)
    ensures var w := At(u, pics, c, d0, hs);
            && w.conn.calls <= calls && (!w.conn.flushing ==> w.conn.calls == calls)
            && |w.d.applied| <= |ActionsOf(calls)|
  {
    assert bytes + [] == bytes;
    SoFar(u, pics, Announcing(), c, d0, hs, calls, []);
    ActionsBefore(At(u, pics, c, d0, hs).conn.calls, calls);
  }

  /** Images are loaded one by one until a call comes too late. */
  lemma {:induction false} ReachSpoilt(u: Machine<Client>, pics: Q.Pictures, c: Client, d0: Q.DisplayState,
                                       hs: seq<Happening>, bytes: seq<Byte>, calls: seq<Call>)
      returns (hs': seq<Happening>, at: nat)
    requires Runs(u, pics, c, d0, hs, bytes) && Covers(u, c, bytes, calls)
    requires !Safe(calls) && (forall x :: x in calls ==> Telling(x)) && Safe(At(u, pics, c, d0, hs).conn.calls)
    ensures Runs(u, pics, c, d0, hs', bytes) && SpoiltAt(At(u, pics, c, d0, hs').d, at)
    decreases |ActionsOf(calls)| - |At(u, pics, c, d0, hs).d.applied|
  {
    var w := At(u, pics, c, d0, hs);
    SoFarHere(u, pics, c, d0, hs, bytes, calls);
    hs' := LoadOne(u, pics, c, d0, hs, bytes);
    var w' := At(u, pics, c, d0, hs');
    SoFarHere(u, pics, c, d0, hs', bytes, calls);
    if Safe(w'.conn.calls) {
      hs', at := ReachSpoilt(u, pics, c, d0, hs', bytes, calls);
    } else {
      assert forall x :: x in w'.conn.calls ==> x in calls;
      at := LoadSpoils(u, pics, d0.screen, w);
    }
  }

  /** Images are loaded one by one until what is wrong is executed. */
  lemma {:induction false} RunOut(u: Machine<Client>, pics: Q.Pictures, c: Client, d0: Q.DisplayState,
                                  hs: seq<Happening>, bytes: seq<Byte>, a: nat)
      returns (hs': seq<Happening>)
    requires Runs(u, pics, c, d0, hs, bytes) && WrongAt(At(u, pics, c, d0, hs).d, a)
    ensures Runs(u, pics, c, d0, hs', bytes) && WrongAt(At(u, pics, c, d0, hs').d, a)
    ensures a < |At(u, pics, c, d0, hs').d.applied|
    decreases a - |At(u, pics, c, d0, hs).d.applied|
  {
    if a < |At(u, pics, c, d0, hs).d.applied| {
      hs' := hs;
    } else {
      hs' := LoadOne(u, pics, c, d0, hs, bytes);
      hs' := RunOut(u, pics, c, d0, hs', bytes, a);
    }
  }

  lemma StartRuns(u: Machine<Client>, pics: Q.Pictures, c: Client, d0: Q.DisplayState)
    requires Shaped(u) && Schedules.Fresh(d0, 0) && d0.loaded == map[]
    ensures Runs(u, pics, c, d0, [], []) && At(u, pics, c, d0, []) == Start(c, d0)
  {
    StartsTogether(pics, c, d0);
  }

  lemma FirstGo(u: Machine<Client>, pics: Q.Pictures, fronts: Fronts, c: Client, d0: Q.DisplayState, bytes: seq<Byte>,
                colors: nat -> seq<Byte>)
    requires u.Valid() && d0.queue == []
    ensures Happens(u, pics, fronts, Start(c, d0), Message(bytes, colors)) ==
            Go(u, pics, fronts, Opened(c).(unread := bytes), d0)
  {
    assert Q.Overwritten(d0.queue, colors) == d0.queue;
    assert [] + bytes == bytes;
  }

  lemma StartsFree(pics: Q.Pictures, c: Client, d0: Q.DisplayState, bytes: seq<Byte>)
    requires Schedules.Fresh(d0, 0) && d0.loaded == map[]
    ensures Free(pics, d0.screen, Opened(c).(unread := bytes), d0)
  {
    StartsTogether(pics, c, d0);
  }

  /** A message to a client that has made no calls, and a display that has nothing to do. */
  lemma FirstMessage(u: Machine<Client>, pics: Q.Pictures, c: Client, d0: Q.DisplayState, bytes: seq<Byte>)
      returns (hs: seq<Happening>)
    requires Shaped(u) && Schedules.Fresh(d0, 0) && d0.loaded == map[]
    ensures Runs(u, pics, c, d0, hs, bytes)
    ensures At(u, pics, c, d0, hs) == Go(u, pics, Announcing(), Opened(c).(unread := bytes), d0)
  {
    var h := Message(bytes, Q.All([]));
    StartRuns(u, pics, c, d0);
    OneMoreHappening(u, pics, Announcing(), Start(c, d0), [], h);
    FirstGo(u, pics, Announcing(), c, d0, bytes, h.colors);
    StartsFree(pics, c, d0, bytes);
    GoFits(u, pics, d0.screen, Opened(c).(unread := bytes), d0);
    assert [] + bytes == bytes;
    hs := [] + [h];
  }

  lemma ReachFromStart(u: Machine<Client>, pics: Q.Pictures, c: Client, d0: Q.DisplayState, bytes: seq<Byte>,
                       calls: seq<Call>)
      returns (hs: seq<Happening>, at: nat)
    requires Shaped(u) && Schedules.Fresh(d0, 0) && d0.loaded == map[] && Covers(u, c, bytes, calls)
    requires !Safe(calls) && forall x :: x in calls ==> Telling(x)
    ensures Runs(u, pics, c, d0, hs, bytes) && SpoiltAt(At(u, pics, c, d0, hs).d, at)
  {
    hs := FirstMessage(u, pics, c, d0, bytes);
    StartsFree(pics, c, d0, bytes);
    SoFarHere(u, pics, c, d0, hs, bytes, calls);
    var w := At(u, pics, c, d0, hs);
    if Safe(w.conn.calls) {
      hs, at := ReachSpoilt(u, pics, c, d0, hs, bytes, calls);
    } else {
      assert forall x :: x in w.conn.calls ==> x in calls;
      at := GoSpoils(u, pics, d0.screen, Opened(c).(unread := bytes), d0);
    }
  }

  lemma SecondMessage(u: Machine<Client>, pics: Q.Pictures, c: Client, d0: Q.DisplayState, hs: seq<Happening>,
                      bytes: seq<Byte>, at: nat, next: seq<Byte>) returns (hs': seq<Happening>, a: nat)
    requires Runs(u, pics, c, d0, hs, bytes) && SpoiltAt(At(u, pics, c, d0, hs).d, at) && next != []
    ensures Runs(u, pics, c, d0, hs', bytes + next) && WrongAt(At(u, pics, c, d0, hs').d, a)
  {
    var w := At(u, pics, c, d0, hs);
    MessageSpoils(u, pics, d0.screen, w, at, next);
    RunOn(u, pics, c, d0, hs, bytes, Over(w.d, at, next), next);
    hs', a := hs + [Over(w.d, at, next)], |w.d.applied| + at;
  }

  /** What the display has executed is not what the client called for. */
  ghost predicate GoneWrong(w: World) {
    !(w.d.applied <= ActionsOf(w.conn.calls))
  }

  lemma ExecutedWrong(pics: Q.Pictures, s: S.Screen, w: World, a: nat)
    requires Fit(pics, s, w) && WrongAt(w.d, a) && a < |w.d.applied|
    ensures GoneWrong(w)
  {
    assert Log(w.d)[a] == w.d.applied[a] && w.d.issued == ActionsOf(w.conn.calls);
  }

  /** The bytes in one message, images loaded one by one until a call comes too late, a second message, and images
      loaded until what is wrong is executed. */
  lemma RunGoesWrong(u: Machine<Client>, pics: Q.Pictures, c: Client, d0: Q.DisplayState,
                     bytes: seq<Byte>, next: seq<Byte>, calls: seq<Call>) returns (hs: seq<Happening>)
    requires Shaped(u) && Schedules.Fresh(d0, 0) && d0.loaded == map[] && Covers(u, c, bytes, calls) && next != []
    requires !Safe(calls) && forall x :: x in calls ==> Telling(x)
    ensures Runs(u, pics, c, d0, hs, bytes + next) && GoneWrong(At(u, pics, c, d0, hs))
  {
    var at, a;
    hs, at := ReachFromStart(u, pics, c, d0, bytes, calls);
    hs, a := SecondMessage(u, pics, c, d0, hs, bytes, at, next);
    hs := RunOut(u, pics, c, d0, hs, bytes + next, a);
    ExecutedWrong(pics, d0.screen, At(u, pics, c, d0, hs), a);
  }

  // ---- Updates --------------------------------------------------------------------------------------

  ghost predicate AllTelling(calls: seq<Call>) {
    forall c :: c in calls ==> Telling(c)
  }

  lemma {:induction false} TilesTell(tiles: seq<HE.TileCode>, ts: seq<TileRect>, s: H.Hex)
    requires s.tiles == |ts| && HE.ValidTiles(tiles, ts, s)
    ensures AllTelling(HE.DrawTiles(tiles, ts, s))
    decreases |ts|
  {
    if ts != [] {
      TilesTell(tiles[1..], ts[1..], HE.AfterTile(tiles[0], s));
    }
  }

  lemma {:induction false} SubsTell(r: Rect, subs: seq<R.Sub>)
    ensures AllTelling(R.DrawSubs(r, subs))
    decreases |subs|
  {
    if subs != [] {
      SubsTell(r, subs[1..]);
    }
  }

  lemma RectTells(env: Env, m: Memory, code: RectCode)
    requires ValidRect(env, m, code)
    ensures AllTelling(DrawRect(env, m, code))
  {
    match code
    case CopyCode(_, _, _) =>
    case RreCode(r, _, subs) => SubsTell(r, subs);
    case HextileCode(r, tiles) => TilesTell(tiles, TilesLeft(r, Total(r)), H.Start(m.hex, r));
    case TightCode(_, _, _) =>
  }

  lemma {:induction false} RectsTell(env: Env, m: Memory, codes: seq<RectCode>)
    requires ValidRects(env, m, codes)
    ensures AllTelling(CallsOf(PiecesOf(env, m, codes)))
    decreases |codes|
  {
    if codes != [] {
      var ps, rest := PiecesOf(env, m, codes), PiecesOf(env, AfterRect(env, m, codes[0]), codes[1..]);
      RectTells(env, m, codes[0]);
      RectsTell(env, AfterRect(env, m, codes[0]), codes[1..]);
      assert ps[1..] == rest && CallsOf(ps) == DrawRect(env, m, codes[0]) + CallsOf(rest);
    }
  }

  lemma {:induction false} UpdatesTell(env: Env, m: Memory, us: seq<Update>)
    requires ValidUpdates(env, m, us)
    ensures AllTelling(DrawUpdates(env, m, us))
    decreases |us|
  {
    if us != [] {
      RectsTell(env, m, us[0].rects);
      UpdatesTell(env, UpdatePiece(env, m, us[0]).after, us[1..]);
    }
  }

  /** An update that copies one pixel. */
  const COPY := Update([CopyCode(PIXEL, 0, 0)], None)

  lemma CopyIsValid(env: Env, m: Memory)
    requires Idle(m)
    ensures ValidUpdate(env, m, COPY) && ValidUpdates(env, m, [COPY])
    ensures EncodeUpdates(env, m, [COPY])[..2] == [0, 0] && |EncodeUpdates(env, m, [COPY])| > 2
  {
    assert COPY.rects[1..] == [] && [COPY][1..] == [];
    var p := PieceOf(env, m, COPY.rects[0]);
    assert PiecesOf(env, m, COPY.rects) == [p];
    assert EncodeUpdate(env, m, COPY)[..4] == UpdateHead(1);
    assert EncodeUpdates(env, m, [COPY]) == EncodeUpdate(env, m, COPY) + [];
  }

  lemma {:induction false} AppendCopy(env: Env, m: Memory, us: seq<Update>) returns (tail: seq<Byte>)
    requires ValidUpdates(env, m, us)
    ensures ValidUpdates(env, m, us + [COPY]) && tail != []
    ensures EncodeUpdates(env, m, us + [COPY]) == EncodeUpdates(env, m, us) + ([0, 0] + tail)
    decreases |us|
  {
    if us == [] {
      CopyIsValid(env, m);
      var bytes := EncodeUpdates(env, m, [COPY]);
      tail := bytes[2..];
      assert us + [COPY] == [COPY] && bytes == [0, 0] + tail;
    } else {
      tail := AppendCopy(env, UpdatePiece(env, m, us[0]).after, us[1..]);
      AppendStep(env, m, us, [0, 0] + tail);
    }
  }

  lemma AppendStep(env: Env, m: Memory, us: seq<Update>, more: seq<Byte>)
    requires ValidUpdates(env, m, us) && us != []
    requires ValidUpdates(env, UpdatePiece(env, m, us[0]).after, us[1..] + [COPY])
    requires EncodeUpdates(env, UpdatePiece(env, m, us[0]).after, us[1..] + [COPY]) ==
             EncodeUpdates(env, UpdatePiece(env, m, us[0]).after, us[1..]) + more
    ensures ValidUpdates(env, m, us + [COPY]) && EncodeUpdates(env, m, us + [COPY]) == EncodeUpdates(env, m, us) + more
  {
    assert (us + [COPY])[1..] == us[1..] + [COPY] && (us + [COPY])[0] == us[0];
    Associates(EncodeUpdate(env, m, us[0]), EncodeUpdates(env, UpdatePiece(env, m, us[0]).after, us[1..]), more);
  }

  /** Client and display get the updates `us`, or the first of their bytes, then further updates that are in order; the
      bytes before the data of each raw tile end with one that announces it. */
  ghost predicate PlaysOut(env: Env, m: Memory, last: Rect, us: seq<Update>, vs: seq<Update>,
                           pics: Q.Pictures, fronts: Fronts, d0: Q.DisplayState, hs: seq<Happening>)
  {
    && CanPlay(env, m, last, pics, fronts, d0, hs)
    && ValidUpdates(env, m, us + vs) && (forall v :: v in vs ==> Drawing.NoneLate(v.rects))
    && (forall n :: Announces(fronts(n))) && Sent(hs) <= EncodeUpdates(env, m, us + vs)
  }

  lemma LateRun(env: Env, m: Memory, last: Rect, us: seq<Update>, pics: Q.Pictures, d0: Q.DisplayState, next: seq<Byte>)
      returns (hs: seq<Happening>)
    requires ValidUpdates(env, m, us) && Schedules.Fresh(d0, 0) && d0.loaded == map[] && next != []
    requires !(forall u :: u in us ==> Drawing.NoneLate(u.rects))
    ensures CanPlay(env, m, last, pics, Announcing(), d0, hs) && Sent(hs) == EncodeUpdates(env, m, us) + [0, 0] + next
    ensures GoneWrong(Play(env, m, last, pics, Announcing(), d0, hs))
  {
    UpdatesAreShaped(env);
    UpdatesCover(env, m, last, us);
    UpdatesTell(env, m, us);
    Drawing.UpdatesSafe(env, m, us);
    hs := RunGoesWrong(Updates(env), pics, Between(m, 0, last), d0, EncodeUpdates(env, m, us) + [0, 0], next,
                       DrawUpdates(env, m, us));
  }

  lemma RunPlaysOut(env: Env, m: Memory, last: Rect, us: seq<Update>, pics: Q.Pictures, d0: Q.DisplayState,
                    hs: seq<Happening>)
    requires CanPlay(env, m, last, pics, Announcing(), d0, hs)
    requires ValidUpdates(env, m, us + [COPY]) && Sent(hs) == EncodeUpdates(env, m, us + [COPY])
    ensures PlaysOut(env, m, last, us, [COPY], pics, Announcing(), d0, hs)
  {
    assert Drawing.NoneLate(COPY.rects);
  }

  lemma LateRunGoesWrong(env: Env, m: Memory, last: Rect, us: seq<Update>, pics: Q.Pictures, d0: Q.DisplayState)
      returns (hs: seq<Happening>)
    requires ValidUpdates(env, m, us) && Schedules.Fresh(d0, 0) && d0.loaded == map[]
    requires !(forall u :: u in us ==> Drawing.NoneLate(u.rects))
    ensures PlaysOut(env, m, last, us, [COPY], pics, Announcing(), d0, hs)
    ensures GoneWrong(Play(env, m, last, pics, Announcing(), d0, hs))
  {
    var tail := AppendCopy(env, m, us);
    hs := LateRun(env, m, last, us, pics, d0, tail);
    Associates(EncodeUpdates(env, m, us), [0, 0], tail);
    RunPlaysOut(env, m, last, us, pics, d0, hs);
  }

  /** The condition is exact for client and display together: whatever else is sent behind the updates, however the
      bytes are cut, whatever the browser loads and whenever, the display has at every time executed what the client
      called for, exactly if in none of the updates an RRE rectangle or a raw Hextile tile comes after an image. */
  lemma ExactlyInRuns(env: Env, m: Memory, last: Rect, us: seq<Update>, pics: Q.Pictures, d0: Q.DisplayState)
    requires ValidUpdates(env, m, us) && Schedules.Fresh(d0, 0) && d0.loaded == map[]
    ensures (forall vs, fronts, hs :: PlaysOut(env, m, last, us, vs, pics, fronts, d0, hs) ==>
              !GoneWrong(Play(env, m, last, pics, fronts, d0, hs)))
            <==> forall u :: u in us ==> Drawing.NoneLate(u.rects)
  {
    if forall u :: u in us ==> Drawing.NoneLate(u.rects) {
      forall vs, fronts, hs | PlaysOut(env, m, last, us, vs, pics, fronts, d0, hs)
        ensures !GoneWrong(Play(env, m, last, pics, fronts, d0, hs))
      {
        AlwaysAsMade(env, m, last, us + vs, pics, fronts, d0, hs);
      }
    } else {
      var hs := LateRunGoesWrong(env, m, last, us, pics, d0);
    }
  }
}
