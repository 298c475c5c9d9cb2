/**
 The RFB client as an object, `html/static/js/core/rfb.js`: the receive queue, the decoders and the fields of the
 current update, driven by messages and by the display.
 */
module RfbClient {
  import opened Bytes
  import opened Decoding
  import opened Rfb
  import opened Streaming
  import opened Wrappers
  import H = Hextile
  import R = Rre
  import T = Tight
  import TD = TightDecoding
  import W = Websock

  class RFB {
    const env: Env
    const sock: W.Websock
    const display: DisplayPort
    const rre: R.RREDecoder
    const hextile: H.HextileDecoder
    const tight: TD.TightDecoder
    var rects: nat
    var rect: Rect
    var encoding: Option<int>
    var flushing: bool
    var failed: bool

    /** The buffers of the decoders and of the receive queue are different. */
    ghost predicate Apart()
      reads this, sock, tight
    {
      && tight.Apart(sock) && sock.rQ != hextile.tileBuffer
      && hextile.tileBuffer != tight.palette && hextile.tileBuffer != tight.scratch
    }

    ghost predicate Sound()
      reads this, sock, tight, hextile
    {
      sock.Valid() && hextile.Valid() && tight.Valid() && tight.inf == env.inf && Apart()
    }

    ghost function Fields(): Rfb.State
      reads this, sock, tight, hextile, rre, tight.palette
      requires Sound()
    {
      Rfb.State(FBU(rects, rect, encoding), rre.subrects, hextile.State(), tight.State())
    }

    ghost predicate Valid()
      reads this, sock, tight, hextile, rre, tight.palette
    {
      Sound() && Consistent(Fields())
    }

    constructor (env: Env, size: nat)
      requires size <= W.MAX_RQ_GROW_SIZE
      ensures Valid() && this.env == env
      ensures fresh(sock) && fresh(sock.rQ) && fresh(display) && fresh(rre) && fresh(hextile)
              && fresh(hextile.tileBuffer)
      ensures fresh(tight) && fresh(tight.palette) && fresh(tight.scratch)
      ensures rects == 0 && encoding == None && !flushing && !failed && sock.Unread() == [] && display.calls == []
    {
      this.env := env;
      sock := new W.Websock(size);
      display := new DisplayPort();
      rre := new R.RREDecoder();
      hextile := new H.HextileDecoder();
      tight := new TD.TightDecoder(env.inf);
      rects, rect, encoding := 0, Rect(0, 0, 0, 0), None;
      flushing, failed := false, false;
    }

    /** `_handleRect`. */
    method HandleRectangle() returns (v: Verdict)
      requires Valid() && encoding.Some?
      modifies `rects, sock`rQi, sock.rQ, display`calls, rre, hextile, hextile.tileBuffer, tight, tight.palette,
               tight.scratch
      ensures Sound() && (tight.scratch == old(tight.scratch) || fresh(tight.scratch))
      ensures var o := HandleRect(env, old(Fields()), old(sock.Unread()));
              && v == o.verdict && display.calls == old(display.calls) + o.calls
              && (!v.Fail? ==> Fields() == o.state && sock.Unread() == o.rest)
    {
      if encoding.value == LAST_RECT {
        rects := 1;  // this one is the last
        return Done;
      } else if encoding.value == COPY_RECT {
        v := CopyRectangle();
      } else if encoding.value == RRE {
        var done := rre.DecodeRect(rect, sock, display);
        v := if done then Done else Wait;
      } else if encoding.value == HEXTILE {
        v := hextile.DecodeRect(rect, sock, display);
      } else if encoding.value == TIGHT {
        v := tight.DecodeRect(rect, sock, display);
      } else {
        v := Fail;
      }
    }

    /** `decodeRect` of the copy-rectangle decoder. */
    method CopyRectangle() returns (v: Verdict)
      requires Valid()
      modifies sock`rQi, display`calls
      ensures Sound()
      ensures var o := CopyRect(Fields(), old(sock.Unread()));
              v == o.verdict && display.calls == old(display.calls) + o.calls && Fields() == o.state
                && sock.Unread() == o.rest
    {
      ghost var q := sock.Unread();
      var wait := sock.Lacks(4);
      if wait {
        return Wait;
      }
      var deltaX := sock.Shift16();
      var deltaY := sock.Shift16();
      assert q[2..][..2] == q[2..4] && q[2..][2..] == q[4..] && q[..2] == q[0..2];
      if rect.w == 0 || rect.h == 0 {
        return Done;
      }
      display.Issue(CopyImage(deltaX, deltaY, rect.x, rect.y, rect.w, rect.h));
      return Done;
    }

    // ---- Messages -----------------------------------------------------------------------------------

    /** The header of an update, whose message type was just read: handed back while the rest is missing. */
    method ReadUpdateHeader(ghost q: seq<Byte>) returns (ok: bool)
      requires Valid() && rects == 0 && sock.rQi >= 1 && q == [sock.rQ[sock.rQi - 1]] + sock.Unread() && q[0] == 0
      modifies sock`rQi, `rects
      ensures Valid() && display.calls == old(display.calls)
      ensures var o := MessageHeader(env, old(Fields()), q);
              && ok == o.verdict.Done? && !o.verdict.Fail? && Fields() == o.state && sock.Unread() == o.rest
    {
      ghost var at := sock.rQi;
      var w := sock.RQwait(3, 1);
      if w.NeedMore? {
        assert sock.rQ[at - 1..at] == [sock.rQ[at - 1]];
        return false;
      }
      sock.SkipBytes(1);  // of no meaning
      rects := sock.Shift16();
      assert q[1..][1..] == q[2..] && q[2..][..2] == q[2..4] && q[2..][2..] == q[4..];
      return true;
    }

    method ReadRectHeader() returns (ok: bool)
      requires Valid() && rects > 0 && encoding.None?
      modifies sock`rQi, `rect, `encoding
      ensures Valid() && display.calls == old(display.calls)
      ensures var o := RectHeader(old(Fields()), old(sock.Unread()));
              && ok == o.verdict.Done? && !o.verdict.Fail? && Fields() == o.state && sock.Unread() == o.rest
    {
      ghost var q := sock.Unread();
      var wait := sock.Lacks(12);
      if wait {
        return false;
      }
      var bytes := sock.ShiftBytes(12);
      var hdr := bytes.Seen();
      assert hdr[0..2] == q[0..2] && hdr[2..4] == q[2..4] && hdr[4..6] == q[4..6] && hdr[6..8] == q[6..8]
        && hdr[8..12] == q[8..12];
      rect := Rect(U16(hdr[0..2]), U16(hdr[2..4]), U16(hdr[4..6]), U16(hdr[6..8]));
      encoding := Some(S32(hdr[8..12]));
      return true;
    }

    /** The run `all` is over: it made these calls, and unless it failed this is where it ended. */
    ghost predicate Settled(all: Run<Client>)
      reads this, sock, sock.rQ, display, rre, hextile, tight, tight.palette
    {
      && all.outcome.calls == display.calls && all.held == flushing && (all.outcome.verdict.Fail? <==> failed)
      && (if failed then Sound() else Valid() && Fields() == all.outcome.state && sock.Unread() == all.outcome.rest)
    }

    /** The run `all` goes on from here, once the calls `due` have been made. */
    ghost predicate Going(u: Machine<Client>, patience: Option<nat>, due: seq<Call>, all: Run<Client>)
      requires u.Valid()
      reads this, sock, sock.rQ, display, rre, hextile, tight, tight.palette
    {
      Valid() && !flushing && !failed && Ahead(u, Fields(), sock.Unread(), patience, display.calls + due, all)
    }

    /** A rectangle of the loop in `_framebufferUpdate`; false when it cannot be finished yet. */
    method OneRect(patience: Option<nat>, ghost u: Machine<Client>, ghost all: Run<Client>) returns (ok: bool)
      requires Runs(u, env) && Going(u, patience, [], all) && rects > 0 && encoding.Some?
      modifies this, sock`rQi, sock.rQ, display`calls, rre, hextile, hextile.tileBuffer, tight, tight.palette,
               tight.scratch
      ensures tight.scratch == old(tight.scratch) || fresh(tight.scratch)
      ensures ok ==> Going(u, patience, FinishIf(env, rects == 0), all) && encoding.None?
      ensures ok ==> |sock.Unread()| <= old(|sock.Unread()|) && rects < old(rects)
      ensures !ok ==> Settled(all)
    {
      ghost var c, q, before := Fields(), sock.Unread(), display.calls;
      assert before + [] == before;
      var v := HandleRectangle();
      if v.Done? {
        RectGoesOn(u, env, c, q, patience, before, all);
        EndRectangle(patience, u, all);
      } else {
        RectStops(u, env, c, q, patience, before, all);
        StopRectangle(v, all);
      }
      ok := v.Done?;
    }

    method EndRectangle(patience: Option<nat>, ghost u: Machine<Client>, ghost all: Run<Client>)
      requires Sound() && rects > 0 && Fields().hex.tiles == 0 && !flushing && !failed && u.Valid()
      requires Ahead(u, NextRect(Fields()), sock.Unread(), patience, display.calls + FinishIf(env, rects == 1), all)
      modifies `rects, `encoding
      ensures Going(u, patience, FinishIf(env, rects == 0), all) && encoding.None? && rects == old(rects) - 1
    {
      rects := rects - 1;
      encoding := None;
    }

    method StopRectangle(v: Verdict, ghost all: Run<Client>)
      requires Sound() && !v.Done? && !flushing && all.outcome.verdict == v && !all.held
      requires all.outcome.calls == display.calls
      requires v.Wait? ==> Fields() == all.outcome.state && sock.Unread() == all.outcome.rest
      modifies `failed
      ensures Settled(all)
    {
      failed := v.Fail?;
    }

    /** The loop of `_framebufferUpdate`. */
    method AllRects(patience: Option<nat>, ghost u: Machine<Client>, ghost all: Run<Client>) returns (ok: bool)
      requires Runs(u, env) && Going(u, patience, FinishIf(env, rects == 0), all) && (rects == 0 ==> encoding.None?)
      modifies this, sock`rQi, sock.rQ, display`calls, rre, hextile, hextile.tileBuffer, tight, tight.palette,
               tight.scratch
      ensures tight.scratch == old(tight.scratch) || fresh(tight.scratch)
      ensures ok ==> Going(u, patience, Finish(env), all) && rects == 0 && encoding.None?
      ensures ok ==> |sock.Unread()| <= old(|sock.Unread()|)
      ensures !ok ==> Settled(all)
    {
      while rects > 0
        invariant tight.scratch == old(tight.scratch) || fresh(tight.scratch)
        invariant Going(u, patience, FinishIf(env, rects == 0), all) && (rects == 0 ==> encoding.None?)
        invariant |sock.Unread()| <= old(|sock.Unread()|)
        decreases rects
      {
        ok := HeadAndRect(patience, u, all);
        if !ok {
          return false;
        }
      }
      return true;
    }

    /** Its body. */
    method HeadAndRect(patience: Option<nat>, ghost u: Machine<Client>, ghost all: Run<Client>) returns (ok: bool)
      requires Runs(u, env) && Going(u, patience, [], all) && rects > 0
      modifies this, sock`rQi, sock.rQ, display`calls, rre, hextile, hextile.tileBuffer, tight, tight.palette,
               tight.scratch
      ensures tight.scratch == old(tight.scratch) || fresh(tight.scratch)
      ensures ok ==> Going(u, patience, FinishIf(env, rects == 0), all) && encoding.None?
      ensures ok ==> |sock.Unread()| <= old(|sock.Unread()|) && rects < old(rects)
      ensures !ok ==> Settled(all)
    {
      if encoding.None? {
        ok := RectHeading(patience, u, all);
        if !ok {
          return false;
        }
      }
      ok := OneRect(patience, u, all);
    }

    /** The header of a rectangle, in that loop. */
    method RectHeading(patience: Option<nat>, ghost u: Machine<Client>, ghost all: Run<Client>) returns (ok: bool)
      requires Runs(u, env) && Going(u, patience, [], all) && rects > 0 && encoding.None?
      modifies sock`rQi, `rect, `encoding
      ensures ok ==> Going(u, patience, [], all) && encoding.Some?
      ensures ok ==> |sock.Unread()| <= old(|sock.Unread()|)
      ensures !ok ==> Settled(all)
    {
      ghost var c, q, before := Fields(), sock.Unread(), display.calls;
      ghost var o := RectHeader(c, q);
      assert u.step(c, q) == o && before + [] == before;
      ok := ReadRectHeader();
      if ok {
        AheadOn(u, c, q, patience, before, all, o);
      } else {
        AheadStops(u, c, q, patience, before, all, o);
      }
    }

    /** The header of an update; after it the client may be held up until the display has caught up. */
    method UpdateHeading(patience: Option<nat>, ghost u: Machine<Client>, ghost all: Run<Client>, ghost q: seq<Byte>)
        returns (ok: bool, left: Option<nat>)
      requires Runs(u, env) && Valid() && !flushing && !failed && rects == 0
      requires sock.rQi >= 1 && q == [sock.rQ[sock.rQi - 1]] + sock.Unread() && q[0] == 0
      requires Ahead(u, Fields(), q, patience, display.calls, all)
      modifies sock`rQi, `rects, `flushing
      ensures ok ==> Going(u, left, FinishIf(env, rects == 0), all) && encoding.None?
      ensures ok ==> |sock.Unread()| < |q|
      ensures !ok ==> Settled(all)
    {
      ghost var c, before := Fields(), display.calls;
      ghost var o := MessageHeader(env, c, q);
      assert u.step(c, q) == o && u.header(c);
      ok := ReadUpdateHeader(q);
      left := patience;
      if !ok {
        AheadStops(u, c, q, patience, before, all, o);
      } else if patience == Some(0) {
        AheadHeld(u, c, q, before, all, o);
        flushing := true;
        ok := false;
      } else {
        AheadOn(u, c, q, patience, before, all, o);
        left := Patience(true, patience);
      }
    }

    /** The message type and what follows it, unless an update is being read; any other message is outside the model. */
    method ReadMessage(patience: Option<nat>, ghost u: Machine<Client>, ghost all: Run<Client>)
        returns (ok: bool, left: Option<nat>)
      requires Runs(u, env) && Going(u, patience, [], all) && sock.Unread() != [] && rects == 0
      modifies sock`rQi, `rects, `flushing, `failed
      ensures ok ==> Going(u, left, FinishIf(env, rects == 0), all) && encoding.None?
      ensures ok ==> |sock.Unread()| < old(|sock.Unread()|)
      ensures !ok ==> Settled(all)
    {
      ghost var c, q, before := Fields(), sock.Unread(), display.calls;
      assert before + [] == before;
      var msgType := sock.Shift8();
      if msgType == 0 {
        assert q == [sock.rQ[sock.rQi - 1]] + sock.Unread();
        ok, left := UpdateHeading(patience, u, all, q);
      } else {
        assert u.step(c, q) == Outcome(c, q, [], Fail);
        AheadStops(u, c, q, patience, before, all, Outcome(c, q, [], Fail));
        failed := true;
        ok, left := false, patience;
      }
    }

    /** `_normalMsg` with `_framebufferUpdate`. */
    method NormalMsg(patience: Option<nat>, ghost u: Machine<Client>, ghost all: Run<Client>)
        returns (ok: bool, left: Option<nat>)
      requires Runs(u, env) && Going(u, patience, [], all) && sock.Unread() != []
      modifies this, sock`rQi, sock.rQ, display`calls, rre, hextile, hextile.tileBuffer, tight, tight.palette,
               tight.scratch
      ensures tight.scratch == old(tight.scratch) || fresh(tight.scratch)
      ensures ok ==> Going(u, left, [], all) && rects == 0 && encoding.None?
      ensures ok ==> |sock.Unread()| <= old(|sock.Unread()|)
      ensures ok ==> (old(rects) == 0 ==> |sock.Unread()| < old(|sock.Unread()|))
      ensures !ok ==> Settled(all)
    {
      left := patience;
      if rects == 0 {
        ok, left := ReadMessage(patience, u, all);
        if !ok {
          return false, left;
        }
      }
      ok := AllRects(left, u, all);
      if ok {
        EndUpdate(left, u, all);
      }
    }

    /** The flip at the end of an update, and the request for the next. */
    method EndUpdate(left: Option<nat>, ghost u: Machine<Client>, ghost all: Run<Client>)
      requires Runs(u, env) && Going(u, left, Finish(env), all)
      modifies display`calls
      ensures Going(u, left, [], all)
    {
      ghost var before := display.calls;
      display.Issue(Flip);
      if !env.continuous {
        display.Issue(UpdateRequest);
      }
      assert display.calls + [] == before + Finish(env);
    }

    /** `_handleMessage`, with the display found busy after `patience` headers. */
    method HandleMessage(patience: Option<nat>, ghost u: Machine<Client>)
      requires Runs(u, env) && Valid() && !flushing && !failed && sock.Unread() != []
      modifies this, sock`rQi, sock.rQ, display`calls, rre, hextile, hextile.tileBuffer, tight, tight.palette,
               tight.scratch
      ensures tight.scratch == old(tight.scratch) || fresh(tight.scratch)
      ensures Settled(RunUntil(u, old(Fields()), old(sock.Unread()), patience).After(old(display.calls)))
    {
      ghost var all := RunUntil(u, Fields(), sock.Unread(), patience).After(display.calls);
      assert display.calls + [] == display.calls;
      var ok, left := true, patience;
      while true
        invariant ok && (tight.scratch == old(tight.scratch) || fresh(tight.scratch))
        invariant Going(u, left, [], all) && sock.Unread() != []
        decreases 2 * |sock.Unread()| + if rects > 0 then 1 else 0
      {
        ok, left := NormalMsg(left, u, all);
        if !ok {
          break;
        }
        if sock.Available() == 0 {
          ghost var c := Fields();
          assert u.step(c, []) == Outcome(c, [], [], Wait) && display.calls + [] == display.calls;
          AheadStops(u, c, [], left, display.calls, all, Outcome(c, [], [], Wait));
          break;
        }
      }
    }

    // ---- The connection -----------------------------------------------------------------------------

    /** The object is in the state of the connection `k`; after a failure only the calls matter. */
    ghost predicate Like(k: Conn<Client>)
      reads this, sock, sock.rQ, display, rre, hextile, tight, tight.palette
    {
      && Sound() && display.calls == k.calls && flushing == k.flushing && failed == k.failed
      && (!failed ==> Valid() && Fields() == k.client && sock.Unread() == k.unread)
    }

    /** `_handleMessage` as it is called, with or without bytes to process. */
    method Process(patience: Option<nat>, ghost u: Machine<Client>, ghost k: Conn<Client>)
      requires Runs(u, env) && Like(k)
      modifies this, sock`rQi, sock.rQ, display`calls, rre, hextile, hextile.tileBuffer, tight, tight.palette,
               tight.scratch
      ensures tight.scratch == old(tight.scratch) || fresh(tight.scratch)
      ensures Like(Streaming.Process(u, k, patience))
    {
      if failed || flushing || sock.Available() == 0 {
        return;
      }
      HandleMessage(patience, u);
    }

    /** A message from the socket, `_recvMessage` of the receive queue; false when the queue is full. */
    method RecvMessage(data: seq<Byte>, patience: Option<nat>, ghost u: Machine<Client>, ghost k: Conn<Client>)
        returns (ok: bool)
      requires Runs(u, env) && Like(k)
      modifies this, sock, sock.rQ, display`calls, rre, hextile, hextile.tileBuffer, tight, tight.palette, tight.scratch
      ensures ok <==> old(|sock.Unread()|) + |data| <= W.MAX_RQ_GROW_SIZE
      ensures ok ==> Like(Handle(u, k, Recv(data, patience)))
    {
      ok := Enqueue(data, k);
      if !ok {
        return false;
      }
      ghost var k' := k.(unread := k.unread + data);
      Process(patience, u, k');
      sock.ResetIfDrained();
    }

    method Enqueue(data: seq<Byte>, ghost k: Conn<Client>) returns (ok: bool)
      requires Like(k)
      modifies sock, sock.rQ
      ensures ok <==> old(|sock.Unread()|) + |data| <= W.MAX_RQ_GROW_SIZE
      ensures ok ==> Like(k.(unread := k.unread + data)) && (sock.rQ == old(sock.rQ) || fresh(sock.rQ))
    {
      ok := sock.DecodeMessage(data);
    }

    /** `_onFlush`: the display has caught up. */
    method OnFlush(patience: Option<nat>, ghost u: Machine<Client>, ghost k: Conn<Client>)
      requires Runs(u, env) && Like(k) && flushing
      modifies this, sock`rQi, sock.rQ, display`calls, rre, hextile, hextile.tileBuffer, tight, tight.palette,
               tight.scratch
      ensures tight.scratch == old(tight.scratch) || fresh(tight.scratch)
      ensures Like(Handle(u, k, Flushed(patience)))
    {
      flushing := false;
      Process(patience, u, k.(flushing := false));
    }
  }

  /** After a rectangle. */
  function NextRect(c: Client): Client
    requires c.fbu.rects > 0 && c.hex.tiles == 0
  {
    c.(fbu := c.fbu.(rects := c.fbu.rects - 1, encoding := None))
  }

  lemma RectGoesOn(u: Machine<Client>, env: Env, c: Client, q: seq<Byte>, patience: Option<nat>, before: seq<Call>,
                   all: Run<Client>)
    requires Runs(u, env) && c.fbu.encoding.Some? && Ahead(u, c, q, patience, before, all)
    requires HandleRect(env, c, q).verdict.Done?
    ensures var o := HandleRect(env, c, q);
            Ahead(u, NextRect(o.state), o.rest, patience, (before + o.calls) + FinishIf(env, o.state.fbu.rects == 1),
              all)
  {
    var o := HandleRect(env, c, q);
    AheadOn(u, c, q, patience, before, all, EndRect(env, o));
    var end := FinishIf(env, o.state.fbu.rects == 1);
    assert before + (o.calls + end) == (before + o.calls) + end;
  }

  lemma RectStops(u: Machine<Client>, env: Env, c: Client, q: seq<Byte>, patience: Option<nat>, before: seq<Call>,
                  all: Run<Client>)
    requires Runs(u, env) && c.fbu.encoding.Some? && Ahead(u, c, q, patience, before, all)
    requires !HandleRect(env, c, q).verdict.Done?
    ensures all == Run(HandleRect(env, c, q).After(before), false, [])
  {
    AheadStops(u, c, q, patience, before, all, HandleRect(env, c, q));
  }

  /** The machine takes the client's steps. */
  ghost predicate Runs(u: Machine<Client>, env: Env) {
    && u.Valid()
    && (forall c: Client, q: seq<Byte> :: u.step(c, q) == Step(env, c, q))
    && (forall c: Client :: u.header(c) <==> c.fbu.rects == 0)
  }

  lemma UpdatesRuns(env: Env)
    ensures Runs(Updates(env), env)
  {
    UpdatesIsValid(env);
  }
}
