/**
 The client's calls handed to the display, one by one, while the browser loads images and the receive buffer is
 written: which calls the display executes as they were made, whatever the browser does and whenever it does it.
 */
module Handover {
  import opened Bytes
  import opened Decoding
  import opened Wrappers
  import Q = RenderQueue
  import S = Screen

  /** What the display is asked to do.  Images are numbered by their place in the calls; images without pixels are
      dropped, requests go to the server, and a blit needs as many bytes as it has pixels. */
  function ActionOf(c: Call, n: nat): seq<Q.Action> {
    match c
    case FillRect(x, y, w, h, color, from) => [Q.FillAction(x, y, w, h, color, from.Received?)]
    case BlitImage(x, y, w, h, data, _) => if |data| == w * h * 4 then [Q.BlitAction(x, y, w, h, data)] else []
    case CopyImage(oldX, oldY, x, y, w, h) => [Q.CopyAction(oldX, oldY, x, y, w, h)]
    case ImageRect(x, y, w, h, _) => if w == 0 || h == 0 then [] else [Q.ImageAction(x, y, w, h, n)]
    case Flip => [Q.FlipAction]
    case UpdateRequest => []
  }

  function ActionsOf(calls: seq<Call>): seq<Q.Action> {
    if calls == [] then []
    else
      var n := |calls| - 1;
      ActionsOf(calls[..n]) + ActionOf(calls[n], n)
  }

  /** Handing over the n-th call; `front` is what stands before the data of a blit from the receive buffer. */
  function EventOf(c: Call, n: nat, front: seq<Byte>): Option<Q.Event> {
    match c
    case BlitImage(x, y, w, h, data, from) =>
      if |data| != w * h * 4 then None
      else Some(if from.Own? then Q.BlitCall(x, y, w, h, data, 0) else Q.BlitCall(x, y, w, h, front + data, |front|))
    case _ => if ActionOf(c, n) == [] then None else Some(Q.Call(ActionOf(c, n)[0]))
  }

  /** What can stand before the data of a raw tile: at least the byte that announces it, which has its lowest bit set
      and is 30 at most. */
  predicate Announces(front: seq<Byte>) {
    front != [] && front[|front| - 1] % 2 == 1 && front[|front| - 1] <= 30
  }

  function Give(pics: Q.Pictures, d: Q.DisplayState, c: Call, n: nat, front: seq<Byte>): Q.DisplayState {
    var e := EventOf(c, n, front);
    if e.Some? then Q.Handle(pics, d, e.value) else d
  }

  // ---- Which calls are safe -------------------------------------------------------------------------

  /** The end of an update. */
  predicate Ends(c: Call) {
    c.Flip? || c.UpdateRequest?
  }

  predicate Image(c: Call) {
    c.ImageRect? && c.w != 0 && c.h != 0
  }

  /** A call whose bytes are in the receive buffer. */
  predicate Exposed(c: Call) {
    (c.FillRect? && c.from.Received?) || (c.BlitImage? && c.from.Received? && c.data != [] && |c.data| == c.w * c.h * 4)
  }

  predicate Ended(calls: seq<Call>) {
    calls == [] || Ends(calls[|calls| - 1])
  }

  /** There was an image in this update. */
  predicate ImageSince(calls: seq<Call>) {
    !Ended(calls) && (Image(calls[|calls| - 1]) || ImageSince(calls[..|calls| - 1]))
  }

  /** In no update does a call with bytes in the receive buffer come after an image. */
  predicate Safe(calls: seq<Call>) {
    calls == [] ||
    (Safe(calls[..|calls| - 1]) && !(Exposed(calls[|calls| - 1]) && ImageSince(calls[..|calls| - 1])))
  }

  lemma OneMoreCall(calls: seq<Call>, c: Call)
    ensures ActionsOf(calls + [c]) == ActionsOf(calls) + ActionOf(c, |calls|)
    ensures Safe(calls + [c]) <==> Safe(calls) && !(Exposed(c) && ImageSince(calls))
    ensures Ended(calls + [c]) <==> Ends(c)
    ensures ImageSince(calls + [c]) <==> !Ends(c) && (Image(c) || ImageSince(calls))
  {
    assert (calls + [c])[..|calls|] == calls;
  }

  // ---- What handing over keeps ----------------------------------------------------------------------

  ghost predicate NoViews(q: seq<Q.Action>) {
    forall a :: a in q && a.FillAction? ==> !a.view
  }

  /** The display after the calls `made`, from a screen `s` on: it was asked for what they ask for; something waits
      only after an image in the update, and safe calls are executed or waiting as they were made. */
  ghost predicate Handed(pics: Q.Pictures, s: S.Screen, made: seq<Call>, d: Q.DisplayState) {
    && Q.Inv(d) && d.issued == ActionsOf(made) && Q.Alike(d.applied + d.queue, d.issued)
    && d.screen == Q.ApplyAll(pics, s, d.applied)
    && (d.queue != [] && !Ended(made) ==> ImageSince(made))
    && (d.queue != [] ==> made != [])
    && (Safe(made) ==> Q.Intact(d) && NoViews(d.queue))
  }

  /** The client begins an update only when nothing waits. */
  predicate Polite(made: seq<Call>, c: Call, d: Q.DisplayState) {
    Ended(made) && !c.UpdateRequest? ==> d.queue == []
  }

  /** What may happen between calls. */
  predicate Meantime(e: Q.Event) {
    e.Load? || e.Spoil? || e.Overwrite? || e.Flush?
  }

  lemma {:induction false} ScanLeaves(pics: Q.Pictures, d: Q.DisplayState)
    ensures var q := Q.Scan(pics, d).queue; |q| <= |d.queue| && q == d.queue[|d.queue| - |q|..]
    decreases |d.queue|
  {
    if d.queue != [] && Q.Ready(d, d.queue[0]) {
      var d' := Q.Execute(pics, d, d.queue[0]).(queue := d.queue[1..]);
      ScanLeaves(pics, d');
      var q := Q.Scan(pics, d').queue;
      assert d.queue[1..][|d.queue| - 1 - |q|..] == d.queue[|d.queue| - |q|..];
    }
  }

  lemma ScanKeepsNoViews(pics: Q.Pictures, d: Q.DisplayState)
    requires NoViews(d.queue)
    ensures NoViews(Q.Scan(pics, d).queue)
  {
    ScanLeaves(pics, d);
  }

  lemma IssueKeepsNoViews(pics: Q.Pictures, d: Q.DisplayState, a: Q.Action, queued: Q.Action)
    requires NoViews(d.queue) && (d.queue != [] || a.ImageAction? ==> NoViews([queued]))
    ensures NoViews(Q.Issue(pics, d, a, queued).queue)
  {
    if d.queue != [] || a.ImageAction? {
      assert queued in [queued];
      ScanKeepsNoViews(pics, d.(issued := d.issued + [a], queue := d.queue + [queued]));
    }
  }

  lemma CallKeepsNoViews(pics: Q.Pictures, d: Q.DisplayState, e: Q.Event)
    requires NoViews(d.queue) && (e.Call? || e.BlitCall?) && Q.Possible(d, e)
    requires e.Call? && e.a.FillAction? && e.a.view ==> d.queue == []
    ensures NoViews(Q.Handle(pics, d, e).queue)
  {
    match e
    case Call(a) => IssueKeepsNoViews(pics, d, a, a);
    case BlitCall(x, y, w, h, buffer, offset) =>
      IssueKeepsNoViews(pics, d, Q.BlitAction(x, y, w, h, buffer[offset..offset + w * h * 4]),
        Q.BlitAction(x, y, w, h, buffer[..w * h * 4]));
  }

  lemma OverwriteKeepsNoViews(d: Q.DisplayState, colors: nat -> seq<Byte>)
    requires NoViews(d.queue)
    ensures Q.Overwritten(d.queue, colors) == d.queue
  {
    var q := Q.Overwritten(d.queue, colors);
    forall i | 0 <= i < |q|
      ensures q[i] == d.queue[i]
    {
      assert d.queue[i] in d.queue && q[i] == Q.Recolored(d.queue[i], colors(i));
    }
  }

  /** Handing over a call to an idle display: it is executed at once, except for an image. */
  lemma GiveToIdle(pics: Q.Pictures, d: Q.DisplayState, c: Call, n: nat, front: seq<Byte>)
    requires d.queue == [] && !Image(c)
    ensures Give(pics, d, c, n, front).queue == []
  {
  }

  lemma GiveIssues(pics: Q.Pictures, d: Q.DisplayState, c: Call, n: nat, front: seq<Byte>)
    requires Q.Inv(d) && Q.Alike(d.applied + d.queue, d.issued)
    ensures var d' := Give(pics, d, c, n, front);
            && Q.Inv(d') && Q.Alike(d'.applied + d'.queue, d'.issued) && d'.issued == d.issued + ActionOf(c, n)
            && (Q.Intact(d) && (Exposed(c) ==> d.queue == []) ==> Q.Intact(d'))
  {
    var e := EventOf(c, n, front);
    if e.Some? {
      Q.HandleKeeps(pics, d, e.value);
      HandleIssues(pics, d, c, n, front);
      if e.value.BlitCall? && (Exposed(c) ==> d.queue == []) {
        BlitIsHonest(d, c, n, front);
      }
    } else {
      assert d.issued + [] == d.issued;
    }
  }

  lemma HandleIssues(pics: Q.Pictures, d: Q.DisplayState, c: Call, n: nat, front: seq<Byte>)
    requires Q.Inv(d) && EventOf(c, n, front).Some?
    ensures Give(pics, d, c, n, front).issued == d.issued + ActionOf(c, n)
  {
    match c
    case BlitImage(x, y, w, h, data, from) =>
      var buffer, offset := if from.Own? then data else front + data, if from.Own? then 0 else |front|;
      assert buffer[offset..offset + w * h * 4] == data;
      Q.IssueKeeps(pics, d, Q.BlitAction(x, y, w, h, data), Q.BlitAction(x, y, w, h, buffer[..w * h * 4]));
    case UpdateRequest =>
    case _ =>
      var a := ActionOf(c, n)[0];
      Q.IssueKeeps(pics, d, a, a);
  }

  lemma BlitIsHonest(d: Q.DisplayState, c: Call, n: nat, front: seq<Byte>)
    requires c.BlitImage? && EventOf(c, n, front).Some? && (Exposed(c) ==> d.queue == [])
    ensures Q.Honest(d, EventOf(c, n, front).value)
  {
    if c.data == [] {
      assert c.w * c.h * 4 == 0;
    }
  }

  lemma GiveKeepsNoViews(pics: Q.Pictures, d: Q.DisplayState, c: Call, n: nat, front: seq<Byte>)
    requires NoViews(d.queue) && (Exposed(c) ==> d.queue == [])
    ensures NoViews(Give(pics, d, c, n, front).queue)
  {
    var e := EventOf(c, n, front);
    if e.Some? {
      CallKeepsNoViews(pics, d, e.value);
    }
  }

  lemma GiveKeeps(pics: Q.Pictures, s: S.Screen, made: seq<Call>, d: Q.DisplayState, c: Call, front: seq<Byte>)
    requires Handed(pics, s, made, d) && Polite(made, c, d)
    ensures Handed(pics, s, made + [c], Give(pics, d, c, |made|, front))
  {
    OneMoreCall(made, c);
    GiveIssues(pics, d, c, |made|, front);
    var e := EventOf(c, |made|, front);
    if e.Some? {
      Q.HandleApplies(pics, s, d, e.value);
    }
    if !Image(c) && d.queue == [] {
      GiveToIdle(pics, d, c, |made|, front);
    }
    if Safe(made + [c]) {
      GiveKeepsNoViews(pics, d, c, |made|, front);
    }
  }

  lemma MeantimeKeeps(pics: Q.Pictures, s: S.Screen, made: seq<Call>, d: Q.DisplayState, e: Q.Event)
    requires Handed(pics, s, made, d) && Meantime(e) && Q.Possible(d, e)
    ensures Handed(pics, s, made, Q.Handle(pics, d, e))
    ensures d.queue == [] ==> Q.Handle(pics, d, e).queue == []
  {
    Q.HandleKeeps(pics, d, e);
    Q.HandleApplies(pics, s, d, e);
    MeantimeIssuesNothing(pics, d, e);
    if Safe(made) {
      if e.Overwrite? {
        OverwriteKeepsNoViews(d, e.colors);
      } else if e.Load? {
        ScanKeepsNoViews(pics, d.(loaded := d.loaded[e.img := (e.w, e.h)], armed := d.armed - {e.img}));
      }
    }
  }

  lemma MeantimeIssuesNothing(pics: Q.Pictures, d: Q.DisplayState, e: Q.Event)
    requires Q.Inv(d) && Meantime(e) && Q.Possible(d, e)
    ensures Q.Handle(pics, d, e).issued == d.issued
    ensures d.queue == [] ==> Q.Handle(pics, d, e).queue == []
  {
    if e.Load? {
      ScanLeaves(pics, d.(loaded := d.loaded[e.img := (e.w, e.h)], armed := d.armed - {e.img}));
      Q.ScanKeeps(pics, d.(loaded := d.loaded[e.img := (e.w, e.h)], armed := d.armed - {e.img}));
    }
  }
}
