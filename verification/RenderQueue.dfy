/**
 The display of `html/static/js/core/display.js` as the client uses it.  Drawing calls are executed at once while
 the render queue is empty; an image has to be loaded first, and until it is, it and all later calls wait in the
 queue.  `issued` and `applied` are history: the calls made, and those executed.
 */
module RenderQueue {
  import opened Bytes
  import opened Screen

  /** `view`: the colour is not a copy but a view of the receive buffer, and shows what is there at any time. */
  datatype Action =
    | FlipAction
    | CopyAction(oldX: int, oldY: int, x: int, y: int, w: nat, h: nat)
    | FillAction(x: int, y: int, w: nat, h: nat, color: seq<Byte>, view: bool)
    | BlitAction(x: int, y: int, w: nat, h: nat, data: seq<Byte>)
    | ImageAction(x: int, y: int, w: nat, h: nat, img: nat)

  /** What the browser decodes for an image, by its number. */
  type Pictures = nat -> ((int, int) -> Pixel)

  datatype DisplayState = DisplayState(
    screen: Screen, queue: seq<Action>,
    loaded: map<nat, (nat, nat)>, armed: set<nat>, flushing: bool, flushes: nat,
    applied: seq<Action>, issued: seq<Action>)

  function PixelOf(data: seq<Byte>, w: nat, x: int, y: int): Pixel {
    var at := 4 * (y * w + x);
    if 0 <= at && at + 4 <= |data| then data[at..at + 4] else CLEAR
  }

  function Solid(color: seq<Byte>): Pixel {
    if |color| >= 3 then color[..3] + [255] else CLEAR
  }

  function FillPaint(color: seq<Byte>): (int, int) -> Pixel {
    (px, py) => Solid(color)
  }

  function BlitPaint(data: seq<Byte>, w: nat, x: int, y: int): (int, int) -> Pixel {
    (px, py) => PixelOf(data, w, px - x, py - y)
  }

  function ImagePaint(pics: Pictures, img: nat, x: int, y: int): (int, int) -> Pixel {
    (px, py) => pics(img)(px - x, py - y)
  }

  /** Executing an action. */
  function Apply(pics: Pictures, s: Screen, a: Action): Screen {
    match a
    case FlipAction => Flipped(s)
    case CopyAction(oldX, oldY, x, y, w, h) => CopyWithin(s, oldX, oldY, x, y, w, h)
    case FillAction(x, y, w, h, color, _) => Draw(s, x, y, w, h, FillPaint(color))
    case BlitAction(x, y, w, h, data) => Draw(s, x, y, w, h, BlitPaint(data, w, x, y))
    case ImageAction(x, y, w, h, img) => Draw(s, x, y, w, h, ImagePaint(pics, img, x, y))
  }

  /** An image is ready when it is loaded with the size that was announced. */
  predicate Ready(d: DisplayState, a: Action) {
    a.ImageAction? ==> a.img in d.loaded && d.loaded[a.img] == (a.w, a.h)
  }

  function Execute(pics: Pictures, d: DisplayState, a: Action): DisplayState {
    d.(screen := Apply(pics, d.screen, a), applied := d.applied + [a])
  }

  /** `_scanRenderQ`: a missing image gets a listener; one of the wrong size stops the queue for good. */
  function Scan(pics: Pictures, d: DisplayState): DisplayState
    decreases |d.queue|
  {
    if d.queue == [] then
      if d.flushing then d.(flushing := false, flushes := d.flushes + 1) else d
    else
      var a := d.queue[0];
      if Ready(d, a) then Scan(pics, Execute(pics, d, a).(queue := d.queue[1..]))
      else if a.img in d.loaded then d
      else d.(armed := d.armed + {a.img})
  }

  /** `_renderQPush`. */
  function Push(pics: Pictures, d: DisplayState, a: Action): DisplayState {
    var d' := d.(queue := d.queue + [a]);
    if |d'.queue| == 1 then Scan(pics, d') else d'
  }

  /** A call: executed, or queued as `queued`. */
  function Issue(pics: Pictures, d: DisplayState, a: Action, queued: Action): DisplayState {
    var d' := d.(issued := d.issued + [a]);
    if d.queue != [] || a.ImageAction? then Push(pics, d', queued) else Execute(pics, d', a)
  }

  function Flip(pics: Pictures, d: DisplayState): DisplayState {
    Issue(pics, d, FlipAction, FlipAction)
  }

  /** `blitImage` from a buffer: queued, the offset is forgotten. */
  function Blit(pics: Pictures, d: DisplayState, x: int, y: int, w: nat, h: nat, buffer: seq<Byte>,
                offset: nat): DisplayState
    requires offset + w * h * 4 <= |buffer|
  {
    Issue(pics, d, BlitAction(x, y, w, h, buffer[offset..offset + w * h * 4]),
      BlitAction(x, y, w, h, buffer[..w * h * 4]))
  }

  /** The receive buffer is written: what is still in the queue with a view of it gets another colour. */
  function Overwritten(queue: seq<Action>, colors: nat -> seq<Byte>): (q: seq<Action>)
    ensures |q| == |queue|
  {
    seq(|queue|, i requires 0 <= i < |queue| => Recolored(queue[i], colors(i)))
  }

  function Recolored(a: Action, color: seq<Byte>): Action {
    if a.FillAction? && a.view then a.(color := color) else a
  }

  function ChangePos(pics: Pictures, d: DisplayState, deltaX: int, deltaY: int): DisplayState {
    if Moves(d.screen, deltaX, deltaY) then Flip(pics, d.(screen := Moved(d.screen, deltaX, deltaY))) else d
  }

  function ChangeSize(pics: Pictures, d: DisplayState, w: nat, h: nat): DisplayState {
    var (w', h') := SizeFor(d.screen, w, h);
    if d.screen.vp.w == w' && d.screen.vp.h == h' then d
    else
      var d' := ChangePos(pics, d.(screen := Sized(d.screen, w', h')), 0, 0);
      Flip(pics, d'.(screen := AllDamaged(d'.screen)))
  }

  function Adjust(pics: Pictures, d: DisplayState): DisplayState {
    ChangePos(pics, ChangeSize(pics, d, d.screen.vp.w, d.screen.vp.h), 0, 0)
  }

  datatype Event =
    | Call(a: Action)                                   // any but a blit
    | BlitCall(x: int, y: int, w: nat, h: nat, buffer: seq<Byte>, offset: nat)
    | MoveBy(deltaX: int, deltaY: int)
    | ResizeView(w: nat, h: nat)
    | ResizeFb(w: nat, h: nat)
    | Clip(on: bool)
    | Flush
    | Load(img: nat, w: nat, h: nat)                    // the image is there; its listener, if it has one, is called
    | Spoil(img: nat)                                   // the image is no image; no listener is called
    | Overwrite(colors: nat -> seq<Byte>)               // the receive buffer is written: colours by place in the queue

  ghost predicate Possible(d: DisplayState, e: Event) {
    match e
    case Call(a) => !a.BlitAction?
    case BlitCall(_, _, w, h, buffer, offset) => offset + w * h * 4 <= |buffer|
    case Load(img, _, _) => img !in d.loaded
    case Spoil(img) => img !in d.loaded
    case _ => true
  }

  function Handle(pics: Pictures, d: DisplayState, e: Event): DisplayState
    requires Possible(d, e)
  {
    match e
    case Call(a) => if a.ImageAction? && (a.w == 0 || a.h == 0) then d else Issue(pics, d, a, a)
    case BlitCall(x, y, w, h, buffer, offset) => Blit(pics, d, x, y, w, h, buffer, offset)
    case MoveBy(deltaX, deltaY) => ChangePos(pics, d, deltaX, deltaY)
    case ResizeView(w, h) => ChangeSize(pics, d, w, h)
    case ResizeFb(w, h) => Adjust(pics, d.(screen := WithFramebuffer(d.screen, w, h)))
    case Clip(on) => Adjust(pics, d.(screen := d.screen.(clip := on)))
    case Flush => if d.queue == [] then d.(flushes := d.flushes + 1) else d.(flushing := true)
    case Load(img, w, h) =>
      var d' := d.(loaded := d.loaded[img := (w, h)], armed := d.armed - {img});
      if img in d.armed then Scan(pics, d') else d'
    case Spoil(img) => d.(loaded := d.loaded[img := (0, 0)])
    case Overwrite(colors) => d.(queue := Overwritten(d.queue, colors))
  }

  ghost predicate AllPossible(pics: Pictures, d: DisplayState, events: seq<Event>)
    decreases |events|, 0
  {
    events == [] ||
    (AllPossible(pics, d, events[..|events| - 1])
     && Possible(HandleAll(pics, d, events[..|events| - 1]), events[|events| - 1]))
  }

  ghost function HandleAll(pics: Pictures, d: DisplayState, events: seq<Event>): DisplayState
    requires AllPossible(pics, d, events)
    decreases |events|, 1
  {
    if events == [] then d else Handle(pics, HandleAll(pics, d, events[..|events| - 1]), events[|events| - 1])
  }

  /** The client's canvas has no size; the browser's default for the backbuffer is 300 by 150. */
  function Initial(): DisplayState {
    DisplayState(Screen(0, 0, false, View(0, 0, 0, 0), Box(0, 0, 300, 150), Cleared(0, 0), Cleared(300, 150)),
            [], map[], {}, false, 0, [], [])
  }

  // ---- What every event keeps -----------------------------------------------------------------------

  /** The canvases agree outside the damage. */
  ghost predicate Sound(d: DisplayState) {
    Fits(d.screen) && Agrees(d.screen)
  }

  /** Whatever waits, waits for an image: one that will call back when it is loaded, or one that will never do. */
  ghost predicate Waiting(d: DisplayState) {
    d.queue != [] ==>
      && d.queue[0].ImageAction? && !Ready(d, d.queue[0])
      && (d.queue[0].img !in d.loaded ==> d.queue[0].img in d.armed)
  }

  /** Images in the queue are not empty. */
  ghost predicate NoEmptyImages(q: seq<Action>) {
    forall a :: a in q && a.ImageAction? ==> a.w > 0 && a.h > 0
  }

  /** What was executed was ready. */
  ghost predicate Shown(d: DisplayState) {
    forall a :: a in d.applied ==> Ready(d, a)
  }

  ghost predicate Orderly(d: DisplayState) {
    Waiting(d) && NoEmptyImages(d.queue) && Shown(d) && (d.flushing ==> d.queue != [])
  }

  ghost predicate Inv(d: DisplayState) {
    Sound(d) && Orderly(d)
  }

  lemma ApplyIsSound(pics: Pictures, s: Screen, a: Action)
    requires Fits(s) && Agrees(s)
    ensures Fits(Apply(pics, s, a)) && Agrees(Apply(pics, s, a))
  {
    match a
    case FlipAction => FlipShowsAll(s);
    case CopyAction(oldX, oldY, x, y, w, h) => CopyAgrees(s, oldX, oldY, x, y, w, h);
    case FillAction(x, y, w, h, color, _) => DrawAgrees(s, x, y, w, h, FillPaint(color));
    case BlitAction(x, y, w, h, data) => DrawAgrees(s, x, y, w, h, BlitPaint(data, w, x, y));
    case ImageAction(x, y, w, h, img) => DrawAgrees(s, x, y, w, h, ImagePaint(pics, img, x, y));
  }

  lemma {:induction false} ScanKeeps(pics: Pictures, d: DisplayState)
    requires Sound(d) && NoEmptyImages(d.queue) && Shown(d)
    ensures Inv(Scan(pics, d))
    ensures Scan(pics, d).applied + Scan(pics, d).queue == d.applied + d.queue && Scan(pics, d).issued == d.issued
    decreases |d.queue|
  {
    if d.queue != [] && Ready(d, d.queue[0]) {
      var a := d.queue[0];
      ApplyIsSound(pics, d.screen, a);
      var d' := Execute(pics, d, a).(queue := d.queue[1..]);
      assert d'.applied + d'.queue == d.applied + d.queue;
      ScanKeeps(pics, d');
    }
  }

  lemma PushKeeps(pics: Pictures, d: DisplayState, a: Action)
    requires Inv(d) && (d.queue == [] ==> a.ImageAction?) && (a.ImageAction? ==> a.w > 0 && a.h > 0)
    ensures Inv(Push(pics, d, a))
    ensures Push(pics, d, a).applied + Push(pics, d, a).queue == d.applied + d.queue + [a]
    ensures Push(pics, d, a).issued == d.issued
  {
    var d' := d.(queue := d.queue + [a]);
    assert d'.applied + d'.queue == d.applied + d.queue + [a];
    if |d'.queue| == 1 {
      ScanKeeps(pics, d');
    } else {
      assert d'.queue[0] == d.queue[0];
    }
  }

  lemma IssueKeeps(pics: Pictures, d: DisplayState, a: Action, queued: Action)
    requires Inv(d) && (a.ImageAction? <==> queued.ImageAction?)
             && (queued.ImageAction? ==> queued.w > 0 && queued.h > 0)
    ensures Inv(Issue(pics, d, a, queued))
    ensures Issue(pics, d, a, queued).issued == d.issued + [a]
    ensures var d' := Issue(pics, d, a, queued);
            d'.applied + d'.queue == d.applied + d.queue + [if d.queue != [] || a.ImageAction? then queued else a]
  {
    if d.queue != [] || a.ImageAction? {
      PushKeeps(pics, d.(issued := d.issued + [a]), queued);
    } else {
      ApplyIsSound(pics, d.screen, a);
    }
  }

  /** A flip is in order whenever the canvases agree; executed at once it shows the whole viewport. */
  lemma FlipKeeps(pics: Pictures, d: DisplayState)
    requires Inv(d)
    ensures Inv(Flip(pics, d)) && SameLog(d, Flip(pics, d), [FlipAction])
    ensures d.queue == [] ==> FullyAgrees(Flip(pics, d).screen)
  {
    IssueKeeps(pics, d, FlipAction, FlipAction);
    if d.queue == [] {
      FlipShowsAll(d.screen);
    }
  }

  /** `more` was issued, and executed or queued. */
  ghost predicate SameLog(d: DisplayState, d': DisplayState, more: seq<Action>) {
    d'.issued == d.issued + more && d'.applied + d'.queue == d.applied + d.queue + more
  }

  /** The viewport may be out of place, and the target blank: all but that is as it should be. */
  ghost predicate Adjusting(d: DisplayState) {
    Nearly(d.screen) && Orderly(d)
  }

  ghost predicate Flips(flips: seq<Action>) {
    forall a :: a in flips ==> a == FlipAction
  }

  lemma ChangePosKeeps(pics: Pictures, d: DisplayState, deltaX: int, deltaY: int) returns (flips: seq<Action>)
    requires Adjusting(d)
    ensures Flips(flips) && SameLog(d, ChangePos(pics, d, deltaX, deltaY), flips)
    ensures var d' := ChangePos(pics, d, deltaX, deltaY);
            && Adjusting(d') && Fits(d'.screen)
            && (Agrees(d.screen) || Moves(d.screen, deltaX, deltaY) ==> Inv(d'))
  {
    MovedFits(d.screen, deltaX, deltaY);
    if Moves(d.screen, deltaX, deltaY) {
      FlipKeeps(pics, d.(screen := Moved(d.screen, deltaX, deltaY)));
      flips := [FlipAction];
    } else {
      flips := [];
      assert d.issued + [] == d.issued && d.applied + d.queue + [] == d.applied + d.queue;
    }
  }

  lemma LogsJoin(d: DisplayState, d1: DisplayState, d2: DisplayState, a: seq<Action>, b: seq<Action>)
    requires SameLog(d, d1, a) && SameLog(d1, d2, b)
    ensures SameLog(d, d2, a + b)
  {
    assert d.issued + a + b == d.issued + (a + b);
    assert d.applied + d.queue + a + b == d.applied + d.queue + (a + b);
  }

  /** Any viewport that is no larger than the framebuffer when it stays as it is. */
  lemma ChangeSizeKeeps(pics: Pictures, d: DisplayState, w: nat, h: nat) returns (flips: seq<Action>)
    requires Orderly(d)
    requires 0 <= d.screen.vp.x && 0 <= d.screen.vp.y && d.screen.fbW <= d.screen.back.w
             && d.screen.fbH <= d.screen.back.h
    requires d.screen.target.w == d.screen.vp.w && d.screen.target.h == d.screen.vp.h
    ensures Flips(flips) && SameLog(d, ChangeSize(pics, d, w, h), flips)
    ensures var same := SizeFor(d.screen, w, h) == (d.screen.vp.w, d.screen.vp.h);
            var d' := ChangeSize(pics, d, w, h);
            if same then d' == d && Nearly(d.screen) else Inv(d')
  {
    var (w', h') := SizeFor(d.screen, w, h);
    if d.screen.vp.w == w' && d.screen.vp.h == h' {
      flips := [];
      assert d.issued + [] == d.issued && d.applied + d.queue + [] == d.applied + d.queue;
    } else {
      var d0 := d.(screen := Sized(d.screen, w', h'));
      flips := ChangePosKeeps(pics, d0, 0, 0);
      var d1 := ChangePos(pics, d0, 0, 0);
      var d2 := d1.(screen := AllDamaged(d1.screen));
      DamagedAgrees(d1.screen);
      FlipKeeps(pics, d2);
      LogsJoin(d, d2, Flip(pics, d2), flips, [FlipAction]);
      flips := flips + [FlipAction];
    }
  }

  lemma AdjustKeeps(pics: Pictures, d: DisplayState) returns (flips: seq<Action>)
    requires Orderly(d)
    requires 0 <= d.screen.vp.x && 0 <= d.screen.vp.y && d.screen.fbW <= d.screen.back.w
             && d.screen.fbH <= d.screen.back.h
    requires d.screen.target.w == d.screen.vp.w && d.screen.target.h == d.screen.vp.h
    requires Fits(d.screen) ==> Agrees(d.screen)
    ensures Flips(flips) && SameLog(d, Adjust(pics, d), flips)
    ensures Inv(Adjust(pics, d))
  {
    var d1 := ChangeSize(pics, d, d.screen.vp.w, d.screen.vp.h);
    var f1 := ChangeSizeKeeps(pics, d, d.screen.vp.w, d.screen.vp.h);
    MovedFits(d1.screen, 0, 0);
    var f2 := ChangePosKeeps(pics, d1, 0, 0);
    LogsJoin(d, d1, Adjust(pics, d), f1, f2);
    flips := f1 + f2;
  }

  // ---- Every run ------------------------------------------------------------------------------------

  /** What a call asked for reaches the queue and stays there: a blit that has to wait has its data at the start of
      its buffer, and the receive buffer is written so that no queued view changes. */
  ghost predicate Honest(d: DisplayState, e: Event) {
    match e
    case BlitCall(_, _, w, h, buffer, offset) =>
      var n := w * h * 4;
      d.queue == [] || (offset + n <= |buffer| && buffer[..n] == buffer[offset..offset + n])
    case Overwrite(colors) => Overwritten(d.queue, colors) == d.queue
    case _ => true
  }

  /** The calls made are those executed or waiting, in the same order, none left out and none twice. */
  predicate Intact(d: DisplayState) {
    d.applied + d.queue == d.issued
  }

  /** An action without what the receive buffer may have changed about it. */
  function Shape(a: Action): Action {
    match a
    case FillAction(x, y, w, h, color, view) => if view then a.(color := []) else a
    case BlitAction(x, y, w, h, data) => a.(data := [])
    case _ => a
  }

  /** The same but for colours of views and data of blits. */
  ghost predicate Alike(a: seq<Action>, b: seq<Action>) {
    |a| == |b| && forall i :: 0 <= i < |a| ==> Shape(a[i]) == Shape(b[i])
  }

  /** The log of the calls made and the log of those executed or waiting grow alike. */
  ghost predicate Grow(d: DisplayState, d': DisplayState, more: seq<Action>, more': seq<Action>) {
    d'.issued == d.issued + more && d'.applied + d'.queue == d.applied + d.queue + more' && Alike(more', more)
  }

  lemma BlitKeeps(pics: Pictures, d: DisplayState, e: Event) returns (more: seq<Action>, more': seq<Action>)
    requires Inv(d) && e.BlitCall? && Possible(d, e)
    ensures Inv(Handle(pics, d, e)) && Grow(d, Handle(pics, d, e), more, more') && (more == more' <==> Honest(d, e))
  {
    var n := e.w * e.h * 4;
    var a := BlitAction(e.x, e.y, e.w, e.h, e.buffer[e.offset..e.offset + n]);
    var queued := BlitAction(e.x, e.y, e.w, e.h, e.buffer[..n]);
    IssueKeeps(pics, d, a, queued);
    more, more' := [a], [if d.queue != [] then queued else a];
  }

  lemma LoadKeeps(pics: Pictures, d: DisplayState, e: Event)
    requires Inv(d) && (e.Load? || e.Spoil? || e.Flush?) && Possible(d, e)
    ensures Inv(Handle(pics, d, e)) && Grow(d, Handle(pics, d, e), [], [])
  {
    var d' := Handle(pics, d, e);
    assert d.issued + [] == d.issued && d.applied + d.queue + [] == d.applied + d.queue;
    if e.Load? && e.img in d.armed {
      ScanKeeps(pics, d.(loaded := d.loaded[e.img := (e.w, e.h)], armed := d.armed - {e.img}));
    } else if d.queue != [] {
      assert d.queue[0] in d.queue;
    }
  }

  lemma ViewKeeps(pics: Pictures, d: DisplayState, e: Event) returns (flips: seq<Action>)
    requires Inv(d) && !KeepsView(e) && Possible(d, e)
    ensures Inv(Handle(pics, d, e)) && Grow(d, Handle(pics, d, e), flips, flips)
  {
    match e
    case MoveBy(deltaX, deltaY) =>
      flips := ChangePosKeeps(pics, d, deltaX, deltaY);
    case ResizeView(w, h) =>
      flips := ChangeSizeKeeps(pics, d, w, h);
    case ResizeFb(w, h) =>
      var d' := d.(screen := WithFramebuffer(d.screen, w, h));
      if Fits(d'.screen) {
        ResizedAgrees(d.screen, w, h);
      }
      flips := AdjustKeeps(pics, d');
    case Clip(on) =>
      var d' := d.(screen := d.screen.(clip := on));
      flips := AdjustKeeps(pics, d');
  }

  lemma OverwriteKeeps(pics: Pictures, d: DisplayState, e: Event)
    requires Inv(d) && e.Overwrite?
    ensures Inv(Handle(pics, d, e)) && Alike(Handle(pics, d, e).queue, d.queue)
  {
    var q := Overwritten(d.queue, e.colors);
    forall i | 0 <= i < |q|
      ensures Shape(q[i]) == Shape(d.queue[i]) && (q[i].ImageAction? ==> q[i] in d.queue)
    {
      assert q[i] == Recolored(d.queue[i], e.colors(i));
    }
  }

  lemma JoinAlike(a: seq<Action>, b: seq<Action>, more: seq<Action>, more': seq<Action>)
    requires Alike(a, b) && Alike(more', more)
    ensures Alike(a + more', b + more) && (a == b ==> (a + more' == b + more <==> more == more'))
  {
    assert (a + more')[|a|..] == more' && (b + more)[|b|..] == more;
  }

  /** Every event keeps the invariant, and at most colours of views and data of blits change between a call and its
      execution; they do exactly in the cases that `Honest` excludes. */
  lemma HandleKeeps(pics: Pictures, d: DisplayState, e: Event)
    requires Inv(d) && Possible(d, e) && Alike(d.applied + d.queue, d.issued)
    ensures var d' := Handle(pics, d, e);
            && Inv(d') && Alike(d'.applied + d'.queue, d'.issued)
            && (Intact(d) ==> (Intact(d') <==> Honest(d, e)))
  {
    var d' := Handle(pics, d, e);
    if e.Overwrite? {
      OverwriteKeeps(pics, d, e);
      assert Intact(d) && Intact(d') ==> d.queue == (d.applied + d.queue)[|d.applied|..] == d'.queue;
    } else {
      var more, more' := CallKeeps(pics, d, e);
      JoinAlike(d.applied + d.queue, d.issued, more, more');
    }
  }

  lemma CallKeeps(pics: Pictures, d: DisplayState, e: Event) returns (more: seq<Action>, more': seq<Action>)
    requires Inv(d) && Possible(d, e) && !e.Overwrite?
    ensures Inv(Handle(pics, d, e)) && Grow(d, Handle(pics, d, e), more, more') && (more == more' <==> Honest(d, e))
  {
    if e.BlitCall? {
      more, more' := BlitKeeps(pics, d, e);
    } else if e.Call? {
      if e.a.ImageAction? && (e.a.w == 0 || e.a.h == 0) {
        more, more' := [], [];
        assert d.issued + [] == d.issued && d.applied + d.queue + [] == d.applied + d.queue;
      } else {
        IssueKeeps(pics, d, e.a, e.a);
        more, more' := [e.a], [e.a];
      }
    } else if KeepsView(e) {
      LoadKeeps(pics, d, e);
      more, more' := [], [];
    } else {
      more := ViewKeeps(pics, d, e);
      more' := more;
    }
  }

  predicate KeepsView(e: Event) {
    !(e.MoveBy? || e.ResizeView? || e.ResizeFb? || e.Clip?)
  }

  ghost predicate AllHonest(pics: Pictures, d: DisplayState, events: seq<Event>)
    requires AllPossible(pics, d, events)
    decreases |events|
  {
    events == [] ||
    (AllHonest(pics, d, events[..|events| - 1])
     && Honest(HandleAll(pics, d, events[..|events| - 1]), events[|events| - 1]))
  }

  /** At every time of the run the calls made are those executed or waiting. */
  ghost predicate AlwaysIntact(pics: Pictures, d: DisplayState, events: seq<Event>)
    requires AllPossible(pics, d, events)
    decreases |events|
  {
    Intact(HandleAll(pics, d, events)) && (events == [] || AlwaysIntact(pics, d, events[..|events| - 1]))
  }

  lemma {:induction false} RunKeepsInv(pics: Pictures, d0: DisplayState, events: seq<Event>)
    requires Inv(d0) && Alike(d0.applied + d0.queue, d0.issued) && AllPossible(pics, d0, events)
    ensures var d := HandleAll(pics, d0, events); Inv(d) && Alike(d.applied + d.queue, d.issued)
    ensures Intact(d0) ==> (AlwaysIntact(pics, d0, events) <==> AllHonest(pics, d0, events))
    decreases |events|
  {
    if events != [] {
      var n := |events| - 1;
      RunKeepsInv(pics, d0, events[..n]);
      HandleKeeps(pics, HandleAll(pics, d0, events[..n]), events[n]);
      if AllHonest(pics, d0, events[..n]) && Intact(d0) {
        assert Intact(HandleAll(pics, d0, events[..n])) by {
          assert AlwaysIntact(pics, d0, events[..n]);
        }
      }
    }
  }

  /** Damage tracking agrees with copying everything: after any draws, moves, resizes and loads, whatever waits for
      images, every pixel of the viewport outside the damaged box shows the backbuffer's pixel under it, the viewport
      lies inside the framebuffer, and a flip that is executed leaves all of the viewport as a full copy would. */
  lemma DamageIsEnough(pics: Pictures, events: seq<Event>)
    requires AllPossible(pics, Initial(), events)
    ensures var d := HandleAll(pics, Initial(), events);
            && Fits(d.screen) && Agrees(d.screen)
            && FullyAgrees(Flipped(d.screen))
  {
    RunKeepsInv(pics, Initial(), events);
    FlipShowsAll(HandleAll(pics, Initial(), events).screen);
  }

  /** Calls are executed in the order in which they were made, none left out and none twice, in whatever order the
      images are loaded; only the bytes of a blit, or of a fill with a view, may be others than those of the call.
      They are those of the call throughout a run exactly if every blit that had to wait had its data at the start
      of its buffer, and the receive buffer was never written over the colour of a fill that waited. */
  lemma CallsInOrderExactly(pics: Pictures, events: seq<Event>)
    requires AllPossible(pics, Initial(), events)
    ensures var d := HandleAll(pics, Initial(), events); Alike(d.applied + d.queue, d.issued)
    ensures AlwaysIntact(pics, Initial(), events) <==> AllHonest(pics, Initial(), events)
  {
    RunKeepsInv(pics, Initial(), events);
  }

  // ---- Images that never get ready ------------------------------------------------------------------

  /** The first in the queue is an image that came out in another size than announced, or not as an image. */
  predicate Stuck(d: DisplayState) {
    && d.queue != [] && d.queue[0].ImageAction?
    && d.queue[0].img in d.loaded && d.loaded[d.queue[0].img] != (d.queue[0].w, d.queue[0].h)
  }

  /** Nothing more is executed, and a request for a flush that is open stays open. */
  ghost predicate Stays(d: DisplayState, d': DisplayState)
    requires Stuck(d)
  {
    && Stuck(d') && d'.queue[0] == d.queue[0] && d'.applied == d.applied
    && d'.flushes == d.flushes && (d.flushing ==> d'.flushing)
  }

  lemma IssueStays(pics: Pictures, d: DisplayState, a: Action, queued: Action)
    requires Stuck(d)
    ensures Stays(d, Issue(pics, d, a, queued))
  {
    assert (d.queue + [queued])[0] == d.queue[0];
  }

  lemma ChangePosStays(pics: Pictures, d: DisplayState, deltaX: int, deltaY: int)
    requires Stuck(d)
    ensures Stays(d, ChangePos(pics, d, deltaX, deltaY))
  {
    IssueStays(pics, d.(screen := Moved(d.screen, deltaX, deltaY)), FlipAction, FlipAction);
  }

  lemma ChangeSizeStays(pics: Pictures, d: DisplayState, w: nat, h: nat)
    requires Stuck(d)
    ensures Stays(d, ChangeSize(pics, d, w, h))
  {
    var (w', h') := SizeFor(d.screen, w, h);
    var d0 := d.(screen := Sized(d.screen, w', h'));
    ChangePosStays(pics, d0, 0, 0);
    var d1 := ChangePos(pics, d0, 0, 0);
    IssueStays(pics, d1.(screen := AllDamaged(d1.screen)), FlipAction, FlipAction);
  }

  lemma AdjustStays(pics: Pictures, d: DisplayState)
    requires Stuck(d)
    ensures Stays(d, Adjust(pics, d))
  {
    ChangeSizeStays(pics, d, d.screen.vp.w, d.screen.vp.h);
    ChangePosStays(pics, ChangeSize(pics, d, d.screen.vp.w, d.screen.vp.h), 0, 0);
  }

  lemma StuckStays(pics: Pictures, d: DisplayState, e: Event)
    requires Stuck(d) && Possible(d, e)
    ensures Stays(d, Handle(pics, d, e))
  {
    match e
    case Call(a) =>
      if !(a.ImageAction? && (a.w == 0 || a.h == 0)) {
        IssueStays(pics, d, a, a);
      }
    case BlitCall(x, y, w, h, buffer, offset) =>
      IssueStays(pics, d, BlitAction(x, y, w, h, buffer[offset..offset + w * h * 4]),
        BlitAction(x, y, w, h, buffer[..w * h * 4]));
    case MoveBy(deltaX, deltaY) => ChangePosStays(pics, d, deltaX, deltaY);
    case ResizeView(w, h) => ChangeSizeStays(pics, d, w, h);
    case ResizeFb(w, h) => AdjustStays(pics, d.(screen := WithFramebuffer(d.screen, w, h)));
    case Clip(on) => AdjustStays(pics, d.(screen := d.screen.(clip := on)));
    case _ =>
  }

  /** An image of the wrong size at the head of the queue stops the display for good: whatever happens from then on,
      nothing more is executed and nobody who waits for a flush hears of it. */
  lemma {:induction false} StuckForever(pics: Pictures, d0: DisplayState, events: seq<Event>)
    requires Stuck(d0) && AllPossible(pics, d0, events)
    ensures Stays(d0, HandleAll(pics, d0, events))
    decreases |events|
  {
    if events != [] {
      var n := |events| - 1;
      StuckForever(pics, d0, events[..n]);
      StuckStays(pics, HandleAll(pics, d0, events[..n]), events[n]);
    }
  }

  /** Nothing is left waiting, and every request for a flush has been answered, exactly if every image that was to be
      drawn has been loaded with the size that was announced for it. */
  lemma DrainsExactly(pics: Pictures, events: seq<Event>)
    requires AllPossible(pics, Initial(), events)
    ensures var d := HandleAll(pics, Initial(), events);
            d.queue == [] && !d.flushing <==> forall a :: a in d.issued ==> Ready(d, a)
  {
    RunKeepsInv(pics, Initial(), events);
    ReadyExactly(HandleAll(pics, Initial(), events));
  }

  lemma ReadyExactly(d: DisplayState)
    requires Inv(d) && Alike(d.applied + d.queue, d.issued)
    ensures d.queue == [] && !d.flushing <==> forall a :: a in d.issued ==> Ready(d, a)
  {
    var log := d.applied + d.queue;
    if d.queue == [] {
      forall a | a in d.issued
        ensures Ready(d, a)
      {
        var i :| 0 <= i < |d.issued| && d.issued[i] == a;
        assert Shape(log[i]) == Shape(a) && log[i] in d.applied;
      }
    } else {
      var i := |d.applied|;
      assert log[i] == d.queue[0];
      assert Shape(log[i]) == Shape(d.issued[i]) && d.issued[i] in d.issued;
    }
  }

  lemma OneMore(pics: Pictures, d: DisplayState, events: seq<Event>, e: Event)
    requires AllPossible(pics, d, events) && Possible(HandleAll(pics, d, events), e)
    ensures AllPossible(pics, d, events + [e])
            && HandleAll(pics, d, events + [e]) == Handle(pics, HandleAll(pics, d, events), e)
  {
    assert (events + [e])[..|events|] == events;
  }

  /** The first call on the initial display is for an image; it waits. */
  lemma ImageWaits(pics: Pictures)
    ensures var image := ImageAction(0, 0, 1, 1, 0);
            && AllPossible(pics, Initial(), [Call(image)])
            && HandleAll(pics, Initial(), [Call(image)]) ==
              Initial().(queue := [image], issued := [image], armed := {0})
  {
    var image := ImageAction(0, 0, 1, 1, 0);
    OneMore(pics, Initial(), [], Call(image));
    assert [] + [Call(image)] == [Call(image)] && [] + [image] == [image];
  }

  /** Such an image: announced as a single pixel, it comes with two, or is no image at all. */
  lemma WrongSizeSticks(pics: Pictures)
    ensures var events := [Call(ImageAction(0, 0, 1, 1, 0)), Load(0, 2, 1)];
            AllPossible(pics, Initial(), events) && Stuck(HandleAll(pics, Initial(), events))
    ensures var events := [Call(ImageAction(0, 0, 1, 1, 0)), Spoil(0)];
            AllPossible(pics, Initial(), events) && Stuck(HandleAll(pics, Initial(), events))
  {
    var image := Call(ImageAction(0, 0, 1, 1, 0));
    ImageWaits(pics);
    OneMore(pics, Initial(), [image], Load(0, 2, 1));
    OneMore(pics, Initial(), [image], Spoil(0));
    assert [image] + [Load(0, 2, 1)] == [image, Load(0, 2, 1)] && [image] + [Spoil(0)] == [image, Spoil(0)];
  }

  // ---- What is on the screen ------------------------------------------------------------------------

  /** Executing actions one after the other. */
  function ApplyAll(pics: Pictures, s: Screen, actions: seq<Action>): Screen
    decreases |actions|
  {
    if actions == [] then s
    else Apply(pics, ApplyAll(pics, s, actions[..|actions| - 1]), actions[|actions| - 1])
  }

  lemma ApplyOneMore(pics: Pictures, s: Screen, actions: seq<Action>, a: Action)
    ensures ApplyAll(pics, s, actions + [a]) == Apply(pics, ApplyAll(pics, s, actions), a)
  {
    assert (actions + [a])[..|actions|] == actions;
  }

  lemma {:induction false} ScanApplies(pics: Pictures, s: Screen, d: DisplayState)
    requires d.screen == ApplyAll(pics, s, d.applied)
    ensures var d' := Scan(pics, d); d'.screen == ApplyAll(pics, s, d'.applied)
    decreases |d.queue|
  {
    if d.queue != [] && Ready(d, d.queue[0]) {
      ApplyOneMore(pics, s, d.applied, d.queue[0]);
      ScanApplies(pics, s, Execute(pics, d, d.queue[0]).(queue := d.queue[1..]));
    }
  }

  lemma IssueApplies(pics: Pictures, s: Screen, d: DisplayState, a: Action, queued: Action)
    requires d.screen == ApplyAll(pics, s, d.applied)
    ensures var d' := Issue(pics, d, a, queued); d'.screen == ApplyAll(pics, s, d'.applied)
  {
    if d.queue != [] || a.ImageAction? {
      ScanApplies(pics, s, d.(issued := d.issued + [a], queue := d.queue + [queued]));
    } else {
      ApplyOneMore(pics, s, d.applied, a);
    }
  }

  lemma HandleApplies(pics: Pictures, s: Screen, d: DisplayState, e: Event)
    requires Possible(d, e) && KeepsView(e) && d.screen == ApplyAll(pics, s, d.applied)
    ensures var d' := Handle(pics, d, e); d'.screen == ApplyAll(pics, s, d'.applied)
  {
    match e
    case Call(a) =>
      IssueApplies(pics, s, d, a, a);
    case BlitCall(x, y, w, h, buffer, offset) =>
      IssueApplies(pics, s, d, BlitAction(x, y, w, h, buffer[offset..offset + w * h * 4]),
        BlitAction(x, y, w, h, buffer[..w * h * 4]));
    case Load(img, w, h) =>
      ScanApplies(pics, s, d.(loaded := d.loaded[img := (w, h)], armed := d.armed - {img}));
    case _ =>
  }

  lemma {:induction false} RunApplies(pics: Pictures, d0: DisplayState, events: seq<Event>)
    requires AllPossible(pics, d0, events) && d0.applied == [] && forall e :: e in events ==> KeepsView(e)
    ensures var d := HandleAll(pics, d0, events); d.screen == ApplyAll(pics, d0.screen, d.applied)
    decreases |events|
  {
    if events != [] {
      var n := |events| - 1;
      RunApplies(pics, d0, events[..n]);
      HandleApplies(pics, d0.screen, HandleAll(pics, d0, events[..n]), events[n]);
    }
  }

  /** The render queue does not show: while the viewport stays where it is, no blit that waits comes from behind the
      start of its buffer and no view that waits is overwritten, once all images are loaded with their sizes, whenever
      and in whatever order, both canvases are what executing the calls one after the other makes of them. */
  lemma QueueIsTransparent(pics: Pictures, d0: DisplayState, events: seq<Event>)
    requires Inv(d0) && d0.queue == [] && d0.applied == [] && d0.issued == []
    requires AllPossible(pics, d0, events) && AllHonest(pics, d0, events) && forall e :: e in events ==> KeepsView(e)
    requires var d := HandleAll(pics, d0, events); forall a :: a in d.issued ==> Ready(d, a)
    ensures var d := HandleAll(pics, d0, events); d.screen == ApplyAll(pics, d0.screen, d.issued)
  {
    RunKeepsInv(pics, d0, events);
    RunApplies(pics, d0, events);
    var d := HandleAll(pics, d0, events);
    ReadyExactly(d);
    assert Intact(d) by {
      assert AlwaysIntact(pics, d0, events);
    }
    assert d.applied + [] == d.applied;
  }

  // ---- What the queue gets wrong --------------------------------------------------------------------

  lemma DrawnPixel(s: Screen, paint: (int, int) -> Pixel)
    ensures Draw(s, 0, 0, 1, 1, paint).back.at(0, 0) == paint(0, 0)
  {
  }

  /** An image, then an action that waits for it, then the image is loaded: the action is drawn last. */
  lemma DrawnLast(pics: Pictures, d: DisplayState, a: Action)
    requires d.queue == [ImageAction(0, 0, 1, 1, 0), a] && !a.ImageAction? && 0 in d.armed && 0 !in d.loaded
    ensures var d' := Handle(pics, d, Load(0, 1, 1));
            && d'.queue == [] && d'.applied == d.applied + [ImageAction(0, 0, 1, 1, 0), a]
            && d'.screen == Apply(pics, Apply(pics, d.screen, ImageAction(0, 0, 1, 1, 0)), a)
  {
    var image := ImageAction(0, 0, 1, 1, 0);
    var d1 := d.(loaded := d.loaded[0 := (1, 1)], armed := d.armed - {0});
    var d2 := Execute(pics, d1, image).(queue := [a]);
    assert d1.queue[1..] == [a];
    assert Scan(pics, d1) == Scan(pics, d2);
    var d3 := Execute(pics, d2, a).(queue := []);
    assert d2.queue[1..] == [];
    assert Scan(pics, d2) == Scan(pics, d3);
    assert d.applied + [image] + [a] == d.applied + [image, a];
  }

  /** A blit from the middle of its buffer that has to wait is queued with the data at the start of the buffer, and
      drawn with them once the image before it is loaded. */
  lemma OffsetIsForgotten(pics: Pictures)
    ensures var image := ImageAction(0, 0, 1, 1, 0);
            var events := [Call(image), BlitCall(0, 0, 1, 1, [9, 9, 9, 9, 7, 7, 7, 7], 4)];
            && AllPossible(pics, Initial(), events)
            && HandleAll(pics, Initial(), events).issued == [image, BlitAction(0, 0, 1, 1, [7, 7, 7, 7])]
            && HandleAll(pics, Initial(), events).queue == [image, BlitAction(0, 0, 1, 1, [9, 9, 9, 9])]
            && AllPossible(pics, Initial(), events + [Load(0, 1, 1)])
            && HandleAll(pics, Initial(), events + [Load(0, 1, 1)]).screen.back.at(0, 0) == [9, 9, 9, 9]
  {
    var image, buffer := ImageAction(0, 0, 1, 1, 0), [9, 9, 9, 9, 7, 7, 7, 7];
    var blit := BlitCall(0, 0, 1, 1, buffer, 4);
    ImageWaits(pics);
    OneMore(pics, Initial(), [Call(image)], blit);
    assert [Call(image)] + [blit] == [Call(image), blit];
    assert buffer[..4] == [9, 9, 9, 9] && buffer[4..8] == [7, 7, 7, 7];
    var queued := BlitAction(0, 0, 1, 1, [9, 9, 9, 9]);
    var d := HandleAll(pics, Initial(), [Call(image), blit]);
    assert d.queue == [image] + [queued] && d.issued == [image] + [BlitAction(0, 0, 1, 1, [7, 7, 7, 7])];
    OneMore(pics, Initial(), [Call(image), blit], Load(0, 1, 1));
    DrawnLast(pics, d, queued);
    DrawnPixel(Apply(pics, d.screen, image), BlitPaint([9, 9, 9, 9], 1, 0, 0));
    assert [9, 9, 9, 9][0..4] == [9, 9, 9, 9];
  }

  function All(color: seq<Byte>): nat -> seq<Byte> {
    i => color
  }

  /** A fill whose colour is a view of the receive buffer has to wait; what is received meanwhile is its colour. */
  lemma ViewIsStale(pics: Pictures)
    ensures var image := ImageAction(0, 0, 1, 1, 0);
            var events := [Call(image), Call(FillAction(0, 0, 1, 1, [7, 7, 7, 0], true)), Overwrite(All([9, 9, 9, 0]))];
            && AllPossible(pics, Initial(), events)
            && HandleAll(pics, Initial(), events).issued == [image, FillAction(0, 0, 1, 1, [7, 7, 7, 0], true)]
            && HandleAll(pics, Initial(), events).queue == [image, FillAction(0, 0, 1, 1, [9, 9, 9, 0], true)]
            && AllPossible(pics, Initial(), events + [Load(0, 1, 1)])
            && HandleAll(pics, Initial(), events + [Load(0, 1, 1)]).screen.back.at(0, 0) == [9, 9, 9, 255]
  {
    var image := ImageAction(0, 0, 1, 1, 0);
    var fill, stale := FillAction(0, 0, 1, 1, [7, 7, 7, 0], true), FillAction(0, 0, 1, 1, [9, 9, 9, 0], true);
    var over := Overwrite(All([9, 9, 9, 0]));
    ImageWaits(pics);
    OneMore(pics, Initial(), [Call(image)], Call(fill));
    assert [Call(image)] + [Call(fill)] == [Call(image), Call(fill)];
    var d := HandleAll(pics, Initial(), [Call(image), Call(fill)]);
    assert d.queue == [image] + [fill] && d.issued == [image] + [fill];
    OneMore(pics, Initial(), [Call(image), Call(fill)], over);
    assert [Call(image), Call(fill)] + [over] == [Call(image), Call(fill), over];
    var q := Overwritten(d.queue, over.colors);
    assert q[0] == Recolored(image, over.colors(0)) && q[1] == Recolored(fill, over.colors(1));
    assert q == [image, stale];
    OneMore(pics, Initial(), [Call(image), Call(fill), over], Load(0, 1, 1));
    DrawnLast(pics, d.(queue := [image, stale]), stale);
    DrawnPixel(Apply(pics, d.screen, image), FillPaint([9, 9, 9, 0]));
  }
}
