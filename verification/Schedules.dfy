/**
 Every way in which calls can be handed to the display: the browser loads images, and the receive buffer is written,
 at any time in between.  Safe calls are executed as they were made in all of them, other calls in not all of them.
 */
module Schedules {
  import opened Bytes
  import opened Decoding
  import opened Handover
  import Q = RenderQueue
  import S = Screen

  /** The next call, with what stands before its bytes in the receive buffer; or something else. */
  datatype Turn = Next(front: seq<Byte>) | Meanwhile(e: Q.Event)

  datatype Progress = Progress(d: Q.DisplayState, given: nat)

  ghost predicate Fair(calls: seq<Call>, p: Progress, t: Turn) {
    match t
    case Next(front) => p.given < |calls| && Announces(front) && Polite(calls[..p.given], calls[p.given], p.d)
    case Meanwhile(e) => Meantime(e) && Q.Possible(p.d, e)
  }

  function Take(pics: Q.Pictures, calls: seq<Call>, p: Progress, t: Turn): Progress
    requires Fair(calls, p, t)
  {
    match t
    case Next(front) => Progress(Give(pics, p.d, calls[p.given], p.given, front), p.given + 1)
    case Meanwhile(e) => p.(d := Q.Handle(pics, p.d, e))
  }

  ghost predicate AllFair(pics: Q.Pictures, d0: Q.DisplayState, calls: seq<Call>, turns: seq<Turn>)
    decreases |turns|, 0
  {
    turns == [] ||
    (AllFair(pics, d0, calls, turns[..|turns| - 1])
     && Fair(calls, TakeAll(pics, d0, calls, turns[..|turns| - 1]), turns[|turns| - 1]))
  }

  ghost function TakeAll(pics: Q.Pictures, d0: Q.DisplayState, calls: seq<Call>, turns: seq<Turn>): Progress
    requires AllFair(pics, d0, calls, turns)
    decreases |turns|, 1
  {
    if turns == [] then Progress(d0, 0)
    else Take(pics, calls, TakeAll(pics, d0, calls, turns[..|turns| - 1]), turns[|turns| - 1])
  }

  /** All calls are given, and nothing waits any more. */
  ghost predicate Complete(pics: Q.Pictures, d0: Q.DisplayState, calls: seq<Call>, turns: seq<Turn>) {
    && AllFair(pics, d0, calls, turns)
    && TakeAll(pics, d0, calls, turns).given == |calls| && TakeAll(pics, d0, calls, turns).d.queue == []
  }

  /** Nothing waits, and the images of `n` calls are not there yet. */
  ghost predicate Fresh(d: Q.DisplayState, n: nat) {
    Q.Inv(d) && d.queue == [] && d.applied == [] && d.issued == [] && Unloaded(d, 0, n)
  }

  ghost predicate Unloaded(d: Q.DisplayState, from: nat, to: nat) {
    forall k: nat :: from <= k < to ==> k !in d.loaded
  }

  // ---- Safe calls -----------------------------------------------------------------------------------

  lemma {:induction false} RunHands(pics: Q.Pictures, d0: Q.DisplayState, calls: seq<Call>, turns: seq<Turn>)
    requires Fresh(d0, |calls|) && AllFair(pics, d0, calls, turns)
    ensures var p := TakeAll(pics, d0, calls, turns);
            p.given <= |calls| && Handed(pics, d0.screen, calls[..p.given], p.d)
    decreases |turns|
  {
    if turns != [] {
      var n := |turns| - 1;
      RunHands(pics, d0, calls, turns[..n]);
      var p := TakeAll(pics, d0, calls, turns[..n]);
      match turns[n]
      case Next(front) =>
        GiveKeeps(pics, d0.screen, calls[..p.given], p.d, calls[p.given], front);
        assert calls[..p.given] + [calls[p.given]] == calls[..p.given + 1];
      case Meanwhile(e) =>
        MeantimeKeeps(pics, d0.screen, calls[..p.given], p.d, e);
    }
  }

  lemma SafeIsExact(pics: Q.Pictures, d0: Q.DisplayState, calls: seq<Call>, turns: seq<Turn>)
    requires Fresh(d0, |calls|) && Complete(pics, d0, calls, turns) && Safe(calls)
    ensures var d := TakeAll(pics, d0, calls, turns).d;
            d.applied == ActionsOf(calls) && d.screen == Q.ApplyAll(pics, d0.screen, ActionsOf(calls))
  {
    RunHands(pics, d0, calls, turns);
    var d := TakeAll(pics, d0, calls, turns).d;
    assert calls[..|calls|] == calls && d.applied + [] == d.applied;
  }

  // ---- Other calls ----------------------------------------------------------------------------------

  lemma OneMoreTurn(pics: Q.Pictures, d0: Q.DisplayState, calls: seq<Call>, turns: seq<Turn>, t: Turn)
    requires AllFair(pics, d0, calls, turns) && Fair(calls, TakeAll(pics, d0, calls, turns), t)
    ensures AllFair(pics, d0, calls, turns + [t])
    ensures TakeAll(pics, d0, calls, turns + [t]) == Take(pics, calls, TakeAll(pics, d0, calls, turns), t)
  {
    assert (turns + [t])[..|turns|] == turns;
  }

  lemma {:induction false} AllReady(pics: Q.Pictures, d: Q.DisplayState)
    requires forall a :: a in d.queue ==> Q.Ready(d, a)
    ensures var d' := Q.Scan(pics, d); d'.queue == [] && d'.applied == d.applied + d.queue && d'.loaded == d.loaded
    decreases |d.queue|
  {
    if d.queue != [] {
      var d1 := Q.Execute(pics, d, d.queue[0]).(queue := d.queue[1..]);
      forall a | a in d.queue
        ensures Q.Ready(d1, a)
      {
      }
      AllReady(pics, d1);
      assert d1.applied + d1.queue == d.applied + d.queue;
    }
  }

  /** An image before which nothing waits: it waits for its load. */
  lemma GiveImage(pics: Q.Pictures, d: Q.DisplayState, c: Call, n: nat, front: seq<Byte>)
    requires d.queue == [] && Image(c) && n !in d.loaded
    ensures var d' := Give(pics, d, c, n, front);
            && d'.queue == [Q.ImageAction(c.x, c.y, c.w, c.h, n)] && n in d'.armed && d'.loaded == d.loaded
            && d'.applied == d.applied
  {
    assert [] + [Q.ImageAction(c.x, c.y, c.w, c.h, n)] == [Q.ImageAction(c.x, c.y, c.w, c.h, n)];
  }

  lemma GivePlain(pics: Q.Pictures, d: Q.DisplayState, c: Call, n: nat, front: seq<Byte>)
    requires d.queue == [] && !Image(c)
    ensures var d' := Give(pics, d, c, n, front);
            d'.queue == [] && d'.loaded == d.loaded && d.applied <= d'.applied
  {
  }

  /** Images that wait, each for itself: the load of the first lets all go that follow it. */
  predicate OnlyFirst(q: seq<Q.Action>) {
    forall i :: 0 < i < |q| ==> !q[i].ImageAction?
  }

  lemma LoadDrains(pics: Q.Pictures, d: Q.DisplayState)
    requires d.queue != [] && d.queue[0].ImageAction? && OnlyFirst(d.queue)
    requires d.queue[0].img !in d.loaded && d.queue[0].img in d.armed
    ensures var a := d.queue[0];
            var d' := Q.Handle(pics, d, Q.Load(a.img, a.w, a.h));
            && d'.queue == [] && d'.applied == d.applied + d.queue && d'.loaded == d.loaded[a.img := (a.w, a.h)]
  {
    var a := d.queue[0];
    var d1 := d.(loaded := d.loaded[a.img := (a.w, a.h)], armed := d.armed - {a.img});
    forall b | b in d1.queue
      ensures Q.Ready(d1, b)
    {
      var i :| 0 <= i < |d.queue| && d.queue[i] == b;
    }
    AllReady(pics, d1);
  }

  /** Calls given one after the other, each image loaded before the next call. */
  lemma {:induction false} ServeAll(pics: Q.Pictures, d0: Q.DisplayState, calls: seq<Call>, turns: seq<Turn>, upto: nat)
      returns (turns': seq<Turn>)
    requires AllFair(pics, d0, calls, turns)
    requires var p := TakeAll(pics, d0, calls, turns);
             p.given <= upto <= |calls| && p.d.queue == [] && Unloaded(p.d, p.given, |calls|)
    ensures AllFair(pics, d0, calls, turns')
    ensures var p, p' := TakeAll(pics, d0, calls, turns), TakeAll(pics, d0, calls, turns');
            p'.given == upto && p'.d.queue == [] && Unloaded(p'.d, upto, |calls|) && p.d.applied <= p'.d.applied
    decreases upto - TakeAll(pics, d0, calls, turns).given
  {
    var p := TakeAll(pics, d0, calls, turns);
    if p.given == upto {
      turns' := turns;
    } else {
      var turns1 := Serve(pics, d0, calls, turns);
      turns' := ServeAll(pics, d0, calls, turns1, upto);
    }
  }

  /** One call more, and nothing waits again. */
  ghost predicate Served(p: Progress, p': Progress, n: nat) {
    p'.given == p.given + 1 && p'.d.queue == [] && Unloaded(p'.d, p'.given, n) && p.d.applied <= p'.d.applied
  }

  lemma ServePlain(pics: Q.Pictures, calls: seq<Call>, p: Progress)
    requires p.given < |calls| && p.d.queue == [] && Unloaded(p.d, p.given, |calls|) && !Image(calls[p.given])
    ensures Served(p, Take(pics, calls, p, Next([1])), |calls|)
  {
    GivePlain(pics, p.d, calls[p.given], p.given, [1]);
  }

  lemma ServeImage(pics: Q.Pictures, calls: seq<Call>, p: Progress)
    requires p.given < |calls| && p.d.queue == [] && Unloaded(p.d, p.given, |calls|) && Image(calls[p.given])
    ensures var c := calls[p.given];
            var p1 := Take(pics, calls, p, Next([1]));
            var load := Meanwhile(Q.Load(p.given, c.w, c.h));
            Fair(calls, p1, load) && Served(p, Take(pics, calls, p1, load), |calls|)
  {
    GiveImage(pics, p.d, calls[p.given], p.given, [1]);
    LoadDrains(pics, Give(pics, p.d, calls[p.given], p.given, [1]));
  }

  lemma Serve(pics: Q.Pictures, d0: Q.DisplayState, calls: seq<Call>, turns: seq<Turn>) returns (turns': seq<Turn>)
    requires AllFair(pics, d0, calls, turns)
    requires var p := TakeAll(pics, d0, calls, turns);
             p.given < |calls| && p.d.queue == [] && Unloaded(p.d, p.given, |calls|)
    ensures AllFair(pics, d0, calls, turns')
    ensures Served(TakeAll(pics, d0, calls, turns), TakeAll(pics, d0, calls, turns'), |calls|)
  {
    var p := TakeAll(pics, d0, calls, turns);
    OneMoreTurn(pics, d0, calls, turns, Next([1]));
    turns' := turns + [Next([1])];
    if Image(calls[p.given]) {
      ServeImage(pics, calls, p);
      var load := Meanwhile(Q.Load(p.given, calls[p.given].w, calls[p.given].h));
      OneMoreTurn(pics, d0, calls, turns', load);
      turns' := turns' + [load];
    } else {
      ServePlain(pics, calls, p);
    }
  }

  /** Behind an image that waits, all else waits too. */
  lemma GiveWaits(pics: Q.Pictures, d: Q.DisplayState, c: Call, n: nat, front: seq<Byte>)
    requires d.queue != [] && !Image(c)
    ensures var d' := Give(pics, d, c, n, front);
            && d' == d.(issued := d'.issued, queue := d'.queue)
            && |d'.queue| >= |d.queue| && d'.queue[..|d.queue|] == d.queue
              && (OnlyFirst(d.queue) ==> OnlyFirst(d'.queue))
  {
  }

  /** The display waits for the image of call `i`, and all that follows it waits too. */
  ghost predicate Behind(d: Q.DisplayState, i: nat) {
    && d.queue != [] && d.queue[0].ImageAction? && d.queue[0].img == i && OnlyFirst(d.queue)
    && i !in d.loaded && i in d.armed
  }

  /** These calls belong to one update and are for no images. */
  predicate NoImages(calls: seq<Call>, from: nat, to: nat)
    requires to <= |calls|
  {
    forall k :: from <= k < to ==> !Ends(calls[k]) && !Image(calls[k])
  }

  lemma {:induction false} PileUp(pics: Q.Pictures, d0: Q.DisplayState, calls: seq<Call>, turns: seq<Turn>, i: nat,
                                  upto: nat)
      returns (turns': seq<Turn>)
    requires AllFair(pics, d0, calls, turns)
    requires var p := TakeAll(pics, d0, calls, turns);
             && i < p.given <= upto <= |calls| && Behind(p.d, i) && Unloaded(p.d, p.given, |calls|)
             && !Ends(calls[p.given - 1]) && NoImages(calls, p.given, upto)
    ensures AllFair(pics, d0, calls, turns')
    ensures var p' := TakeAll(pics, d0, calls, turns');
            p'.given == upto && Behind(p'.d, i) && Unloaded(p'.d, upto, |calls|)
    decreases upto - TakeAll(pics, d0, calls, turns).given
  {
    var p := TakeAll(pics, d0, calls, turns);
    if p.given == upto {
      turns' := turns;
    } else {
      assert calls[..p.given][p.given - 1] == calls[p.given - 1];
      OneMoreTurn(pics, d0, calls, turns, Next([1]));
      GiveWaits(pics, p.d, calls[p.given], p.given, [1]);
      turns' := PileUp(pics, d0, calls, turns + [Next([1])], i, upto);
    }
  }

  /** The last image before a call in the same update. */
  lemma {:induction false} LastImage(calls: seq<Call>) returns (i: nat)
    requires ImageSince(calls)
    ensures i < |calls| && Image(calls[i]) && forall k :: i < k < |calls| ==> !Ends(calls[k]) && !Image(calls[k])
    decreases |calls|
  {
    var n := |calls| - 1;
    if Image(calls[n]) {
      i := n;
    } else {
      i := LastImage(calls[..n]);
    }
  }

  /** The first call that comes too late. */
  lemma {:induction false} FirstUnsafe(calls: seq<Call>) returns (j: nat)
    requires !Safe(calls)
    ensures j < |calls| && Safe(calls[..j]) && Exposed(calls[j]) && ImageSince(calls[..j])
    decreases |calls|
  {
    var n := |calls| - 1;
    if Safe(calls[..n]) {
      j := n;
    } else {
      j := FirstUnsafe(calls[..n]);
      assert calls[..n][..j] == calls[..j];
    }
  }

  function Other(color: seq<Byte>): seq<Byte> {
    if color == [0, 0, 0, 0] then [1, 1, 1, 1] else [0, 0, 0, 0]
  }

  /** A call with bytes in the receive buffer that has to wait: it ends up in the queue with other bytes. */
  lemma GiveExposed(pics: Q.Pictures, d: Q.DisplayState, c: Call, n: nat) returns (front: seq<Byte>, bad: Q.Action)
    requires d.queue != [] && Exposed(c) && NoViews(d.queue)
    ensures Announces(front) && !bad.ImageAction? && [bad] != ActionOf(c, n) && |ActionOf(c, n)| == 1
    ensures var d1 := Give(pics, d, c, n, front);
            var d2 := if c.FillRect? then Q.Handle(pics, d1, Q.Overwrite(Q.All(Other(c.color)))) else d1;
            d2 == d.(issued := d2.issued, queue := d.queue + [bad])
  {
    if c.FillRect? {
      front, bad := [1], Q.FillAction(c.x, c.y, c.w, c.h, Other(c.color), true);
      var d1 := Give(pics, d, c, n, front);
      LastRecolored(d.queue, ActionOf(c, n)[0], Other(c.color));
    } else {
      front := [if c.data[0] == 1 then 3 else 1];
      bad := Q.BlitAction(c.x, c.y, c.w, c.h, (front + c.data)[..c.w * c.h * 4]);
      assert bad.data[0] != c.data[0];
    }
  }

  lemma LastRecolored(q: seq<Q.Action>, a: Q.Action, color: seq<Byte>)
    requires NoViews(q)
    ensures Q.Overwritten(q + [a], Q.All(color)) == q + [Q.Recolored(a, color)]
  {
    var r := Q.Overwritten(q + [a], Q.All(color));
    forall i | 0 <= i < |q|
      ensures r[i] == q[i]
    {
      assert q[i] in q && r[i] == Q.Recolored((q + [a])[i], Q.All(color)(i));
    }
    assert r[|q|] == Q.Recolored(a, Q.All(color)(|q|));
  }

  lemma {:induction false} MoreCalls(calls: seq<Call>, j: nat)
    requires j < |calls|
    ensures ActionsOf(calls[..j]) + ActionOf(calls[j], j) <= ActionsOf(calls)
    decreases |calls|
  {
    var n := |calls| - 1;
    if j < n {
      MoreCalls(calls[..n], j);
      assert calls[..n][..j] == calls[..j];
    }
  }

  lemma BehindImage(pics: Q.Pictures, calls: seq<Call>, p: Progress)
    requires p.given < |calls| && p.d.queue == [] && Unloaded(p.d, p.given, |calls|) && Image(calls[p.given])
    ensures Fair(calls, p, Next([1]))
    ensures var p' := Take(pics, calls, p, Next([1]));
            p'.given == p.given + 1 && Behind(p'.d, p.given)
            && p'.d.loaded == p.d.loaded
  {
    GiveImage(pics, p.d, calls[p.given], p.given, [1]);
  }

  lemma NoneBetween(calls: seq<Call>, j: nat) returns (i: nat)
    requires j <= |calls| && ImageSince(calls[..j])
    ensures i < j && Image(calls[i]) && NoImages(calls, i + 1, j)
  {
    i := LastImage(calls[..j]);
    assert calls[i] == calls[..j][i];
    forall k | i < k < j
      ensures !Ends(calls[k]) && !Image(calls[k])
    {
      assert calls[..j][k] == calls[k];
    }
  }

  lemma GetToImage(pics: Q.Pictures, d0: Q.DisplayState, calls: seq<Call>, i: nat) returns (turns: seq<Turn>)
    requires Fresh(d0, |calls|) && i < |calls| && Image(calls[i])
    ensures AllFair(pics, d0, calls, turns)
    ensures var p := TakeAll(pics, d0, calls, turns);
            p.given == i + 1 && Behind(p.d, i)
            && Unloaded(p.d, i + 1, |calls|)
  {
    turns := ServeAll(pics, d0, calls, [], i);
    BehindImage(pics, calls, TakeAll(pics, d0, calls, turns));
    OneMoreTurn(pics, d0, calls, turns, Next([1]));
    turns := turns + [Next([1])];
  }

  /** Up to the first call that comes too late, with the image before it not loaded. */
  lemma GetBehind(pics: Q.Pictures, d0: Q.DisplayState, calls: seq<Call>, j: nat) returns (turns: seq<Turn>, i: nat)
    requires Fresh(d0, |calls|) && j < |calls| && ImageSince(calls[..j])
    ensures AllFair(pics, d0, calls, turns)
    ensures var p := TakeAll(pics, d0, calls, turns); i < p.given == j && Behind(p.d, i) && Unloaded(p.d, j, |calls|)
  {
    i := NoneBetween(calls, j);
    turns := GetToImage(pics, d0, calls, i);
    assert TakeAll(pics, d0, calls, turns).given == i + 1 && !Ends(calls[i]);
    turns := PileUp(pics, d0, calls, turns, i, j);
  }

  /** What is in the queue, or was executed, at a place where the calls ask for something else. */
  ghost predicate Wrong(log: seq<Q.Action>, calls: seq<Call>) {
    exists at: nat :: at < |log| && at < |ActionsOf(calls)| && log[at] != ActionsOf(calls)[at]
  }

  lemma BecomesWrong(calls: seq<Call>, j: nat, applied: seq<Q.Action>, queue: seq<Q.Action>, bad: Q.Action)
    requires j < |calls| && |applied + queue| == |ActionsOf(calls[..j])|
    requires |ActionOf(calls[j], j)| == 1 && ActionOf(calls[j], j) != [bad]
    ensures Wrong(applied + (queue + [bad]), calls)
  {
    MoreCalls(calls, j);
    var at := |applied + queue|;
    assert (applied + (queue + [bad]))[at] == bad && ActionsOf(calls)[at] == ActionOf(calls[j], j)[0];
  }

  lemma GetWrong(pics: Q.Pictures, d0: Q.DisplayState, calls: seq<Call>, turns: seq<Turn>, i: nat)
      returns (turns': seq<Turn>)
    requires Fresh(d0, |calls|) && AllFair(pics, d0, calls, turns)
    requires var p := TakeAll(pics, d0, calls, turns);
             && p.given < |calls| && Behind(p.d, i) && Unloaded(p.d, p.given, |calls|)
             && Safe(calls[..p.given]) && Exposed(calls[p.given]) && ImageSince(calls[..p.given])
    ensures AllFair(pics, d0, calls, turns')
    ensures var p, p' := TakeAll(pics, d0, calls, turns), TakeAll(pics, d0, calls, turns');
            && p'.given == p.given + 1 && Behind(p'.d, i) && Unloaded(p'.d, p'.given, |calls|)
            && Wrong(p'.d.applied + p'.d.queue, calls)
  {
    var p := TakeAll(pics, d0, calls, turns);
    var j, c := p.given, calls[p.given];
    RunHands(pics, d0, calls, turns);
    assert |p.d.applied + p.d.queue| == |ActionsOf(calls[..j])|;
    var front, bad := GiveExposed(pics, p.d, c, j);
    OneMoreTurn(pics, d0, calls, turns, Next(front));
    turns' := turns + [Next(front)];
    if c.FillRect? {
      var over := Meanwhile(Q.Overwrite(Q.All(Other(c.color))));
      OneMoreTurn(pics, d0, calls, turns', over);
      turns' := turns' + [over];
    }
    BecomesWrong(calls, j, p.d.applied, p.d.queue, bad);
  }

  lemma StaysWrong(log: seq<Q.Action>, log': seq<Q.Action>, calls: seq<Call>)
    requires Wrong(log, calls) && log <= log'
    ensures Wrong(log', calls) && log' != ActionsOf(calls)
  {
    var at: nat :| at < |log| && at < |ActionsOf(calls)| && log[at] != ActionsOf(calls)[at];
    assert log'[at] == log[at];
  }

  /** The image is loaded at last, and all calls that are left are made. */
  lemma Finish(pics: Q.Pictures, d0: Q.DisplayState, calls: seq<Call>, turns: seq<Turn>, i: nat)
      returns (turns': seq<Turn>)
    requires AllFair(pics, d0, calls, turns)
    requires var p := TakeAll(pics, d0, calls, turns);
             p.given <= |calls| && Behind(p.d, i)
             && Unloaded(p.d, p.given, |calls|) && i < p.given
    ensures Complete(pics, d0, calls, turns')
    ensures var d := TakeAll(pics, d0, calls, turns).d;
            d.applied + d.queue <= TakeAll(pics, d0, calls, turns').d.applied
  {
    var d := TakeAll(pics, d0, calls, turns).d;
    var load := Meanwhile(Q.Load(i, d.queue[0].w, d.queue[0].h));
    OneMoreTurn(pics, d0, calls, turns, load);
    LoadDrains(pics, d);
    turns' := ServeAll(pics, d0, calls, turns + [load], |calls|);
  }

  lemma UnsafeGoesWrong(pics: Q.Pictures, d0: Q.DisplayState, calls: seq<Call>) returns (turns: seq<Turn>)
    requires Fresh(d0, |calls|) && !Safe(calls)
    ensures Complete(pics, d0, calls, turns) && TakeAll(pics, d0, calls, turns).d.applied != ActionsOf(calls)
  {
    var j := FirstUnsafe(calls);
    var i;
    turns, i := GetBehind(pics, d0, calls, j);
    turns := GetWrong(pics, d0, calls, turns, i);
    var d := TakeAll(pics, d0, calls, turns).d;
    turns := Finish(pics, d0, calls, turns, i);
    StaysWrong(d.applied + d.queue, TakeAll(pics, d0, calls, turns).d.applied, calls);
  }

  /** Whatever the browser loads and whenever, and whatever arrives in the receive buffer meanwhile, the display
      executes the calls as they were made: exactly if, in no update, a fill with a view of the receive buffer or a
      blit from it comes after an image. */
  lemma ExactlySafe(pics: Q.Pictures, d0: Q.DisplayState, calls: seq<Call>)
    requires Fresh(d0, |calls|)
    ensures (forall turns :: Complete(pics, d0, calls, turns) ==>
            TakeAll(pics, d0, calls, turns).d.applied == ActionsOf(calls))
            <==> Safe(calls)
  {
    if Safe(calls) {
      forall turns | Complete(pics, d0, calls, turns)
        ensures TakeAll(pics, d0, calls, turns).d.applied == ActionsOf(calls)
      {
        SafeIsExact(pics, d0, calls, turns);
      }
    } else {
      var turns := UnsafeGoesWrong(pics, d0, calls);
    }
  }
}
