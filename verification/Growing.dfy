/**
 What calls and images do to the logs of the display: actions are added behind, none is taken back, and while
 something waits nothing is executed.
 */
module Growing {
  import opened Bytes
  import opened Decoding
  import opened Handover
  import opened Rfb
  import opened Streaming
  import opened Viewing
  import Q = RenderQueue

  /** What was executed, then what waits. */
  function Log(d: Q.DisplayState): seq<Q.Action> {
    d.applied + d.queue
  }

  ghost predicate Grows(d: Q.DisplayState, d': Q.DisplayState) {
    && d.applied <= d'.applied && Log(d) <= Log(d') && d.issued <= d'.issued && d'.loaded == d.loaded
    && |Log(d')| - |Log(d)| == |d'.issued| - |d.issued|
    && (d.queue != [] ==> d'.applied == d.applied && d.queue <= d'.queue && d.armed <= d'.armed)
  }

  lemma GrowsOn(d: Q.DisplayState, d1: Q.DisplayState, d2: Q.DisplayState)
    requires Grows(d, d1) && Grows(d1, d2)
    ensures Grows(d, d2)
  {
  }

  lemma {:induction false} ScanLog(pics: Q.Pictures, d: Q.DisplayState)
    ensures var d' := Q.Scan(pics, d);
            Log(d') == Log(d) && d.applied <= d'.applied && d'.issued == d.issued && d'.loaded == d.loaded
    decreases |d.queue|
  {
    if d.queue != [] && Q.Ready(d, d.queue[0]) {
      var d1 := Q.Execute(pics, d, d.queue[0]).(queue := d.queue[1..]);
      ScanLog(pics, d1);
      assert Log(d1) == Log(d);
    }
  }

  lemma IssueGrows(pics: Q.Pictures, d: Q.DisplayState, a: Q.Action, queued: Q.Action)
    ensures var d' := Q.Issue(pics, d, a, queued);
            && Grows(d, d') && d'.issued == d.issued + [a]
            && Log(d') == Log(d) + [if d.queue != [] || a.ImageAction? then queued else a]
  {
    if d.queue != [] || a.ImageAction? {
      var d1 := d.(issued := d.issued + [a], queue := d.queue + [queued]);
      assert Log(d1) == Log(d) + [queued];
      ScanLog(pics, d1);
    } else {
      assert Log(d) + [a] == d.applied + [a];
    }
  }

  lemma BlitGrows(pics: Q.Pictures, d: Q.DisplayState, c: Call, n: nat, front: seq<Byte>)
    requires c.BlitImage?
    ensures Grows(d, Give(pics, d, c, n, front)) && Give(pics, d, c, n, front).issued == d.issued + ActionOf(c, n)
  {
    var (x, y, w, h, data) := (c.x, c.y, c.w, c.h, c.data);
    if |data| == w * h * 4 {
      var buffer, offset := if c.from.Own? then data else front + data, if c.from.Own? then 0 else |front|;
      assert buffer[offset..offset + w * h * 4] == data;
      IssueGrows(pics, d, Q.BlitAction(x, y, w, h, data), Q.BlitAction(x, y, w, h, buffer[..w * h * 4]));
    } else {
      assert d.issued + [] == d.issued;
    }
  }

  lemma GiveGrows(pics: Q.Pictures, d: Q.DisplayState, c: Call, n: nat, front: seq<Byte>)
    ensures Grows(d, Give(pics, d, c, n, front)) && Give(pics, d, c, n, front).issued == d.issued + ActionOf(c, n)
  {
    if c.BlitImage? {
      BlitGrows(pics, d, c, n, front);
    } else if ActionOf(c, n) == [] {
      assert d.issued + [] == d.issued;
    } else {
      IssueGrows(pics, d, ActionOf(c, n)[0], ActionOf(c, n)[0]);
    }
  }

  lemma {:induction false} DeliverGrows(pics: Q.Pictures, fronts: Fronts, n: nat, d: Q.DisplayState, calls: seq<Call>)
    ensures Grows(d, Deliver(pics, fronts, n, d, calls))
    decreases |calls|
  {
    if calls != [] {
      var d1 := Give(pics, d, calls[0], n, fronts(n));
      GiveGrows(pics, d, calls[0], n, fronts(n));
      DeliverGrows(pics, fronts, n + 1, d1, calls[1..]);
      GrowsOn(d, d1, Deliver(pics, fronts, n + 1, d1, calls[1..]));
    }
  }

  lemma GoGrows(u: Machine<Client>, pics: Q.Pictures, fronts: Fronts, k: Conn<Client>, d: Q.DisplayState)
    requires u.Valid()
    ensures Grows(d, Go(u, pics, fronts, k, d).d) && k.calls <= Go(u, pics, fronts, k, d).conn.calls
  {
    if !(k.unread == [] || k.failed || k.flushing) {
      var r := RunUntil(u, k.client, k.unread, Busy(u, pics, fronts, k.client, k.unread, |k.calls|, d));
      DeliverGrows(pics, fronts, |k.calls|, d, r.outcome.calls);
    }
  }

  // ---- Loading the first image ----------------------------------------------------------------------

  /** The load of an image at the head of the queue, in its size. */
  function HeadLoad(d: Q.DisplayState): Happening
    requires d.queue != [] && d.queue[0].ImageAction?
  {
    Loaded(d.queue[0].img, d.queue[0].w, d.queue[0].h)
  }

  /** Once the first image is there, all that follows it is executed too, up to the next image. */
  lemma {:induction false} ScanAtLeast(pics: Q.Pictures, d: Q.DisplayState, n: nat)
    requires n <= |d.queue| && forall i :: 0 <= i < n ==> Q.Ready(d, d.queue[i])
    ensures d.applied + d.queue[..n] <= Q.Scan(pics, d).applied
    decreases |d.queue|
  {
    ScanLog(pics, d);
    if n > 0 {
      var d1 := Q.Execute(pics, d, d.queue[0]).(queue := d.queue[1..]);
      assert forall i :: 0 <= i < n - 1 ==> d1.queue[i] == d.queue[i + 1];
      ScanAtLeast(pics, d1, n - 1);
      assert d1.applied + d1.queue[..n - 1] == d.applied + d.queue[..n];
    }
  }
}
