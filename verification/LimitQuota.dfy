/**
 The counting semaphore of `pkg/quota/limit/authorizer.go`: a limit on the slots in use and a bounded
 FIFO queue of requests that wait for one.

 `Reserve` blocks between two critical sections, so it is split where its mutex is released: `Enter`
 decides between a slot, a refusal and a place in the queue; `Expire` is the section that runs when the
 caller's context ends while it waits.  Whatever happens in between is the business of other callers.
 */
module LimitQuota {

  /** What the first critical section of `Reserve` decides. */
  datatype Admission = Granted | Refused | Queued

  /** The value of an authorizer.  `W` identifies a waiting request; a granted waiter's channel is closed. */
  datatype Quota<!W> = Quota(limit: int, qLimit: int, taken: int, queue: seq<W>, closed: set<W>)
  {
    /** The semaphore invariant. */
    ghost predicate Inv() {
      && 0 <= taken <= limit
      && |queue| <= qLimit
      && (queue != [] ==> taken == limit)
      && (forall i, j :: 0 <= i < j < |queue| ==> queue[i] != queue[j])
      && (forall w :: w in queue ==> w !in closed)
    }

    /** A request that was never seen before: its channel is made by `Reserve` itself. */
    ghost predicate Fresh(w: W) {
      w !in queue && w !in closed
    }

    function Admit(): Admission {
      if taken + |queue| < limit then Granted
      else if |queue| >= qLimit then Refused
      else Queued
    }

    function Enter(w: W): Quota<W> {
      match Admit()
      case Granted => this.(taken := taken + 1)
      case Refused => this
      case Queued => this.(queue := queue + [w])
    }

    /** The section after the context ended: a closed channel means the slot is ours after all. */
    function Expire(w: W): Quota<W> {
      if w in closed then this else this.(queue := Without(queue, w))
    }

    function Release(): Quota<W> {
      if queue != [] then this.(queue := queue[1..], closed := closed + {queue[0]})
      else if taken < 1 then this.(taken := 0)
      else this.(taken := taken - 1)
    }
  }

  function Initial<W>(limit: int, qLimit: int): Quota<W> {
    Quota(limit, qLimit, 0, [], {})
  }

  /** `list.Remove`: the element leaves the list, the others keep their order. */
  function Without<W(==)>(queue: seq<W>, w: W): seq<W> {
    if queue == [] then []
    else if queue[0] == w then queue[1..]
    else [queue[0]] + Without(queue[1..], w)
  }

  /** In a queue without repetitions `Without` takes out one position. */
  lemma {:induction false} WithoutAt<W>(queue: seq<W>, w: W, k: nat)
    requires k < |queue| && queue[k] == w
    requires forall i :: 0 <= i < k ==> queue[i] != w
    ensures Without(queue, w) == queue[..k] + queue[k+1..]
  {
    if k > 0 {
      var rest := queue[1..];
      WithoutAt(rest, w, k - 1);
      assert [queue[0]] + rest[..k-1] == queue[..k];
      assert rest[k..] == queue[k+1..];
    }
  }

  lemma {:induction false} WithoutAbsent<W>(queue: seq<W>, w: W)
    requires w !in queue
    ensures Without(queue, w) == queue
  {
    if queue != [] {
      WithoutAbsent(queue[1..], w);
      assert queue == [queue[0]] + queue[1..];
    }
  }

  // ---- Runs of critical sections --------------------------------------------------------------------

  /** One critical section, of whichever caller. */
  datatype Call<W> = Enter(w: W) | Expire(w: W) | Release

  function Do<W>(q: Quota<W>, c: Call<W>): Quota<W> {
    match c
    case Enter(w) => q.Enter(w)
    case Expire(w) => q.Expire(w)
    case Release => q.Release()
  }

  function Run<W>(q: Quota<W>, calls: seq<Call<W>>): Quota<W>
    decreases |calls|
  {
    if calls == [] then q else Run(Do(q, calls[0]), calls[1..])
  }

  /** Every request comes with its own channel; nothing else is asked of the callers. */
  ghost predicate Legal<W>(q: Quota<W>, calls: seq<Call<W>>)
    decreases |calls|
  {
    calls != [] ==>
      && (calls[0].Enter? ==> q.Fresh(calls[0].w))
      && Legal(Do(q, calls[0]), calls[1..])
  }

  function Releases<W>(calls: seq<Call<W>>): nat {
    if calls == [] then 0 else (if calls[0].Release? then 1 else 0) + Releases(calls[1..])
  }

  lemma DoKeepsInv<W>(q: Quota<W>, c: Call<W>)
    requires q.Inv()
    requires c.Enter? ==> q.Fresh(c.w)
    ensures Do(q, c).Inv()
  {
    if c.Expire? {
      if c.w in q.queue {
        var k :| 0 <= k < |q.queue| && q.queue[k] == c.w;
        WithoutAt(q.queue, c.w, k);
      } else {
        WithoutAbsent(q.queue, c.w);
      }
    }
  }

  /** Who waits after a section. */
  lemma ExpireMembers<W>(q: Quota<W>, w: W)
    requires q.Inv()
    ensures w in q.closed ==> q.Expire(w) == q
    ensures w !in q.closed ==> forall v :: v in q.Expire(w).queue <==> v in q.queue && v != w
  {
    if w !in q.closed {
      if w in q.queue {
        var k :| 0 <= k < |q.queue| && q.queue[k] == w;
        WithoutAt(q.queue, w, k);
      } else {
        WithoutAbsent(q.queue, w);
      }
    }
  }

  lemma ReleaseMembers<W>(q: Quota<W>)
    requires q.Inv() && q.queue != []
    ensures forall v :: v in q.Release().queue <==> v in q.queue && v != q.queue[0]
    ensures q.Release().taken == q.taken && q.Release().closed == q.closed + {q.queue[0]}
  {
  }

  /** Every run keeps the semaphore invariant, whoever calls `Release` and however often. */
  lemma {:induction false} RunKeepsInv<W>(q: Quota<W>, calls: seq<Call<W>>)
    requires q.Inv() && Legal(q, calls)
    ensures Run(q, calls).Inv()
    decreases |calls|
  {
    if calls != [] {
      DoKeepsInv(q, calls[0]);
      RunKeepsInv(Do(q, calls[0]), calls[1..]);
    }
  }

  /** From a new authorizer with non-negative limits, every reachable state is within its limits. */
  lemma ReachableWithinLimits<W>(limit: int, qLimit: int, calls: seq<Call<W>>)
    requires 0 <= limit && 0 <= qLimit
    requires Legal(Initial(limit, qLimit), calls)
    ensures var q := Run(Initial(limit, qLimit), calls);
            && 0 <= q.taken <= limit && |q.queue| <= qLimit
            && (q.queue != [] ==> q.taken == limit)
  {
    RunKeepsInv(Initial<W>(limit, qLimit), calls);
    RunKeepsLimits(Initial<W>(limit, qLimit), calls);
  }

  lemma {:induction false} RunKeepsLimits<W>(q: Quota<W>, calls: seq<Call<W>>)
    ensures Run(q, calls).limit == q.limit && Run(q, calls).qLimit == q.qLimit
    decreases |calls|
  {
    if calls != [] {
      RunKeepsLimits(Do(q, calls[0]), calls[1..]);
    }
  }

  /** A request is refused exactly when all slots are taken and the queue is full, and it is granted at
      once exactly when a slot is free, which never happens while someone waits. */
  lemma AdmissionIsExact<W>(q: Quota<W>)
    requires q.Inv()
    ensures q.Admit().Refused? <==> q.taken == q.limit && |q.queue| == q.qLimit
    ensures q.Admit().Granted? <==> q.taken < q.limit
    ensures q.Admit().Granted? ==> q.queue == []
  {
    assert |q.queue| == 0 <==> q.queue == [];
  }

  // ---- First come, first served ---------------------------------------------------------------------

  /** `w` waits at position `p`. */
  ghost predicate WaitsAt<W>(q: Quota<W>, w: W, p: nat) {
    p < |q.queue| && q.queue[p] == w
  }

  ghost predicate NeverExpires<W>(w: W, calls: seq<Call<W>>) {
    Expire(w) !in calls
  }

  lemma {:induction false} ClosedStays<W>(q: Quota<W>, w: W, calls: seq<Call<W>>)
    requires w in q.closed
    ensures w in Run(q, calls).closed
    decreases |calls|
  {
    if calls != [] {
      ClosedStays(Do(q, calls[0]), w, calls[1..]);
    }
  }

  /** Another request that gives up leaves a waiter where it is, or one place further on. */
  lemma ExpireAdvances<W>(q: Quota<W>, w: W, p: nat, v: W) returns (p': nat)
    requires q.Inv() && WaitsAt(q, w, p) && v != w
    ensures p' <= p && WaitsAt(q.Expire(v), w, p') && q.Expire(v).closed == q.closed
  {
    p' := p;
    if v in q.queue {
      var k :| 0 <= k < |q.queue| && q.queue[k] == v;
      WithoutAt(q.queue, v, k);
      OneOut(q.queue, k, p);
      if k < p {
        p' := p - 1;
      }
    } else {
      WithoutAbsent(q.queue, v);
    }
  }

  lemma OneOut<T>(s: seq<T>, k: nat, p: nat)
    requires k < |s| && p < |s| && k != p
    ensures var p' := if k < p then p - 1 else p; p' < |s| - 1 && (s[..k] + s[k+1..])[p'] == s[p]
  {
  }

  lemma ReleaseAdvances<W>(q: Quota<W>, w: W, p: nat) returns (p': nat)
    requires q.Inv() && WaitsAt(q, w, p)
    ensures if p == 0 then w in q.Release().closed
            else p' == p - 1 && WaitsAt(q.Release(), w, p') && w !in q.Release().closed
  {
    p' := if p > 0 then p - 1 else p;
  }

  /** One section moves a waiter at most forward: `Release` serves or advances it. */
  lemma StepAdvances<W>(q: Quota<W>, w: W, p: nat, c: Call<W>) returns (p': nat)
    requires q.Inv() && WaitsAt(q, w, p) && c != Expire(w)
    requires c.Enter? ==> q.Fresh(c.w)
    ensures Do(q, c).Inv()
    ensures w !in Do(q, c).closed ==>
              && WaitsAt(Do(q, c), w, p')
              && p' + (if c.Release? then 1 else 0) <= p
    ensures w in Do(q, c).closed ==> c.Release? && p == 0
  {
    DoKeepsInv(q, c);
    p' := p;
    match c
    case Enter(v) =>
    case Release =>
      p' := ReleaseAdvances(q, w, p);
    case Expire(v) =>
      p' := ExpireAdvances(q, w, p, v);
  }

  /** Bounded waiting: with `p` requests ahead, `p + 1` calls of `Release` serve a request that does not
      give up, whatever else is going on. */
  lemma {:induction false} BoundedWaiting<W>(q: Quota<W>, w: W, p: nat, calls: seq<Call<W>>)
    requires q.Inv() && Legal(q, calls) && WaitsAt(q, w, p) && NeverExpires(w, calls)
    requires Releases(calls) >= p + 1
    ensures w in Run(q, calls).closed
    decreases |calls|
  {
    var q' := Do(q, calls[0]);
    var p' := StepAdvances(q, w, p, calls[0]);
    if w in q'.closed {
      ClosedStays(q', w, calls[1..]);
    } else {
      BoundedWaiting(q', w, p', calls[1..]);
    }
  }

  /** First come, first served: of two waiting requests, the later one is served only after the earlier
      one, unless the earlier one gives up. */
  lemma {:induction false} ServedInOrder<W>(q: Quota<W>, w: W, p: nat, v: W, r: nat, calls: seq<Call<W>>)
    requires q.Inv() && Legal(q, calls) && NeverExpires(w, calls)
    requires WaitsAt(q, w, p) && WaitsAt(q, v, r) && p < r
    requires Enter(v) !in calls  // a channel is made for one request only
    ensures v in Run(q, calls).closed ==> w in Run(q, calls).closed
    decreases |calls|
  {
    if calls != [] {
      var q' := Do(q, calls[0]);
      var p' := StepAdvances(q, w, p, calls[0]);
      if w in q'.closed {
        ClosedStays(q', w, calls[1..]);
      } else if calls[0] == Expire(v) {
        WithoutAt(q.queue, v, r);
        GoneStaysGone(q', v, calls[1..]);
      } else {
        var r' := StepAdvances(q, v, r, calls[0]);
        assert p' < r' by { PositionsKeepOrder(q, p, r, p', r', calls[0]); }
        ServedInOrder(q', w, p', v, r', calls[1..]);
      }
    }
  }

  /** No newcomer takes a slot while a request that does not give up waits. */
  lemma {:induction false} NoOvertaking<W>(q: Quota<W>, w: W, p: nat, calls: seq<Call<W>>)
    requires q.Inv() && Legal(q, calls) && WaitsAt(q, w, p) && NeverExpires(w, calls)
    ensures w !in Run(q, calls).closed ==> !Run(q, calls).Admit().Granted?
    decreases |calls|
  {
    if calls == [] {
      AdmissionIsExact(q);
    } else {
      var p' := StepAdvances(q, w, p, calls[0]);
      if w in Do(q, calls[0]).closed {
        ClosedStays(Do(q, calls[0]), w, calls[1..]);
      } else {
        NoOvertaking(Do(q, calls[0]), w, p', calls[1..]);
      }
    }
  }

  lemma ExpireKeepsOrder<W>(q: Quota<W>, p: nat, r: nat, p': nat, r': nat, w: W)
    requires q.Inv() && p < r < |q.queue| && w in q.queue && w != q.queue[p] && w != q.queue[r]
    requires Do(q, Expire(w)).Inv()
    requires WaitsAt(Do(q, Expire(w)), q.queue[p], p') && WaitsAt(Do(q, Expire(w)), q.queue[r], r')
    ensures p' < r'
  {
    var k :| 0 <= k < |q.queue| && q.queue[k] == w;
    WithoutAt(q.queue, w, k);
    var after := Do(q, Expire(w)).queue;
    var np := if k < p then p - 1 else p;
    var nr := if k < r then r - 1 else r;
    assert after[np] == q.queue[p] && after[nr] == q.queue[r];
  }

  lemma PositionsKeepOrder<W>(q: Quota<W>, p: nat, r: nat, p': nat, r': nat, c: Call<W>)
    requires q.Inv() && p < r < |q.queue|
    requires c.Enter? ==> q.Fresh(c.w)
    requires c.Expire? ==> c.w != q.queue[p] && c.w != q.queue[r]
    requires WaitsAt(Do(q, c), q.queue[p], p') && WaitsAt(Do(q, c), q.queue[r], r')
    ensures p' < r'
  {
    DoKeepsInv(q, c);
    if c.Expire? {
      if c.w in q.queue {
        ExpireKeepsOrder(q, p, r, p', r', c.w);
      } else {
        WithoutAbsent(q.queue, c.w);
      }
    }
  }

  /** A request that left the queue without a slot never gets one. */
  lemma {:induction false} GoneStaysGone<W>(q: Quota<W>, v: W, calls: seq<Call<W>>)
    requires q.Inv() && Legal(q, calls) && Enter(v) !in calls
    requires v !in q.queue && v !in q.closed
    ensures v !in Run(q, calls).queue && v !in Run(q, calls).closed
    decreases |calls|
  {
    if calls != [] {
      var q' := Do(q, calls[0]);
      DoKeepsInv(q, calls[0]);
      if calls[0].Expire? {
        if calls[0].w in q.queue {
          var k :| 0 <= k < |q.queue| && q.queue[k] == calls[0].w;
          WithoutAt(q.queue, calls[0].w, k);
        } else {
          WithoutAbsent(q.queue, calls[0].w);
        }
      }
      GoneStaysGone(q', v, calls[1..]);
    }
  }

  // ---- The authorizer itself ------------------------------------------------------------------------

  /** The channel of a queued request; closing it hands over the slot. */
  class Channel {
    var closed: bool

    constructor ()
      ensures !closed
    {
      closed := false;
    }
  }

  class LimitQuotaAuthorizer {
    const limit: int
    const qLimit: int
    var taken: int
    var queue: seq<Channel>
    ghost var channels: set<Channel>  // every channel made so far

    ghost function Value(): Quota<Channel>
      reads this, channels
    {
      Quota(limit, qLimit, taken, queue, set c | c in channels && c.closed)
    }

    ghost predicate Valid()
      reads this, channels
    {
      && (forall c :: c in queue ==> c in channels)
      && Value().Inv()
    }

    constructor (limit: int, qLimit: int)
      requires 0 <= limit && 0 <= qLimit
      ensures Valid() && fresh(channels)
      ensures Value() == Initial(limit, qLimit)
    {
      this.limit, this.qLimit := limit, qLimit;
      taken, queue, channels := 0, [], {};
    }

    /** The first critical section of `Reserve`. */
    method Enter() returns (admission: Admission, ch: Channel?)
      requires Valid()
      modifies this
      ensures Valid()
      ensures admission == old(Value()).Admit()
      ensures admission.Granted? ==> Value() == old(Value()).(taken := old(taken) + 1) && ch == null
      ensures admission.Refused? ==> Value() == old(Value()) && ch == null
      ensures admission.Queued? ==>
                && ch != null && fresh(ch) && channels == old(channels) + {ch}
                && Value() == old(Value()).Enter(ch)
      ensures !admission.Queued? ==> channels == old(channels)
    {
      var qSize := |queue|;
      ch := null;
      if taken + qSize < limit {
        taken := taken + 1;
        admission := Granted;
      } else if qSize >= qLimit {
        admission := Refused;
      } else {
        var c := new Channel();
        queue := queue + [c];
        channels := channels + {c};
        ch := c;
        admission := Queued;
      }
    }

    /** The critical section of `Reserve` after the context of a waiting caller ended. */
    method Expire(ch: Channel) returns (granted: bool)
      requires Valid() && ch in channels
      modifies this
      ensures Valid() && channels == old(channels)
      ensures granted <==> ch in old(Value()).closed
      ensures Value() == old(Value()).Expire(ch)
      ensures !granted ==> ch !in queue && ch !in Value().closed
    {
      DoKeepsInv(Value(), Call.Expire(ch));
      if ch.closed {
        granted := true;
      } else {
        if k :| 0 <= k < |queue| && queue[k] == ch {
          WithoutAt(queue, ch, k);
        } else {
          WithoutAbsent(queue, ch);
        }
        queue := Without(queue, ch);
        granted := false;
      }
    }

    method Release() returns (left: int)
      requires Valid()
      modifies this, channels
      ensures Valid() && channels == old(channels)
      ensures Value() == old(Value()).Release()
      ensures left == taken
    {
      DoKeepsInv(Value(), Call<Channel>.Release);
      if queue != [] {
        var ch := queue[0];
        queue := queue[1..];
        ch.closed := true;
      } else if taken < 1 {
        taken := 0;
      } else {
        taken := taken - 1;
      }
      left := taken;
    }
  }
}
