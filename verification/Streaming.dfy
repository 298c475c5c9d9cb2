/**
 Processing a byte stream that arrives in pieces.  A machine takes one step at a time from the unread bytes; it may
 run out of bytes, and it may be held up at certain steps until the display has caught up.  `Batch` is the machine
 with all bytes at hand and nothing to hold it up; `Conn` is the machine as the socket and the display drive it.
 */
module Streaming {
  import opened Bytes
  import opened Decoding
  import opened Wrappers

  /** A step is `Done` when the machine may go on at once.  After a step for which `header` holds it asks whether
      the display is still busy. */
  datatype Machine<!S(!new)> = Machine(
    step: (S, seq<Byte>) -> Outcome<S>,
    header: S -> bool,
    size: (S, seq<Byte>) -> nat)
  {
    ghost predicate Valid() {
      && (forall c, q :: step(c, q).verdict.Done? ==> size(step(c, q).state, step(c, q).rest) < size(c, q))
      && (forall c, q, more :: StepResumes(c, q, more))
      && (forall c, q :: header(c) && step(c, q).verdict.Done? ==> Hungry(step(c, q).state))
      && (forall c, q :: step(c, q).verdict.Wait? ==> header(step(c, q).state) == header(c))
    }

    /** Without bytes there is nothing to do. */
    ghost predicate Hungry(c: S) {
      step(c, []) == Outcome(c, [], [], Wait)
    }

    /** A step that lacks bytes can be completed later; any other does not see the bytes behind it. */
    ghost predicate StepResumes(c: S, q: seq<Byte>, more: seq<Byte>) {
      var o := step(c, q);
      Resumes(o, step(o.state, o.rest + more), step(c, q + more), more)
    }
  }

  /** All steps that the bytes allow. */
  function Batch<S(!new)>(m: Machine<S>, c: S, q: seq<Byte>): (o: Outcome<S>)
    requires m.Valid()
    ensures !o.verdict.Done?
    decreases m.size(c, q)
  {
    var o := m.step(c, q);
    if o.verdict.Done? then Batch(m, o.state, o.rest).After(o.calls) else o
  }

  /** The same, with the display found busy after `patience` headers: what was to be done after that header is
      not done, and no further step is taken. */
  datatype Run<+S> = Run(outcome: Outcome<S>, held: bool, lost: seq<Call>)
  {
    function After(before: seq<Call>): Run<S> {
      this.(outcome := outcome.After(before))
    }
  }

  function RunUntil<S(!new)>(m: Machine<S>, c: S, q: seq<Byte>, patience: Option<nat>): (r: Run<S>)
    requires m.Valid()
    decreases m.size(c, q)
  {
    var o := m.step(c, q);
    if !o.verdict.Done? then Run(o, false, [])
    else if m.header(c) && patience == Some(0) then Run(o.(calls := []), true, o.calls)
    else
      var patience' := if m.header(c) && patience.Some? then Some(patience.value - 1) else patience;
      RunUntil(m, o.state, o.rest, patience').After(o.calls)
  }

  // ---- Both are the same -----------------------------------------------------------------------------

  lemma AfterTwice<S>(o: Outcome<S>, a: seq<Call>, b: seq<Call>)
    ensures o.After(a).After(b) == o.After(b + a)
  {
    assert b + (a + o.calls) == (b + a) + o.calls;
  }

  lemma AfterNothing<S>(o: Outcome<S>)
    ensures o.After([]) == o
  {
    assert [] + o.calls == o.calls;
  }

  /** More bytes after a batch: the same as all of them in one batch. */
  lemma {:induction false} BatchResumes<S(!new)>(m: Machine<S>, c: S, q: seq<Byte>, more: seq<Byte>)
    requires m.Valid()
    ensures var first := Batch(m, c, q);
            Batch(m, c, q + more) ==
            if first.verdict.Wait? then Batch(m, first.state, first.rest + more).After(first.calls)
              else first.Then(more)
    decreases m.size(c, q)
  {
    var o := m.step(c, q);
    assert m.StepResumes(c, q, more);
    if o.verdict.Done? {
      BatchResumes(m, o.state, o.rest, more);
      var first := Batch(m, o.state, o.rest);
      if first.verdict.Wait? {
        AfterTwice(Batch(m, first.state, first.rest + more), first.calls, o.calls);
      }
    } else if o.verdict.Wait? {
      WaitThenBatch(m, c, q, more);
    }
  }

  lemma WaitThenBatch<S(!new)>(m: Machine<S>, c: S, q: seq<Byte>, more: seq<Byte>)
    requires m.Valid() && m.step(c, q).verdict.Wait?
    ensures var o := m.step(c, q); Batch(m, c, q + more) == Batch(m, o.state, o.rest + more).After(o.calls)
  {
    var o := m.step(c, q);
    assert m.StepResumes(c, q, more);
    var again := m.step(o.state, o.rest + more);
    if again.verdict.Done? {
      AfterTwice(Batch(m, again.state, again.rest), again.calls, o.calls);
    }
  }

  /** A batch that ended for want of bytes has nothing left to do. */
  lemma {:induction false} BatchIsQuiet<S(!new)>(m: Machine<S>, c: S, q: seq<Byte>)
    requires m.Valid() && Batch(m, c, q).verdict.Wait?
    ensures var o := Batch(m, c, q); Batch(m, o.state, o.rest) == Outcome(o.state, o.rest, [], Wait)
    decreases m.size(c, q)
  {
    var o := m.step(c, q);
    if o.verdict.Done? {
      BatchIsQuiet(m, o.state, o.rest);
    } else {
      assert m.StepResumes(c, q, []);
      assert q + [] == q && o.rest + [] == o.rest;
      var again := m.step(o.state, o.rest);
      assert o == again.After(o.calls);
      assert |again.calls| == 0;
    }
  }

  /** Going on after being held up: the calls that were not made are lost, nothing else is different. */
  lemma {:induction false} RunThenBatch<S(!new)>(m: Machine<S>, c: S, q: seq<Byte>, patience: Option<nat>)
    requires m.Valid()
    ensures var r := RunUntil(m, c, q, patience);
            && (!r.held ==> r.outcome == Batch(m, c, q) && r.lost == [])
            && (r.held ==> Batch(m, c, q) == Batch(m, r.outcome.state, r.outcome.rest).After(r.outcome.calls + r.lost))
    decreases m.size(c, q)
  {
    var o := m.step(c, q);
    if o.verdict.Done? {
      if m.header(c) && patience == Some(0) {
        assert [] + o.calls == o.calls;
      } else {
        var patience' := if m.header(c) && patience.Some? then Some(patience.value - 1) else patience;
        RunThenBatch(m, o.state, o.rest, patience');
        var r := RunUntil(m, o.state, o.rest, patience');
        if r.held {
          AfterTwice(Batch(m, r.outcome.state, r.outcome.rest), r.outcome.calls + r.lost, o.calls);
          assert o.calls + (r.outcome.calls + r.lost) == (o.calls + r.outcome.calls) + r.lost;
        }
      }
    }
  }

  /** What a run still does, after the calls made before. */
  ghost predicate Ahead<S(!new)>(m: Machine<S>, c: S, q: seq<Byte>, patience: Option<nat>, before: seq<Call>,
                                 all: Run<S>)
    requires m.Valid()
  {
    RunUntil(m, c, q, patience).After(before) == all
  }

  function Patience(header: bool, patience: Option<nat>): Option<nat>
    requires header ==> patience != Some(0)
  {
    if header && patience.Some? then Some(patience.value - 1) else patience
  }

  lemma AheadOn<S(!new)>(m: Machine<S>, c: S, q: seq<Byte>, patience: Option<nat>, before: seq<Call>, all: Run<S>,
                         o: Outcome<S>)
    requires m.Valid() && Ahead(m, c, q, patience, before, all)
    requires m.step(c, q) == o && o.verdict.Done? && (m.header(c) ==> patience != Some(0))
    ensures Ahead(m, o.state, o.rest, Patience(m.header(c), patience), before + o.calls, all)
  {
    AfterTwice(RunUntil(m, o.state, o.rest, Patience(m.header(c), patience)).outcome, o.calls, before);
  }

  lemma AheadStops<S(!new)>(m: Machine<S>, c: S, q: seq<Byte>, patience: Option<nat>, before: seq<Call>, all: Run<S>,
                            o: Outcome<S>)
    requires m.Valid() && Ahead(m, c, q, patience, before, all) && m.step(c, q) == o && !o.verdict.Done?
    ensures all == Run(o.After(before), false, [])
  {
  }

  lemma AheadHeld<S(!new)>(m: Machine<S>, c: S, q: seq<Byte>, before: seq<Call>, all: Run<S>, o: Outcome<S>)
    requires m.Valid() && Ahead(m, c, q, Some(0), before, all) && m.header(c) && m.step(c, q) == o && o.verdict.Done?
    ensures all == Run(Outcome(o.state, o.rest, before, Done), true, o.calls)
  {
    assert before + [] == before;
  }

  lemma {:induction false} HeldIsHungry<S(!new)>(m: Machine<S>, c: S, q: seq<Byte>, patience: Option<nat>)
    requires m.Valid()
    ensures var r := RunUntil(m, c, q, patience); r.held ==> m.Hungry(r.outcome.state) && !r.outcome.verdict.Fail?
    decreases m.size(c, q)
  {
    var o := m.step(c, q);
    if o.verdict.Done? && !(m.header(c) && patience == Some(0)) {
      var patience' := if m.header(c) && patience.Some? then Some(patience.value - 1) else patience;
      HeldIsHungry(m, o.state, o.rest, patience');
    }
  }

  // ---- The connection -------------------------------------------------------------------------------

  /** A message from the socket, or the display reporting that it has caught up. */
  datatype Event = Recv(bytes: seq<Byte>, patience: Option<nat>) | Flushed(patience: Option<nat>)

  /** The machine, the unread bytes, whether it waits for the display or has failed, and the calls made.  The last
      two are history: calls as they would be without losses, and how often calls were lost. */
  datatype Conn<+S> = Conn(client: S, unread: seq<Byte>, flushing: bool, failed: bool, calls: seq<Call>,
                           ideal: seq<Call>, losses: nat)

  function Opened<S>(c: S): Conn<S> {
    Conn(c, [], false, false, [], [], 0)
  }

  /** What `_handleMessage` does. */
  function Process<S(!new)>(m: Machine<S>, k: Conn<S>, patience: Option<nat>): Conn<S>
    requires m.Valid()
  {
    if k.unread == [] || k.failed || k.flushing then k
    else
      var r := RunUntil(m, k.client, k.unread, patience);
      Conn(r.outcome.state, r.outcome.rest, r.held, r.outcome.verdict.Fail?, k.calls + r.outcome.calls,
           k.ideal + r.outcome.calls + r.lost, k.losses + if r.lost == [] then 0 else 1)
  }

  function Handle<S(!new)>(m: Machine<S>, k: Conn<S>, e: Event): Conn<S>
    requires m.Valid()
  {
    match e
    case Recv(bytes, patience) => Process(m, k.(unread := k.unread + bytes), patience)
    case Flushed(patience) => if k.flushing then Process(m, k.(flushing := false), patience) else k
  }

  function HandleAll<S(!new)>(m: Machine<S>, k: Conn<S>, events: seq<Event>): Conn<S>
    requires m.Valid()
    decreases |events|
  {
    if events == [] then k else Handle(m, HandleAll(m, k, events[..|events| - 1]), events[|events| - 1])
  }

  function Arrived(events: seq<Event>): seq<Byte> {
    if events == [] then []
    else
      var e := events[|events| - 1];
      Arrived(events[..|events| - 1]) + if e.Recv? then e.bytes else []
  }

  /** What the rest of the bytes would give, after all that was or should have been called, is what one batch of all
      bytes gives; and a connection that is not held up has used its bytes as far as it can. */
  ghost predicate Inv<S(!new)>(m: Machine<S>, c: S, bytes: seq<Byte>, k: Conn<S>)
    requires m.Valid()
  {
    && Accounted(k)
    && (k.failed ==> !k.flushing && Batch(m, c, bytes).verdict.Fail? && Batch(m, c, bytes).calls == k.ideal)
    && (!k.failed ==> Batch(m, c, bytes) == Batch(m, k.client, k.unread).After(k.ideal))
    && (k.flushing ==> m.Hungry(k.client))
    && (!k.failed && !k.flushing ==> Quiet(m, k.client, k.unread))
  }

  ghost predicate Accounted<S>(k: Conn<S>) {
    (k.losses == 0 ==> k.calls == k.ideal) && |k.calls| + k.losses <= |k.ideal|
  }

  ghost predicate Quiet<S(!new)>(m: Machine<S>, c: S, q: seq<Byte>)
    requires m.Valid()
  {
    Batch(m, c, q) == Outcome(c, q, [], Wait)
  }

  /** Bytes that arrive keep what has been processed so far; they need not be processed yet. */
  lemma MoreBytes<S(!new)>(m: Machine<S>, c: S, bytes: seq<Byte>, k: Conn<S>, more: seq<Byte>)
    requires m.Valid() && !k.failed && Batch(m, c, bytes) == Batch(m, k.client, k.unread).After(k.ideal)
    ensures Batch(m, c, bytes + more) == Batch(m, k.client, k.unread + more).After(k.ideal)
  {
    BatchResumes(m, c, bytes, more);
    BatchResumes(m, k.client, k.unread, more);
    var o := Batch(m, k.client, k.unread);
    if o.verdict.Wait? {
      AfterTwice(Batch(m, o.state, o.rest + more), o.calls, k.ideal);
    }
  }

  /** Processing. */
  lemma ProcessKeepsInv<S(!new)>(m: Machine<S>, c: S, bytes: seq<Byte>, k: Conn<S>, patience: Option<nat>)
    requires m.Valid() && Accounted(k) && !k.failed && !k.flushing
    requires Batch(m, c, bytes) == Batch(m, k.client, k.unread).After(k.ideal)
    requires k.unread == [] ==> Quiet(m, k.client, [])
    ensures Inv(m, c, bytes, Process(m, k, patience))
  {
    if k.unread != [] {
      var r := RunUntil(m, k.client, k.unread, patience);
      RunThenBatch(m, k.client, k.unread, patience);
      if r.held {
        HeldIsHungry(m, k.client, k.unread, patience);
        AfterTwice(Batch(m, r.outcome.state, r.outcome.rest), r.outcome.calls + r.lost, k.ideal);
        assert k.ideal + (r.outcome.calls + r.lost) == k.ideal + r.outcome.calls + r.lost;
      } else {
        assert k.ideal + r.outcome.calls + [] == k.ideal + r.outcome.calls;
        if r.outcome.verdict.Wait? {
          BatchIsQuiet(m, k.client, k.unread);
          assert k.ideal + r.outcome.calls + [] == k.ideal + r.outcome.calls;
        }
      }
    }
  }

  lemma HandleKeepsInv<S(!new)>(m: Machine<S>, c: S, bytes: seq<Byte>, k: Conn<S>, e: Event)
    requires m.Valid() && Inv(m, c, bytes, k)
    ensures Inv(m, c, bytes + (if e.Recv? then e.bytes else []), Handle(m, k, e))
  {
    match e
    case Recv(more, patience) =>
      var k' := k.(unread := k.unread + more);
      if k.failed {
        BatchResumes(m, c, bytes, more);
      } else {
        MoreBytes(m, c, bytes, k, more);
        if !k.flushing {
          if k'.unread == [] {
            assert k.unread == [];
          }
          ProcessKeepsInv(m, c, bytes + more, k', patience);
        }
      }
    case Flushed(patience) =>
      assert bytes + [] == bytes;
      if k.flushing {
        ProcessKeepsInv(m, c, bytes, k.(flushing := false), patience);
      }
  }

  lemma {:induction false} ReachableInv<S(!new)>(m: Machine<S>, c: S, events: seq<Event>)
    requires m.Valid() && m.Hungry(c)
    ensures Inv(m, c, Arrived(events), HandleAll(m, Opened(c), events))
    decreases |events|
  {
    if events == [] {
      AfterNothing(Batch(m, c, []));
    } else {
      var n := |events| - 1;
      ReachableInv(m, c, events[..n]);
      HandleKeepsInv(m, c, Arrived(events[..n]), HandleAll(m, Opened(c), events[..n]), events[n]);
    }
  }

  /** Chunking does not matter: however the bytes are cut into messages and however often the display holds up
      processing, a connection that is not held up has reached the state of one batch of all its bytes, has left
      the same bytes unread and failed exactly when the batch does; it has made the same calls exactly if no calls
      were lost at a header. */
  lemma ChunkingDoesNotMatter<S(!new)>(m: Machine<S>, c: S, events: seq<Event>)
    requires m.Valid() && m.Hungry(c)
    requires !HandleAll(m, Opened(c), events).flushing
    ensures var k, whole := HandleAll(m, Opened(c), events), Batch(m, c, Arrived(events));
            && (k.failed <==> whole.verdict.Fail?)
            && (!k.failed ==> k.client == whole.state && k.unread == whole.rest)
            && (k.calls == whole.calls <==> k.losses == 0)
  {
    ReachableInv(m, c, events);
    var k := HandleAll(m, Opened(c), events);
    assert k.ideal + [] == k.ideal;
  }

  // ---- Losing no calls ------------------------------------------------------------------------------

  /** No step of the batch that can be held up makes a call. */
  predicate Harmless<S(!new)>(m: Machine<S>, c: S, q: seq<Byte>)
    requires m.Valid()
    decreases m.size(c, q)
  {
    var o := m.step(c, q);
    o.verdict.Done? ==> (m.header(c) ==> o.calls == []) && Harmless(m, o.state, o.rest)
  }

  lemma WaitIsHarmless<S(!new)>(m: Machine<S>, c: S, q: seq<Byte>, more: seq<Byte>)
    requires m.Valid() && Harmless(m, c, q + more) && m.step(c, q).verdict.Wait?
    ensures var o := m.step(c, q); Harmless(m, o.state, o.rest + more)
  {
    assert m.StepResumes(c, q, more);
  }

  lemma {:induction false} RunIsHarmless<S(!new)>(m: Machine<S>, c: S, q: seq<Byte>, patience: Option<nat>,
                                                  more: seq<Byte>)
    requires m.Valid() && Harmless(m, c, q + more)
    ensures var r := RunUntil(m, c, q, patience);
            r.lost == [] && (!r.outcome.verdict.Fail? ==> Harmless(m, r.outcome.state, r.outcome.rest + more))
    decreases m.size(c, q)
  {
    var o := m.step(c, q);
    assert m.StepResumes(c, q, more);
    if o.verdict.Wait? {
      WaitIsHarmless(m, c, q, more);
    } else if o.verdict.Done? && !(m.header(c) && patience == Some(0)) {
      var patience' := if m.header(c) && patience.Some? then Some(patience.value - 1) else patience;
      RunIsHarmless(m, o.state, o.rest, patience', more);
    }
  }

  lemma {:induction false} NoLosses<S(!new)>(m: Machine<S>, c: S, events: seq<Event>, more: seq<Byte>)
    requires m.Valid() && Harmless(m, c, Arrived(events) + more)
    ensures var k := HandleAll(m, Opened(c), events);
            k.losses == 0 && (!k.failed ==> Harmless(m, k.client, k.unread + more))
    decreases |events|
  {
    if events != [] {
      var e := events[|events| - 1];
      var before := events[..|events| - 1];
      var arrived := if e.Recv? then e.bytes else [];
      assert Arrived(events) + more == Arrived(before) + (arrived + more);
      NoLosses(m, c, before, arrived + more);
      var k := HandleAll(m, Opened(c), before);
      assert k.unread + (arrived + more) == (k.unread + arrived) + more;
      assert k.unread + [] == k.unread;
      if !k.failed {
        RunIsHarmless(m, k.client, k.unread + arrived, e.patience, more);
      }
    }
  }

  /** At any time the calls made are the first of those that a batch of these and later bytes makes. */
  lemma CallsSoFar<S(!new)>(m: Machine<S>, c: S, events: seq<Event>, more: seq<Byte>)
    requires m.Valid() && m.Hungry(c) && Harmless(m, c, Arrived(events) + more)
    ensures HandleAll(m, Opened(c), events).calls <= Batch(m, c, Arrived(events) + more).calls
  {
    ReachableInv(m, c, events);
    NoLosses(m, c, events, more);
    BatchResumes(m, c, Arrived(events), more);
  }

  // ---- Steps of a batch -----------------------------------------------------------------------------

  /** The batch comes to another state and other bytes after certain calls, losing none on the way. */
  ghost predicate Leads<S(!new)>(m: Machine<S>, c: S, q: seq<Byte>, c': S, q': seq<Byte>, calls: seq<Call>)
    requires m.Valid()
  {
    && Batch(m, c, q) == Batch(m, c', q').After(calls)
    && (Harmless(m, c', q') ==> Harmless(m, c, q))
  }

  lemma StepLeads<S(!new)>(m: Machine<S>, c: S, q: seq<Byte>, o: Outcome<S>)
    requires m.Valid() && m.step(c, q) == o && o.verdict.Done? && (m.header(c) ==> o.calls == [])
    ensures Leads(m, c, q, o.state, o.rest, o.calls)
  {
  }

  lemma LeadsOn<S(!new)>(m: Machine<S>, c: S, q: seq<Byte>, c1: S, q1: seq<Byte>, calls1: seq<Call>,
                         c2: S, q2: seq<Byte>, calls2: seq<Call>)
    requires m.Valid() && Leads(m, c, q, c1, q1, calls1) && Leads(m, c1, q1, c2, q2, calls2)
    ensures Leads(m, c, q, c2, q2, calls1 + calls2)
  {
    AfterTwice(Batch(m, c2, q2), calls2, calls1);
  }

  lemma TwoStepsLead<S(!new)>(m: Machine<S>, c: S, q: seq<Byte>, c1: S, q1: seq<Byte>, c2: S, q2: seq<Byte>,
                              calls: seq<Call>)
    requires m.Valid() && !m.header(c) && !m.header(c1)
    requires m.step(c, q) == Outcome(c1, q1, [], Done) && m.step(c1, q1) == Outcome(c2, q2, calls, Done)
    ensures Leads(m, c, q, c2, q2, calls)
  {
    StepLeads(m, c, q, Outcome(c1, q1, [], Done));
    StepLeads(m, c1, q1, Outcome(c2, q2, calls, Done));
    LeadsOn(m, c, q, c1, q1, [], c2, q2, calls);
    assert [] + calls == calls;
  }

  lemma LeadsNowhere<S(!new)>(m: Machine<S>, c: S, q: seq<Byte>)
    requires m.Valid()
    ensures Leads(m, c, q, c, q, [])
  {
    AfterNothing(Batch(m, c, q));
  }

  /** When a batch comes to rest, so does every connection that received its bytes, after the same calls. */
  lemma ComesToRest<S(!new)>(m: Machine<S>, c: S, bytes: seq<Byte>, c': S, calls: seq<Call>, events: seq<Event>)
    requires m.Valid() && m.Hungry(c) && m.Hungry(c') && Leads(m, c, bytes, c', [], calls)
    requires Arrived(events) == bytes && !HandleAll(m, Opened(c), events).flushing
    ensures var k := HandleAll(m, Opened(c), events);
            !k.failed && k.client == c' && k.unread == [] && k.calls == calls
  {
    assert bytes + [] == bytes;
    NoLosses(m, c, events, []);
    ChunkingDoesNotMatter(m, c, events);
    assert calls + [] == calls;
  }

  /** Being held up at a header after which the batch would have come to rest. */
  lemma HeldIsLost<S(!new)>(m: Machine<S>, c: S, q: seq<Byte>, o: Outcome<S>)
    requires m.Valid() && m.header(c) && m.step(c, q) == o && o.verdict.Done? && o.rest == [] && q != []
             && o.calls != []
    ensures var k := HandleAll(m, Opened(c), [Recv(q, Some(0)), Flushed(None)]);
            && !k.flushing && !k.failed && k.client == o.state && k.unread == [] && k.calls == []
            && Batch(m, c, q).calls == o.calls
  {
    var events := [Recv(q, Some(0)), Flushed(None)];
    assert events[..1] == [Recv(q, Some(0))] && events[..1][..0] == [];
    assert [] + q == q;
    assert HandleAll(m, Opened(c), events[..1]) == Handle(m, Opened(c), events[0]);
    assert m.Hungry(o.state);
    assert o.calls + [] == o.calls;
  }
}
