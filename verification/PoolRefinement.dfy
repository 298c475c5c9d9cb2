/**
 The pool object takes the steps of the step system: whenever the object shows a state of the system, each of its
 methods leaves it showing the state after a step that was enabled.
 */
module PoolRefinement {
  import opened IdlePool
  import opened PoolProtocol

  /** The alarm of an idle browser is the timer that the table has for it. */
  ghost predicate Rings(s: Pool, id: Browser, a: Alarm) {
    && id in s.timerOf && (a.Armed? <==> s.timerOf[id] in s.timers)
    && (a.Armed? ==> s.timers[s.timerOf[id]] == Timer(id, a.due))
  }

  /** The object as the system sees it. */
  ghost predicate Shows(pool: IdleBrowserPool, s: Pool)
    reads pool, pool.idleWd.Values
  {
    && pool.Valid() && s.cfg == pool.cfg && s.shutdown == pool.shutdown && s.idle == pool.idleWd.Keys
    && (forall id :: id in pool.idleWd ==>
          id in s.created && s.created[id] == pool.idleWd[id].tm && Rings(s, id, pool.idleWd[id].idle))
  }

  /** What a step asks for beyond what the source checks follows from the invariant. */
  predicate Offered(s: Pool, step: Step) {
    match step
    case PopIdle(t, b) => At(s, t, CheckingOut) && !s.shutdown && b in s.idle
    case CheckAge(t) => t in s.tasks && s.tasks[t].Counted?
    case PushIdle(t) => t in s.tasks && s.tasks[t].Young?
    case Shutdown(closers) => ClosersFor(s, closers)
    case _ => Enabled(s, step)
  }

  lemma GuardsAreRedundant(s: Pool, step: Step)
    requires Inv(s)
    ensures Enabled(s, step) <==> Offered(s, step)
  {
    match step
    case PopIdle(_, b) => assert b in s.idle ==> Watched(s, b);
    case CheckAge(t) => assert Offered(s, step) ==> Holds(s, t, s.tasks[t].b);
    case PushIdle(t) => assert Offered(s, step) ==> Holds(s, t, s.tasks[t].b);
    case Shutdown(_) => assert forall b :: b in s.idle ==> Watched(s, b);
    case _ =>
  }

  /** The step that a checkout has taken. */
  function PopStep(s: Pool, t: Task, wd: PooledBrowser?): Step {
    if s.shutdown then PopShutdown(t) else if wd == null then PopNothing(t) else PopIdle(t, wd.id)
  }

  /** Taking a browser stops its timer and no other. */
  lemma PopKeepsAlarms(s: Pool, t: Task, b: Browser)
    requires Inv(s) && Enabled(s, PopIdle(t, b))
    ensures forall c, a :: c in s.idle && c != b && Rings(s, c, a) ==> Rings(Do(s, PopIdle(t, b)), c, a)
  {
  }

  method Pop(pool: IdleBrowserPool, ghost s: Pool, ghost t: Task) returns (wd: PooledBrowser?, down: bool)
    requires Shows(pool, s) && Inv(s) && At(s, t, CheckingOut)
    modifies pool`idleWd, pool.idleWd.Values
    ensures Enabled(s, PopStep(s, t, wd)) && Shows(pool, Do(s, PopStep(s, t, wd))) && down == s.shutdown
  {
    wd, down := pool.PopIdle();
    ghost var step := PopStep(s, t, wd);
    GuardsAreRedundant(s, step);
    if wd != null {
      PopKeepsAlarms(s, t, wd.id);
    }
  }

  /** The steps that a check-in has taken before it pushes: the check for room, then the check for age. */
  method Decide(pool: IdleBrowserPool, wd: PooledBrowser, now: int, ghost s: Pool, ghost t: Task)
      returns (verdict: Verdict)
    requires Shows(pool, s) && At(s, t, Leased(wd.id)) && wd.id in s.created && s.created[wd.id] == wd.tm
             && now == s.now
    ensures Enabled(s, CloseReuse(t))
    ensures var s1 := Do(s, CloseReuse(t));
            && Shows(pool, s1)
            && (verdict.Reject? <==> At(s1, t, Closing(wd.id)))
            && (!verdict.Reject? ==>
                  && Enabled(s1, CheckAge(t)) && Shows(pool, Do(s1, CheckAge(t)))
                  && (verdict.Recycle? <==> At(Do(s1, CheckAge(t)), t, Closing(wd.id)))
                  && (verdict.Keep? <==> At(Do(s1, CheckAge(t)), t, Young(wd.id))))
  {
    verdict := pool.DecideCheckin(wd, now);
  }

  method Push(pool: IdleBrowserPool, wd: PooledBrowser, now: int, ghost s: Pool, ghost t: Task)
    requires Shows(pool, s) && Inv(s) && At(s, t, Young(wd.id)) && wd.id in s.created && s.created[wd.id] == wd.tm
             && now == s.now
    modifies pool`idleWd, wd`idle
    ensures Enabled(s, PushIdle(t)) && Shows(pool, Do(s, PushIdle(t)))
  {
    GuardsAreRedundant(s, PushIdle(t));
    assert Holds(s, t, wd.id);
    pool.PushIdle(wd, now);
  }

  lemma RingKeepsAlarms(s: Pool, t: Task, b: Browser)
    requires Inv(s) && t !in s.tasks && b in s.timerOf && s.timerOf[b] in s.timers
             && s.timers[s.timerOf[b]].due <= s.now
    ensures forall c, a :: c in s.idle && c != b && Rings(s, c, a) ==> Rings(Do(s, Fire(s.timerOf[b], t)), c, a)
  {
  }

  /** Not a method of the source: the clock reaches the deadline of an idle browser; the callback is about to run. */
  method Ring(pool: IdleBrowserPool, wd: PooledBrowser, ghost s: Pool, ghost t: Task)
    requires Shows(pool, s) && Inv(s) && t !in s.tasks && wd in pool.idleWd.Values
    requires wd.idle.Armed? && wd.idle.due <= s.now
    modifies wd`idle
    ensures Enabled(s, Fire(s.timerOf[wd.id], t)) && Shows(pool, Do(s, Fire(s.timerOf[wd.id], t)))
  {
    RingKeepsAlarms(s, t, wd.id);
    wd.idle := Fired;
  }

  method Evict(pool: IdleBrowserPool, wd: PooledBrowser, ghost s: Pool, ghost t: Task) returns (close: bool)
    requires Shows(pool, s) && At(s, t, Evicting(wd.id))
    modifies pool`idleWd
    ensures Enabled(s, Step.Evict(t)) && Shows(pool, Do(s, Step.Evict(t)))
    ensures close <==> At(Do(s, Step.Evict(t)), t, Closing(wd.id))
  {
    close := pool.EvictIdle(wd);
  }

  /** Every browser in the map is given to the closer that the step has for it. */
  method ShutDown(pool: IdleBrowserPool, ghost s: Pool, ghost closers: map<Task, Browser>)
      returns (closing: map<Browser, PooledBrowser>)
    requires Shows(pool, s) && Inv(s) && ClosersFor(s, closers)
    modifies pool, pool.idleWd.Values
    ensures Enabled(s, Shutdown(closers)) && Shows(pool, Do(s, Shutdown(closers)))
    ensures closing.Keys == closers.Values
  {
    GuardsAreRedundant(s, Shutdown(closers));
    closing := pool.Shutdown();
  }
}
