/**
 Both layers together: the leases of LeaseProtocol over the pool of PoolProtocol.  The wrapped `Allocate`
 of a lease is a checkout from the pool, and the wrapped `Close` of a LimitedBrowser is the Close of the
 pooled browser, which either trashes it or checks it in.  A CreateSession task and its checkout share one
 number; timer callbacks and shutdown closers have numbers of their own.
 */
module Leasing {
  import L = LeaseProtocol
  import P = PoolProtocol
  import opened SessionStorage

  datatype World = World(lease: L.Sys, pool: P.Pool)

  function Init(limit: int, qLimit: int, cfg: P.Config, now: int): World {
    World(L.Init(limit, qLimit), P.Initial(cfg, now))
  }

  datatype Move =
    | Lease(l: L.Step)      // inside the lease layer
    | Pool(p: P.Step)       // inside the pool
    | Checkout(t: L.Task)   // the wrapped Allocate calls Checkout
    | Returned(t: L.Task)   // Checkout returned a browser
    | Refused(t: L.Task)    // Checkout returned an error
    | Close(t: L.Task)      // LimitedBrowser.Close, after release(), calls the pooled browser's Close

  /** The numbers a step takes for new tasks. */
  function NewLeaseTasks(l: L.Step): set<nat> {
    if l.Create? || l.FindToDelete? then {l.t} else if l.Shutdown? then l.closers.Keys else {}
  }

  function NewPoolTasks(p: P.Step): set<nat> {
    if p.Fire? then {p.t} else if p.Shutdown? then p.closers.Keys else {}
  }

  predicate Enabled(w: World, m: Move) {
    match m
    case Lease(l) =>
      L.Enabled(w.lease, l) && !l.AllocateOk? && !l.AllocateFailed? && !l.InnerClose?
      && NewLeaseTasks(l) !! w.pool.tasks.Keys
    case Pool(p) =>
      P.Enabled(w.pool, p) && !p.CheckOut? && !p.CloseTrash? && !p.CloseReuse?
      && NewPoolTasks(p) !! w.lease.tasks.Keys
    case Checkout(t) => t in w.lease.tasks && w.lease.tasks[t].Allocating? && t !in w.pool.tasks
    case Returned(t) =>
      L.Enabled(w.lease, L.AllocateOk(t)) && t in w.pool.tasks && w.pool.tasks[t].Leased?
    case Refused(t) =>
      L.Enabled(w.lease, L.AllocateFailed(t)) && t in w.pool.tasks && w.pool.tasks[t].Finished?
    case Close(t) =>
      L.Enabled(w.lease, L.InnerClose(t)) && P.Enabled(w.pool, CloseStep(w, t))
  }

  function CloseStep(w: World, t: L.Task): P.Step
    requires L.Enabled(w.lease, L.InnerClose(t))
  {
    var pc := w.lease.tasks[t];
    if pc.trash then P.CloseTrash(pc.h) else P.CloseReuse(pc.h)
  }

  function Next(w: World, m: Move): World
    requires Enabled(w, m)
  {
    match m
    case Lease(l) => w.(lease := L.Next(w.lease, l))
    case Pool(p) => w.(pool := P.Do(w.pool, p))
    case Checkout(t) => w.(pool := P.Do(w.pool, P.CheckOut(t)))
    case Returned(t) => w.(lease := L.Next(w.lease, L.AllocateOk(t)))
    case Refused(t) => w.(lease := L.Next(w.lease, L.AllocateFailed(t)))
    case Close(t) => World(L.Next(w.lease, L.InnerClose(t)), P.Do(w.pool, CloseStep(w, t)))
  }

  /** The pool leases a browser exactly for the LimitedBrowsers that are not closed, and for checkouts that
      are about to return. */
  ghost predicate Link(w: World) {
    && (forall h :: h in w.lease.handles && h !in w.lease.closed ==> h in w.pool.tasks && w.pool.tasks[h].Leased?)
    && (forall t :: t in w.pool.tasks && w.pool.tasks[t].Leased? ==>
          t in w.lease.tasks && (w.lease.tasks[t].Allocating? || (t in w.lease.handles && t !in w.lease.closed)))
    && (forall t :: t in w.pool.tasks && (w.pool.tasks[t].CheckingOut? || w.pool.tasks[t].Allocating?) ==>
          t in w.lease.tasks && w.lease.tasks[t].Allocating?)
  }

  ghost predicate Inv(w: World) {
    L.Inv(w.lease) && P.Inv(w.pool) && Link(w)
  }

  lemma LeaseKeepsLink(w: World, l: L.Step)
    requires Link(w) && Enabled(w, Lease(l))
    ensures Link(Next(w, Lease(l)))
  {
    var w' := Next(w, Lease(l));
    LeaseHandlesStay(w.lease, l);
    if l.Shutdown? {
      forall t ensures t in w.lease.tasks ==> t in w'.lease.tasks && w'.lease.tasks[t] == w.lease.tasks[t] {
        L.ShutdownTasks(w.lease, l.closers, t);
      }
    } else {
      L.Moved(w.lease, l);
      if l.t in w.lease.tasks {
        AllocatingStays(w.lease, l);
      }
    }
  }

  lemma LeaseHandlesStay(s: L.Sys, l: L.Step)
    requires L.Enabled(s, l) && !l.AllocateOk? && !l.InnerClose?
    ensures L.Next(s, l).handles == s.handles && L.Next(s, l).closed == s.closed
  {
  }

  lemma AllocatingStays(s: L.Sys, l: L.Step)
    requires L.Enabled(s, l) && !l.AllocateOk? && !l.AllocateFailed? && !l.Shutdown?
    requires l.t in s.tasks
    ensures !s.tasks[l.t].Allocating?
  {
  }

  lemma PoolKeepsLink(w: World, p: P.Step)
    requires Link(w) && Enabled(w, Pool(p))
    ensures Link(Next(w, Pool(p)))
  {
    forall t {
      LeasedStays(w.pool, p, t);
    }
  }

  /** What an internal step of the pool does to checkouts and leases. */
  lemma LeasedStays(s: P.Pool, p: P.Step, t: P.Task)
    requires P.Enabled(s, p) && !p.CheckOut? && !p.CloseTrash? && !p.CloseReuse?
    ensures var s' := P.Do(s, p);
            && (t in s.tasks && s.tasks[t].Leased? ==> t in s'.tasks && s'.tasks[t] == s.tasks[t])
            && (t in s'.tasks && s'.tasks[t].Leased? ==>
                  t in s.tasks && (s.tasks[t].Leased? || s.tasks[t].CheckingOut? || s.tasks[t].Allocating?))
            && (t in s'.tasks && (s'.tasks[t].CheckingOut? || s'.tasks[t].Allocating?) ==>
                  t in s.tasks && (s.tasks[t].CheckingOut? || s.tasks[t].Allocating?))
  {
  }

  lemma PooledClose(s: P.Pool, p: P.Step)
    requires P.Enabled(s, p) && (p.CloseTrash? || p.CloseReuse?)
    ensures var s' := P.Do(s, p);
            p.t in s'.tasks && s'.tasks == s.tasks[p.t := s'.tasks[p.t]]
              && (s'.tasks[p.t].Closing? || s'.tasks[p.t].Counted?)
  {
  }

  lemma InnerCloseFacts(s: L.Sys, t: L.Task)
    requires L.Enabled(s, L.InnerClose(t))
    ensures var s' := L.Next(s, L.InnerClose(t));
            s'.closed == s.closed + [s.tasks[t].h] && s'.handles == s.handles && s'.tasks == s.tasks[t := L.Done]
  {
  }

  lemma CloseKeepsLink(w: World, t: L.Task)
    requires Link(w) && Enabled(w, Close(t))
    ensures Link(Next(w, Close(t)))
  {
    InnerCloseFacts(w.lease, t);
    PooledClose(w.pool, CloseStep(w, t));
    LinkAfterClose(w, Next(w, Close(t)), t, w.lease.tasks[t].h);
  }

  lemma LinkAfterClose(w: World, w': World, t: L.Task, h: L.Handle)
    requires Link(w) && t in w.lease.tasks && w.lease.tasks[t].Released?
    requires w'.lease.closed == w.lease.closed + [h] && w'.lease.handles == w.lease.handles
    requires w'.lease.tasks == w.lease.tasks[t := L.Done]
    requires h in w'.pool.tasks && w'.pool.tasks == w.pool.tasks[h := w'.pool.tasks[h]]
    requires w'.pool.tasks[h].Closing? || w'.pool.tasks[h].Counted?
    ensures Link(w')
  {
  }

  lemma CheckoutKeepsLink(w: World, t: L.Task)
    requires Link(w) && Enabled(w, Checkout(t))
    ensures Link(Next(w, Checkout(t)))
  {
    assert Next(w, Checkout(t)).pool.tasks == w.pool.tasks[t := P.CheckingOut];
  }

  lemma ReturnKeepsLink(w: World, m: Move)
    requires L.OwnerInv(w.lease) && Link(w) && Enabled(w, m) && (m.Returned? || m.Refused?)
    requires forall h :: h in w.lease.closed ==> h in w.lease.handles
    ensures Link(Next(w, m))
  {
    var s, s', t := w.lease, Next(w, m).lease, m.t;
    assert t !in s.handles;
    assert s'.tasks == s.tasks[t := s'.tasks[t]] && s'.closed == s.closed;
    assert s'.handles == if m.Returned? then s.handles + {t} else s.handles;
  }

  lemma LeaseStepOf(w: World, m: Move)
    requires L.Inv(w.lease) && Enabled(w, m)
    ensures L.Inv(Next(w, m).lease)
  {
    match m {
      case Lease(l) => L.StepKeepsInv(w.lease, l);
      case Returned(t) => L.StepKeepsInv(w.lease, L.AllocateOk(t));
      case Refused(t) => L.StepKeepsInv(w.lease, L.AllocateFailed(t));
      case Close(t) => L.StepKeepsInv(w.lease, L.InnerClose(t));
      case Pool(_) =>
      case Checkout(_) =>
    }
  }

  lemma PoolStepOf(w: World, m: Move)
    requires P.Inv(w.pool) && Enabled(w, m)
    ensures P.Inv(Next(w, m).pool)
  {
    match m {
      case Pool(p) => P.StepKeepsInv(w.pool, p);
      case Checkout(t) => P.StepKeepsInv(w.pool, P.CheckOut(t));
      case Close(t) => P.StepKeepsInv(w.pool, CloseStep(w, t));
      case _ =>
    }
  }

  lemma MoveKeepsInv(w: World, m: Move)
    requires Inv(w) && Enabled(w, m)
    ensures Inv(Next(w, m))
  {
    LeaseStepOf(w, m);
    PoolStepOf(w, m);
    match m {
      case Lease(l) => LeaseKeepsLink(w, l);
      case Pool(p) => PoolKeepsLink(w, p);
      case Checkout(t) => CheckoutKeepsLink(w, t);
      case Returned(t) => ReturnKeepsLink(w, m);
      case Refused(t) => ReturnKeepsLink(w, m);
      case Close(t) => CloseKeepsLink(w, t);
    }
  }

  // ---- Runs -----------------------------------------------------------------------------------------

  predicate Valid(w: World, moves: seq<Move>)
    decreases |moves|
  {
    moves != [] ==> Enabled(w, moves[0]) && Valid(Next(w, moves[0]), moves[1..])
  }

  function Run(w: World, moves: seq<Move>): World
    requires Valid(w, moves)
    decreases |moves|
  {
    if moves == [] then w else Run(Next(w, moves[0]), moves[1..])
  }

  lemma {:induction false} RunKeepsInv(w: World, moves: seq<Move>)
    requires Inv(w) && Valid(w, moves)
    ensures Inv(Run(w, moves))
    decreases |moves|
  {
    if moves != [] {
      MoveKeepsInv(w, moves[0]);
      RunKeepsInv(Next(w, moves[0]), moves[1..]);
    }
  }

  lemma InitInv(limit: int, qLimit: int, cfg: P.Config, now: int)
    requires 0 <= limit && 0 <= qLimit
    ensures Inv(Init(limit, qLimit, cfg, now))
  {
    L.InitInv(limit, qLimit);
    P.InitialInv(cfg, now);
  }

  /** The browser behind a LimitedBrowser that is not closed. */
  function BrowserOf(w: World, h: L.Handle): P.Browser
    requires h in w.pool.tasks && w.pool.tasks[h].Leased?
  {
    w.pool.tasks[h].b
  }

  /** Sessions do not share browsers: in every state the server can reach, two stored sessions have two
      browsers, each leased from the pool to that session, neither idle nor closed. */
  lemma SessionsDoNotShare(limit: int, qLimit: int, cfg: P.Config, now: int, moves: seq<Move>, j: Key, k: Key)
    requires 0 <= limit && 0 <= qLimit && Valid(Init(limit, qLimit, cfg, now), moves)
    requires var w := Run(Init(limit, qLimit, cfg, now), moves);
             j in w.lease.store.stored && k in w.lease.store.stored && j != k
    ensures var w := Run(Init(limit, qLimit, cfg, now), moves);
            var g, h := w.lease.store.stored[j], w.lease.store.stored[k];
            && g in w.pool.tasks && w.pool.tasks[g].Leased? && h in w.pool.tasks && w.pool.tasks[h].Leased?
            && BrowserOf(w, g) != BrowserOf(w, h)
            && BrowserOf(w, g) !in w.pool.idle && BrowserOf(w, g) !in w.pool.closed
  {
    var w := Run(Init(limit, qLimit, cfg, now), moves);
    InitInv(limit, qLimit, cfg, now);
    RunKeepsInv(Init(limit, qLimit, cfg, now), moves);
    var g, h := w.lease.store.stored[j], w.lease.store.stored[k];
    assert g !in w.lease.closed && h !in w.lease.closed;
    assert P.Holds(w.pool, g, BrowserOf(w, g)) && P.Holds(w.pool, h, BrowserOf(w, h));
  }

  /** No browser stays leased for nobody: a browser the pool counts as leased belongs to an allocation in
      progress or to a LimitedBrowser that a task or a stored session still owns. */
  lemma NoLeaseIsLost(limit: int, qLimit: int, cfg: P.Config, now: int, moves: seq<Move>, t: P.Task)
    requires 0 <= limit && 0 <= qLimit && Valid(Init(limit, qLimit, cfg, now), moves)
    requires var w := Run(Init(limit, qLimit, cfg, now), moves); t in w.pool.tasks && w.pool.tasks[t].Leased?
    ensures var w := Run(Init(limit, qLimit, cfg, now), moves);
            || (t in w.lease.tasks && w.lease.tasks[t].Allocating?)
            || t in w.lease.store.stored.Values
            || exists u :: L.Owns(w.lease, u, t)
  {
    InitInv(limit, qLimit, cfg, now);
    RunKeepsInv(Init(limit, qLimit, cfg, now), moves);
  }

  /** A LimitedBrowser on its way out always finds the pool's lease of its own browser to close. */
  lemma CloseFindsItsBrowser(limit: int, qLimit: int, cfg: P.Config, now: int, moves: seq<Move>, t: L.Task)
    requires 0 <= limit && 0 <= qLimit && Valid(Init(limit, qLimit, cfg, now), moves)
    requires L.Enabled(Run(Init(limit, qLimit, cfg, now), moves).lease, L.InnerClose(t))
    ensures Enabled(Run(Init(limit, qLimit, cfg, now), moves), Close(t))
  {
    var w := Run(Init(limit, qLimit, cfg, now), moves);
    InitInv(limit, qLimit, cfg, now);
    RunKeepsInv(Init(limit, qLimit, cfg, now), moves);
    OwnedIsOpen(w, t);
  }

  lemma OwnedIsOpen(w: World, t: L.Task)
    requires L.OwnerInv(w.lease) && L.LogInv(w.lease) && Link(w) && L.Enabled(w.lease, L.InnerClose(t))
    ensures P.Enabled(w.pool, CloseStep(w, t))
  {
    assert L.Owns(w.lease, t, w.lease.tasks[t].h);
  }
}
