/**
 The life of a browser lease, from `CreateSession` to the last `Close`, as a step system.

 Every task is one running call: CreateSession (`internal/services/wdsession/service.go`,
 `internal/services/pw/service.go`) through `Allocate` of `internal/browser/limited/manager.go`;
 DeleteSession; or a closer started by the session storage's Shutdown.  A step is one critical section
 of the authorizer or of the storage, or one action outside them whose outcome nobody can foretell.
 A LimitedBrowser is named by the CreateSession task it was made for.
 */
module LeaseProtocol {
  import opened LimitQuota
  import opened SessionStorage

  type Task = nat
  type Handle = Task

  datatype PC =
    | Starting(p: Protocol)              // CreateSession entered
    | Reserving(p: Protocol)             // the storage is not shut down; Reserve comes next
    | Waiting(p: Protocol)               // in Reserve's select, queued
    | Expiring(p: Protocol)              // the context ended; Reserve's second section comes next
    | Allocating(p: Protocol)            // Reserve returned nil; the wrapped Allocate runs
    | GivingBack                         // the wrapped Allocate failed; Release comes next
    | Preparing(p: Protocol)             // the service holds the LimitedBrowser and talks to the browser
    | Storing(k: Key)                    // the session has its id; storage.Add comes next
    | Deleting(k: Key, h: Handle)        // DeleteSession(sess), before storage.Delete
    | Draining(p: Protocol, h: Handle)   // storage.Delete returned true; proxied DELETE, clean-up
    | Closing(h: Handle, trash: bool)    // LimitedBrowser.Close, before release()
    | Released(h: Handle, trash: bool)   // LimitedBrowser.Close, before the wrapped Close
    | QuotaExceeded                      // Reserve: no slot and no room in the queue
    | GaveUp                             // Reserve: the context ended first
    | Failed                             // CreateSession returned an error
    | Stored                             // CreateSession returned the session
    | Done

  datatype Sys = Sys(
    quota: Quota<Task>,
    tasks: map<Task, PC>,
    store: Store<Handle>,
    handles: set<Handle>,      // every LimitedBrowser made so far
    released: seq<Handle>,     // the release() calls of LimitedBrowser.Close, in order
    closed: seq<Handle>,       // the wrapped Close calls, in order
    names: map<Key, Handle>)   // every session id given so far

  function Init(limit: int, qLimit: int): Sys {
    Sys(LimitQuota.Initial(limit, qLimit), map[], Store(map[], false), {}, [], [], map[])
  }

  datatype Step =
    | Create(t: Task, p: Protocol)
    | CheckShutdown(t: Task)
    | EnterReserve(t: Task)
    | Wake(t: Task)
    | ContextDone(t: Task)
    | ExpireReserve(t: Task)
    | AllocateOk(t: Task)
    | AllocateFailed(t: Task)
    | GiveBack(t: Task)
    | PrepareOk(t: Task, id: string)
    | PrepareFailed(t: Task)
    | Add(t: Task)
    | FindToDelete(t: Task, k: Key)
    | Delete(t: Task)
    | Drained(t: Task, trash: bool)
    | Shutdown(closers: map<Task, Key>)
    | ReleaseSlot(t: Task)
    | InnerClose(t: Task)

  predicate Enabled(s: Sys, step: Step) {
    match step
    case Create(t, p) => t !in s.tasks
    case CheckShutdown(t) => t in s.tasks && s.tasks[t].Starting?
    case EnterReserve(t) => t in s.tasks && s.tasks[t].Reserving?
    case Wake(t) => t in s.tasks && s.tasks[t].Waiting? && t in s.quota.closed
    case ContextDone(t) => t in s.tasks && s.tasks[t].Waiting?
    case ExpireReserve(t) => t in s.tasks && s.tasks[t].Expiring?
    case AllocateOk(t) => t in s.tasks && s.tasks[t].Allocating?
    case AllocateFailed(t) => t in s.tasks && s.tasks[t].Allocating?
    case GiveBack(t) => t in s.tasks && s.tasks[t].GivingBack?
    case PrepareOk(t, id) => t in s.tasks && s.tasks[t].Preparing? && Key(s.tasks[t].p, id) !in s.names
    case PrepareFailed(t) => t in s.tasks && s.tasks[t].Preparing?
    case Add(t) => t in s.tasks && s.tasks[t].Storing?
    case FindToDelete(t, k) => t !in s.tasks && k in s.store.stored
    case Delete(t) => t in s.tasks && s.tasks[t].Deleting?
    case Drained(t, trash) => t in s.tasks && s.tasks[t].Draining? && (s.tasks[t].p.Playwright? ==> !trash)
    case Shutdown(closers) => ClosersFor(s, closers)
    case ReleaseSlot(t) => t in s.tasks && s.tasks[t].Closing?
    case InnerClose(t) => t in s.tasks && s.tasks[t].Released?
  }

  /** Shutdown starts one new task for every stored session. */
  predicate ClosersFor(s: Sys, closers: map<Task, Key>) {
    && closers.Keys !! s.tasks.Keys
    && closers.Values == s.store.stored.Keys
    && (forall t, u :: t in closers && u in closers && closers[t] == closers[u] ==> t == u)
  }

  function Goto(s: Sys, t: Task, pc: PC): Sys {
    s.(tasks := s.tasks[t := pc])
  }

  function Next(s: Sys, step: Step): Sys
    requires Enabled(s, step)
  {
    match step
    case Create(t, p) => Goto(s, t, Starting(p))
    case CheckShutdown(t) => Goto(s, t, if s.store.shutdown then Failed else Reserving(s.tasks[t].p))
    case EnterReserve(t) =>
      var pc := match s.quota.Admit()
                case Granted => Allocating(s.tasks[t].p)
                case Refused => QuotaExceeded
                case Queued => Waiting(s.tasks[t].p);
      Goto(s, t, pc).(quota := s.quota.Enter(t))
    case Wake(t) => Goto(s, t, Allocating(s.tasks[t].p))
    case ContextDone(t) => Goto(s, t, Expiring(s.tasks[t].p))
    case ExpireReserve(t) =>
      Goto(s, t, if t in s.quota.closed then Allocating(s.tasks[t].p) else GaveUp).(quota := s.quota.Expire(t))
    case AllocateOk(t) => Goto(s, t, Preparing(s.tasks[t].p)).(handles := s.handles + {t})
    case AllocateFailed(t) => Goto(s, t, GivingBack)
    case GiveBack(t) => Goto(s, t, Failed).(quota := s.quota.Release())
    case PrepareOk(t, id) =>
      var k := Key(s.tasks[t].p, id);
      Goto(s, t, Storing(k)).(names := s.names[k := t])
    case PrepareFailed(t) => Goto(s, t, Closing(t, true))
    case Add(t) =>
      Goto(s, t, if s.store.shutdown then Closing(t, true) else Stored).(store := s.store.Add(s.tasks[t].k, t))
    case FindToDelete(t, k) => Goto(s, t, Deleting(k, s.store.stored[k]))
    case Delete(t) =>
      var pc := s.tasks[t];
      Goto(s, t, if pc.k in s.store.stored then Draining(pc.k.protocol, pc.h) else Done).(
        store := s.store.Delete(pc.k))
    case Drained(t, trash) => Goto(s, t, Closing(s.tasks[t].h, trash))
    case Shutdown(closers) =>
      s.(store := s.store.Shutdown(),
         tasks := s.tasks + (map t | t in closers :: Closing(s.store.stored[closers[t]], true)))
    case ReleaseSlot(t) =>
      Goto(s, t, Released(s.tasks[t].h, s.tasks[t].trash)).(
        quota := s.quota.Release(), released := s.released + [s.tasks[t].h])
    case InnerClose(t) => Goto(s, t, Done).(closed := s.closed + [s.tasks[t].h])
  }

  // ---- The invariant --------------------------------------------------------------------------------

  /** The waiting tasks and the authorizer agree on who is queued and who was granted a slot. */
  ghost predicate QueueInv(s: Sys) {
    && s.quota.Inv()
    && (forall t :: t in s.quota.queue ==> t in s.tasks && (s.tasks[t].Waiting? || s.tasks[t].Expiring?))
    && (forall t :: t in s.tasks && (s.tasks[t].Waiting? || s.tasks[t].Expiring?) ==>
          t in s.quota.queue || t in s.quota.closed)
    && (forall t :: t in s.quota.closed ==> t in s.tasks && !BeforeGrant(s.tasks[t]))
  }

  /** Program counters a task never has once its channel was closed. */
  predicate BeforeGrant(pc: PC) {
    pc.Starting? || pc.Reserving? || pc.QuotaExceeded? || pc.GaveUp?
  }

  /** The task holds LimitedBrowser `h`, whose slot is not released yet. */
  predicate Holds(s: Sys, t: Task, h: Handle) {
    t in s.tasks &&
    match s.tasks[t]
    case Preparing(_) => h == t
    case Storing(_) => h == t
    case Draining(_, g) => h == g
    case Closing(g, _) => h == g
    case _ => false
  }

  /** The task is responsible for closing LimitedBrowser `h`. */
  predicate Owns(s: Sys, t: Task, h: Handle) {
    Holds(s, t, h) || (t in s.tasks && s.tasks[t].Released? && s.tasks[t].h == h)
  }

  /** Each LimitedBrowser that is not closed has one owner: a task, or a stored session. */
  ghost predicate OwnerInv(s: Sys) {
    && (forall t, u, h :: Owns(s, t, h) && Owns(s, u, h) ==> t == u)
    && (forall t, h :: Owns(s, t, h) ==> h in s.handles && h !in s.store.stored.Values)
    && (forall k :: k in s.store.stored ==> s.store.stored[k] in s.handles)
    && (forall j, k :: j in s.store.stored && k in s.store.stored && s.store.stored[j] == s.store.stored[k] ==> j == k)
    && (forall h :: h in s.handles ==> h in s.tasks && !BeforeHandle(s.tasks[h]))
    && (s.store.shutdown ==> s.store.stored == map[])
  }

  /** Program counters of a CreateSession that has no LimitedBrowser yet, or never gets one. */
  predicate BeforeHandle(pc: PC) {
    BeforeGrant(pc) || pc.Waiting? || pc.Expiring? || pc.Allocating? || pc.GivingBack? || pc.Deleting? || pc.Draining?
  }

  /** Session ids stand for one LimitedBrowser. */
  ghost predicate NameInv(s: Sys) {
    && (forall t :: t in s.tasks && s.tasks[t].Storing? ==> s.tasks[t].k in s.names && s.names[s.tasks[t].k] == t)
    && (forall t :: t in s.tasks && s.tasks[t].Deleting? ==>
          s.tasks[t].k in s.names && s.names[s.tasks[t].k] == s.tasks[t].h)
    && (forall k :: k in s.store.stored ==> k in s.names && s.names[k] == s.store.stored[k])
    && (forall t :: t in s.tasks && s.tasks[t].Storing? ==> s.tasks[t].k !in s.store.stored)
  }

  /** The task accounts for one reserved slot. */
  predicate HasSlot(s: Sys, t: Task)
    requires t in s.tasks
  {
    match s.tasks[t]
    case Waiting(_) => t in s.quota.closed
    case Expiring(_) => t in s.quota.closed
    case Allocating(_) => true
    case GivingBack => true
    case Preparing(_) => true
    case Storing(_) => true
    case Draining(_, _) => true
    case Closing(_, _) => true
    case _ => false
  }

  function SlotTasks(s: Sys): set<Task> {
    set t | t in s.tasks && HasSlot(s, t)
  }

  /** Lease conservation: the authorizer's counter is the number of tasks with a slot, plus the number of
      stored sessions. */
  ghost predicate Conserved(s: Sys) {
    s.quota.taken == |SlotTasks(s)| + |s.store.stored|
  }

  ghost predicate Inv(s: Sys) {
    QueueInv(s) && OwnerInv(s) && NameInv(s) && Conserved(s) && LogInv(s) && Covered(s)
  }

  /** Slots are released once and browsers closed once, in that order, and no LimitedBrowser is lost. */
  ghost predicate LogInv(s: Sys) {
    && Distinct(s.released) && Distinct(s.closed)
    && (forall t, h :: Holds(s, t, h) ==> h !in s.released)
    && (forall t, h :: Owns(s, t, h) && !Holds(s, t, h) ==> h in s.released)
    && (forall t, h :: Owns(s, t, h) ==> h !in s.closed)
    && (forall k :: k in s.store.stored ==> s.store.stored[k] !in s.released)
    && (forall h :: h in s.closed ==> h in s.released)
    && (forall h :: h in s.released ==> h in s.handles)
  }

  /** No LimitedBrowser is lost. */
  ghost predicate Covered(s: Sys) {
    forall h :: h in s.handles ==> h in s.closed || h in s.store.stored.Values || exists t :: Owns(s, t, h)
  }

  ghost predicate Distinct(hs: seq<Handle>) {
    forall i, j :: 0 <= i < j < |hs| ==> hs[i] != hs[j]
  }

  lemma InitInv(limit: int, qLimit: int)
    requires 0 <= limit && 0 <= qLimit
    ensures Inv(Init(limit, qLimit))
  {
    assert SlotTasks(Init(limit, qLimit)) == {};
  }

  /** A step other than Shutdown moves one task. */
  lemma Moved(s: Sys, step: Step)
    requires Enabled(s, step) && !step.Shutdown?
    ensures var s' := Next(s, step); step.t in s'.tasks && s'.tasks == s.tasks[step.t := s'.tasks[step.t]]
  {
  }

  predicate Queued(pc: PC) {
    pc.Waiting? || pc.Expiring?
  }

  // ---- The queue ------------------------------------------------------------------------------------

  predicate ChangesQuota(step: Step) {
    step.EnterReserve? || step.ExpireReserve? || step.GiveBack? || step.ReleaseSlot?
  }

  lemma QueueKeptOutside(s: Sys, step: Step)
    requires QueueInv(s) && Enabled(s, step) && !ChangesQuota(step) && !step.Shutdown?
    ensures QueueInv(Next(s, step))
  {
    Moved(s, step);
    assert Next(s, step).quota == s.quota;
  }

  lemma QueueKeptByShutdown(s: Sys, closers: map<Task, Key>)
    requires QueueInv(s) && Enabled(s, Shutdown(closers))
    ensures QueueInv(Next(s, Shutdown(closers)))
  {
    var s' := Next(s, Shutdown(closers));
    assert forall t :: t in s.tasks ==> t in s'.tasks && s'.tasks[t] == s.tasks[t];
    assert forall t :: t in s'.tasks && t !in s.tasks ==> s'.tasks[t].Closing?;
  }

  lemma QueueKeptByEnter(s: Sys, t: Task)
    requires QueueInv(s) && Enabled(s, EnterReserve(t))
    ensures QueueInv(Next(s, EnterReserve(t)))
  {
    DoKeepsInv(s.quota, Call.Enter(t));
  }

  lemma QueueKeptByExpire(s: Sys, t: Task)
    requires QueueInv(s) && Enabled(s, ExpireReserve(t))
    ensures QueueInv(Next(s, ExpireReserve(t)))
  {
    DoKeepsInv(s.quota, Call.Expire(t));
    ExpireMembers(s.quota, t);
  }

  lemma QueueKeptByRelease(s: Sys, s': Sys, t: Task, pc: PC)
    requires QueueInv(s) && t in s.tasks && !Queued(s.tasks[t]) && !BeforeGrant(pc) && !Queued(pc)
    requires s'.quota == s.quota.Release() && s'.tasks == s.tasks[t := pc]
    ensures QueueInv(s')
  {
    DoKeepsInv(s.quota, Call<Task>.Release);
    if s.quota.queue != [] {
      ReleaseMembers(s.quota);
    }
  }

  lemma QueueKept(s: Sys, step: Step)
    requires QueueInv(s) && Enabled(s, step)
    ensures QueueInv(Next(s, step))
  {
    match step {
      case EnterReserve(t) => QueueKeptByEnter(s, t);
      case ExpireReserve(t) => QueueKeptByExpire(s, t);
      case GiveBack(t) => QueueKeptByRelease(s, Next(s, step), t, Failed);
      case ReleaseSlot(t) => QueueKeptByRelease(s, Next(s, step), t, Next(s, step).tasks[t]);
      case Shutdown(closers) => QueueKeptByShutdown(s, closers);
      case _ => QueueKeptOutside(s, step);
    }
  }

  // ---- Owners ---------------------------------------------------------------------------------------

  /** The step passes no LimitedBrowser on. */
  predicate KeepsOwners(step: Step) {
    !step.Shutdown? && !step.AllocateOk? && !step.Add? && !step.Delete? && !step.InnerClose?
  }

  lemma OwnsKept(s: Sys, step: Step, u: Task, h: Handle)
    requires Enabled(s, step) && KeepsOwners(step)
    ensures Owns(Next(s, step), u, h) <==> Owns(s, u, h)
  {
  }

  lemma OwnersKeptOutside(s: Sys, step: Step)
    requires QueueInv(s) && OwnerInv(s) && Enabled(s, step) && KeepsOwners(step)
    ensures OwnerInv(Next(s, step))
  {
    var s' := Next(s, step);
    forall u, h ensures Owns(s', u, h) <==> Owns(s, u, h) {
      OwnsKept(s, step, u, h);
    }
    Moved(s, step);
    assert s'.store == s.store && s'.handles == s.handles;
    if step.t in s.handles {
      assert !BeforeHandle(s.tasks[step.t]);
    }
  }

  lemma OwnersKeptByAllocate(s: Sys, t: Task)
    requires OwnerInv(s) && Enabled(s, AllocateOk(t))
    ensures OwnerInv(Next(s, AllocateOk(t)))
  {
    var s' := Next(s, AllocateOk(t));
    assert t !in s.handles;
    assert forall u, h :: Owns(s', u, h) <==> (if u == t then h == t else Owns(s, u, h));
  }

  lemma OwnersKeptByAdd(s: Sys, t: Task)
    requires OwnerInv(s) && NameInv(s) && Enabled(s, Add(t))
    ensures OwnerInv(Next(s, Add(t)))
  {
    var s' := Next(s, Add(t));
    assert Owns(s, t, t);
    assert forall u, h :: u != t ==> (Owns(s', u, h) <==> Owns(s, u, h));
    if s.store.shutdown {
      assert forall h :: Owns(s', t, h) <==> h == t;
    } else {
      assert forall h :: !Owns(s', t, h);
      assert forall k :: k in s'.store.stored ==> k == s.tasks[t].k || k in s.store.stored;
    }
  }

  lemma OwnersKeptByDelete(s: Sys, t: Task)
    requires OwnerInv(s) && NameInv(s) && Enabled(s, Delete(t))
    ensures OwnerInv(Next(s, Delete(t)))
  {
    var s' := Next(s, Delete(t));
    var k, g := s.tasks[t].k, s.tasks[t].h;
    assert forall u, h :: u != t ==> (Owns(s', u, h) <==> Owns(s, u, h));
    if k in s.store.stored {
      assert s.store.stored[k] == g;
      assert forall h :: Owns(s', t, h) <==> h == g;
    } else {
      assert s'.store.stored == s.store.stored;
    }
  }

  lemma OwnersKeptByInnerClose(s: Sys, t: Task)
    requires OwnerInv(s) && Enabled(s, InnerClose(t))
    ensures OwnerInv(Next(s, InnerClose(t)))
  {
    var s' := Next(s, InnerClose(t));
    assert forall u, h :: Owns(s', u, h) <==> u != t && Owns(s, u, h);
  }

  lemma ShutdownStarts(s: Sys, closers: map<Task, Key>, t: Task)
    requires Enabled(s, Shutdown(closers)) && t in closers
    ensures closers[t] in s.store.stored && t !in s.tasks
    ensures t in Next(s, Shutdown(closers)).tasks
    ensures Next(s, Shutdown(closers)).tasks[t] == PC.Closing(s.store.stored[closers[t]], true)
  {
    assert closers[t] in closers.Values;
  }

  lemma ShutdownOwns(s: Sys, closers: map<Task, Key>, t: Task, h: Handle)
    requires Enabled(s, Shutdown(closers))
    ensures Owns(Next(s, Shutdown(closers)), t, h) <==>
              Owns(s, t, h) || (t in closers && closers[t] in s.store.stored && s.store.stored[closers[t]] == h)
  {
    ShutdownTasks(s, closers, t);
    if t in closers {
      ShutdownStarts(s, closers, t);
    }
    SameOwner(s, Next(s, Shutdown(closers)), t, h);
  }

  lemma SameOwner(s: Sys, s': Sys, t: Task, h: Handle)
    ensures t in s.tasks && t in s'.tasks && s.tasks[t] == s'.tasks[t] ==> (Owns(s', t, h) <==> Owns(s, t, h))
    ensures t in s'.tasks && s'.tasks[t].Closing? ==> (Owns(s', t, h) <==> s'.tasks[t].h == h)
    ensures t !in s'.tasks ==> !Owns(s', t, h)
    ensures t !in s.tasks ==> !Owns(s, t, h)
  {
  }

  lemma ShutdownTasks(s: Sys, closers: map<Task, Key>, t: Task)
    requires Enabled(s, Shutdown(closers))
    ensures var s' := Next(s, Shutdown(closers));
            && (t in s.tasks ==> t in s'.tasks && s'.tasks[t] == s.tasks[t])
            && (t in s'.tasks && t !in s.tasks ==> t in closers && s'.tasks[t].Closing?)
            && (t in closers ==> t in s'.tasks && s'.tasks[t].Closing?)
            && s'.store == Store(map[], true) && s'.handles == s.handles && s'.quota == s.quota && s'.names == s.names
  {
  }

  lemma OwnersKeptByShutdown(s: Sys, closers: map<Task, Key>)
    requires OwnerInv(s) && Enabled(s, Shutdown(closers))
    ensures OwnerInv(Next(s, Shutdown(closers)))
  {
    var s' := Next(s, Shutdown(closers));
    forall t ensures (t in s.tasks ==> t in s'.tasks && s'.tasks[t] == s.tasks[t]) &&
                     s'.store == Store(map[], true) && s'.handles == s.handles {
      ShutdownTasks(s, closers, t);
    }
    forall t, h ensures Owns(s', t, h) <==>
                          Owns(s, t, h) || (t in closers && closers[t] in s.store.stored
                            && s.store.stored[closers[t]] == h) {
      ShutdownOwns(s, closers, t, h);
    }
    ClosersTakeOver(s, s', closers);
  }

  lemma ClosersTakeOver(s: Sys, s': Sys, closers: map<Task, Key>)
    requires OwnerInv(s) && ClosersFor(s, closers)
    requires s'.store == Store(map[], true) && s'.handles == s.handles
    requires forall t :: t in s.tasks ==> t in s'.tasks && s'.tasks[t] == s.tasks[t]
    requires forall t, h :: Owns(s', t, h) <==>
                              Owns(s, t, h) || (t in closers && closers[t] in s.store.stored
                                && s.store.stored[closers[t]] == h)
    ensures OwnerInv(s')
  {
  }

  lemma OwnersKept(s: Sys, step: Step)
    requires QueueInv(s) && OwnerInv(s) && NameInv(s) && Enabled(s, step)
    ensures OwnerInv(Next(s, step))
  {
    if KeepsOwners(step) {
      OwnersKeptOutside(s, step);
    } else if step.Shutdown? {
      OwnersKeptByShutdown(s, step.closers);
    } else {
      match step {
        case AllocateOk(t) => OwnersKeptByAllocate(s, t);
        case Add(t) => OwnersKeptByAdd(s, t);
        case Delete(t) => OwnersKeptByDelete(s, t);
        case InnerClose(t) => OwnersKeptByInnerClose(s, t);
      }
    }
  }

  // ---- Session ids ----------------------------------------------------------------------------------

  lemma NamesKeptByShutdown(s: Sys, closers: map<Task, Key>)
    requires NameInv(s) && Enabled(s, Shutdown(closers))
    ensures NameInv(Next(s, Shutdown(closers)))
  {
    forall t {
      ShutdownTasks(s, closers, t);
    }
  }

  lemma NamesKeptByTask(s: Sys, step: Step)
    requires NameInv(s) && Enabled(s, step) && !step.Shutdown?
    ensures NameInv(Next(s, step))
  {
    Moved(s, step);
    if !step.PrepareOk? && !step.Add? && !step.Delete? {
      assert Next(s, step).store == s.store && Next(s, step).names == s.names;
    }
  }

  lemma NamesKept(s: Sys, step: Step)
    requires NameInv(s) && Enabled(s, step)
    ensures NameInv(Next(s, step))
  {
    if step.Shutdown? {
      NamesKeptByShutdown(s, step.closers);
    } else {
      NamesKeptByTask(s, step);
    }
  }

  // ---- Conservation ---------------------------------------------------------------------------------

  lemma SlotsMoved(s: Sys, s': Sys, t: Task)
    requires t in s'.tasks && s'.tasks == s.tasks[t := s'.tasks[t]]
    requires s'.quota.closed == s.quota.closed
    ensures SlotTasks(s') == if HasSlot(s', t) then SlotTasks(s) + {t} else SlotTasks(s) - {t}
    ensures t in SlotTasks(s) <==> t in s.tasks && HasSlot(s, t)
  {
  }

  lemma ConservedOutside(s: Sys, step: Step)
    requires Inv(s) && Enabled(s, step)
    requires !step.Shutdown? && !step.GiveBack? && !step.ReleaseSlot? && !step.Add? && !step.Delete?
             && !step.EnterReserve?
    ensures Conserved(Next(s, step))
  {
    var s' := Next(s, step);
    Moved(s, step);
    SlotsMoved(s, s', step.t);
    SlotKept(s, step);
  }

  lemma SlotKept(s: Sys, step: Step)
    requires Enabled(s, step)
    requires !step.Shutdown? && !step.GiveBack? && !step.ReleaseSlot? && !step.Add? && !step.Delete?
             && !step.EnterReserve?
    ensures var s' := Next(s, step);
            && step.t in s'.tasks && (HasSlot(s', step.t) <==> step.t in s.tasks && HasSlot(s, step.t))
            && s'.quota.closed == s.quota.closed && s'.quota.taken == s.quota.taken && s'.store == s.store
  {
  }

  lemma EnterMoves(s: Sys, t: Task)
    requires QueueInv(s) && Enabled(s, EnterReserve(t))
    ensures var s' := Next(s, EnterReserve(t));
            && t in s'.tasks && s'.tasks == s.tasks[t := s'.tasks[t]] && s'.store == s.store
            && s'.quota.closed == s.quota.closed && !HasSlot(s, t)
            && s'.quota.taken == s.quota.taken + if HasSlot(s', t) then 1 else 0
  {
  }

  lemma ConservedByEnter(s: Sys, t: Task)
    requires QueueInv(s) && Conserved(s) && Enabled(s, EnterReserve(t))
    ensures Conserved(Next(s, EnterReserve(t)))
  {
    EnterMoves(s, t);
    SlotsMoved(s, Next(s, EnterReserve(t)), t);
  }

  lemma ConservedByAdd(s: Sys, t: Task)
    requires Conserved(s) && Enabled(s, Add(t)) && s.tasks[t].k !in s.store.stored
    ensures Conserved(Next(s, Add(t)))
  {
    SlotsMoved(s, Next(s, Add(t)), t);
  }

  lemma DeleteMoves(s: Sys, t: Task)
    requires Enabled(s, Delete(t))
    ensures var s', k := Next(s, Delete(t)), s.tasks[t].k;
            && t in s'.tasks && s'.tasks == s.tasks[t := s'.tasks[t]] && s'.quota == s.quota
            && (HasSlot(s', t) <==> k in s.store.stored) && !HasSlot(s, t)
            && s'.store.stored == s.store.stored - {k}
  {
  }

  lemma ConservedByDelete(s: Sys, t: Task)
    requires Conserved(s) && Enabled(s, Delete(t))
    ensures Conserved(Next(s, Delete(t)))
  {
    var s', k := Next(s, Delete(t)), s.tasks[t].k;
    DeleteMoves(s, t);
    SlotsMoved(s, s', t);
    if k in s.store.stored {
      RemoveOne(s.store.stored, k);
    } else {
      assert s.store.stored - {k} == s.store.stored;
    }
  }

  lemma RemoveOne<K, V>(m: map<K, V>, k: K)
    requires k in m
    ensures |m - {k}| == |m| - 1
  {
    assert m == (m - {k})[k := m[k]];
  }

  /** `Release` by a task that has a slot; the authorizer's underrun branch is never taken. */
  lemma ConservedByRelease(s: Sys, s': Sys, t: Task)
    requires QueueInv(s) && Conserved(s) && t in s.tasks && HasSlot(s, t) && !Queued(s.tasks[t])
    requires t in s'.tasks && s'.tasks == s.tasks[t := s'.tasks[t]] && (s'.tasks[t].Failed? || s'.tasks[t].Released?)
    requires s'.quota == s.quota.Release() && s'.store == s.store
    ensures Conserved(s')
    ensures s.quota.queue == [] ==> s.quota.taken >= 1
  {
    assert t in SlotTasks(s);
    if s.quota.queue != [] {
      var w := s.quota.queue[0];
      assert w in s.tasks && Queued(s.tasks[w]) && w != t;
      ReleaseMembers(s.quota);
      SlotsAfterGrant(s, s', t, w);
    } else {
      SlotsMoved(s, s', t);
    }
  }

  lemma SlotsAfterGrant(s: Sys, s': Sys, t: Task, w: Task)
    requires t in s.tasks && t in s'.tasks && s'.tasks == s.tasks[t := s'.tasks[t]] && !HasSlot(s', t)
    requires w in s.tasks && w != t && Queued(s.tasks[w]) && w !in s.quota.closed && HasSlot(s, t)
    requires s'.quota.closed == s.quota.closed + {w}
    ensures SlotTasks(s') == SlotTasks(s) - {t} + {w} && w !in SlotTasks(s) && t in SlotTasks(s)
  {
  }

  lemma {:induction false} InjectiveSize<K, V>(m: map<K, V>)
    requires forall j, k :: j in m && k in m && m[j] == m[k] ==> j == k
    ensures |m.Keys| == |m.Values|
  {
    if k :| k in m {
      var rest := m - {k};
      assert m.Keys == rest.Keys + {k};
      assert m.Values == rest.Values + {m[k]};
      InjectiveSize(rest);
    } else {
      assert m.Keys == {} && m.Values == {};
    }
  }

  lemma ShutdownSlots(s: Sys, closers: map<Task, Key>)
    requires Enabled(s, Shutdown(closers))
    ensures SlotTasks(Next(s, Shutdown(closers))) == SlotTasks(s) + closers.Keys
  {
    var s' := Next(s, Shutdown(closers));
    forall t ensures t in SlotTasks(s') <==> t in SlotTasks(s) + closers.Keys {
      ShutdownTasks(s, closers, t);
    }
  }

  lemma ConservedByShutdown(s: Sys, closers: map<Task, Key>)
    requires Conserved(s) && Enabled(s, Shutdown(closers))
    ensures Conserved(Next(s, Shutdown(closers)))
  {
    ShutdownSlots(s, closers);
    ShutdownTasks(s, closers, 0);
    ClosersCount(s, closers);
  }

  lemma ClosersCount(s: Sys, closers: map<Task, Key>)
    requires ClosersFor(s, closers)
    ensures |SlotTasks(s) + closers.Keys| == |SlotTasks(s)| + |s.store.stored|
  {
    InjectiveSize(closers);
    assert SlotTasks(s) !! closers.Keys;
    assert |s.store.stored| == |s.store.stored.Keys|;
  }

  // ---- The logs of releases and closes --------------------------------------------------------------

  lemma HoldsKept(s: Sys, step: Step, u: Task, h: Handle)
    requires Enabled(s, step) && KeepsOwners(step) && !step.ReleaseSlot?
    ensures Holds(Next(s, step), u, h) <==> Holds(s, u, h)
  {
  }

  lemma LogsKeptOutside(s: Sys, step: Step)
    requires LogInv(s) && Enabled(s, step) && KeepsOwners(step) && !step.ReleaseSlot?
    ensures LogInv(Next(s, step))
  {
    var s' := Next(s, step);
    forall u, h ensures (Owns(s', u, h) <==> Owns(s, u, h)) && (Holds(s', u, h) <==> Holds(s, u, h)) {
      OwnsKept(s, step, u, h);
      HoldsKept(s, step, u, h);
    }
    assert s'.store == s.store && s'.handles == s.handles && s'.released == s.released && s'.closed == s.closed;
  }

  lemma LogsKeptByRelease(s: Sys, t: Task)
    requires OwnerInv(s) && LogInv(s) && Enabled(s, ReleaseSlot(t))
    ensures LogInv(Next(s, ReleaseSlot(t)))
  {
    var s', g := Next(s, ReleaseSlot(t)), s.tasks[t].h;
    assert Owns(s, t, g) && Holds(s, t, g);
    forall u, h ensures (Owns(s', u, h) <==> Owns(s, u, h)) && (Holds(s', u, h) <==> u != t && Holds(s, u, h)) {
      OwnsKept(s, ReleaseSlot(t), u, h);
    }
  }

  lemma LogsKeptByInnerClose(s: Sys, t: Task)
    requires OwnerInv(s) && LogInv(s) && Enabled(s, InnerClose(t))
    ensures LogInv(Next(s, InnerClose(t)))
  {
    var s', g := Next(s, InnerClose(t)), s.tasks[t].h;
    assert Owns(s, t, g) && !Holds(s, t, g);
    assert forall u, h :: Owns(s', u, h) <==> u != t && Owns(s, u, h);
    assert forall u, h :: Holds(s', u, h) <==> Holds(s, u, h);
  }

  lemma LogsKeptByAllocate(s: Sys, t: Task)
    requires OwnerInv(s) && LogInv(s) && Enabled(s, AllocateOk(t))
    ensures LogInv(Next(s, AllocateOk(t)))
  {
    var s' := Next(s, AllocateOk(t));
    assert t !in s.handles;
    assert forall u, h :: Owns(s', u, h) <==> (if u == t then h == t else Owns(s, u, h));
    assert forall u, h :: Holds(s', u, h) <==> (if u == t then h == t else Holds(s, u, h));
  }

  /** Ownership of `g` moves between task `t` and the store. */
  ghost predicate MovesOwner(s: Sys, s': Sys, t: Task) {
    && s'.handles == s.handles && s'.released == s.released && s'.closed == s.closed
    && (forall u, h :: u != t ==> (Owns(s', u, h) <==> Owns(s, u, h)) && (Holds(s', u, h) <==> Holds(s, u, h)))
  }

  lemma LogsKeptByAdd(s: Sys, t: Task)
    requires OwnerInv(s) && NameInv(s) && LogInv(s) && Enabled(s, Add(t))
    ensures LogInv(Next(s, Add(t)))
  {
    var s', k := Next(s, Add(t)), s.tasks[t].k;
    assert Owns(s, t, t) && Holds(s, t, t);
    assert MovesOwner(s, s', t);
    if s.store.shutdown {
      assert forall h :: (Owns(s', t, h) <==> h == t) && (Holds(s', t, h) <==> h == t);
    } else {
      assert forall h :: !Owns(s', t, h);
      assert s'.store.stored[k] == t;
      assert forall j :: j in s.store.stored ==> j != k && s'.store.stored[j] == s.store.stored[j];
    }
  }

  lemma LogsKeptByDelete(s: Sys, t: Task)
    requires OwnerInv(s) && NameInv(s) && LogInv(s) && Enabled(s, Delete(t))
    ensures LogInv(Next(s, Delete(t)))
  {
    var s', k, g := Next(s, Delete(t)), s.tasks[t].k, s.tasks[t].h;
    assert MovesOwner(s, s', t);
    assert forall h :: !Owns(s, t, h);
    if k in s.store.stored {
      assert s.store.stored[k] == g;
      assert forall h :: (Owns(s', t, h) <==> h == g) && (Holds(s', t, h) <==> h == g);
    } else {
      assert s'.store.stored == s.store.stored;
      assert forall h :: !Owns(s', t, h);
    }
  }

  lemma LogsKeptByShutdown(s: Sys, closers: map<Task, Key>)
    requires OwnerInv(s) && LogInv(s) && Enabled(s, Shutdown(closers))
    ensures LogInv(Next(s, Shutdown(closers)))
  {
    var s' := Next(s, Shutdown(closers));
    ShutdownTasks(s, closers, 0);
    forall t, h
      ensures Owns(s', t, h) <==>
                Owns(s, t, h) || (t in closers && closers[t] in s.store.stored && s.store.stored[closers[t]] == h)
      ensures Holds(s', t, h) <==>
                Holds(s, t, h) || (t in closers && closers[t] in s.store.stored && s.store.stored[closers[t]] == h)
    {
      ShutdownOwns(s, closers, t, h);
      ShutdownHolds(s, closers, t, h);
    }
    assert s'.released == s.released && s'.closed == s.closed;
    LogsFromClosers(s, s', closers);
  }

  lemma ShutdownHolds(s: Sys, closers: map<Task, Key>, t: Task, h: Handle)
    requires Enabled(s, Shutdown(closers))
    ensures Holds(Next(s, Shutdown(closers)), t, h) <==>
              Holds(s, t, h) || (t in closers && closers[t] in s.store.stored && s.store.stored[closers[t]] == h)
  {
    ShutdownTasks(s, closers, t);
    if t in closers {
      ShutdownStarts(s, closers, t);
    }
    SameHolder(s, Next(s, Shutdown(closers)), t, h);
  }

  lemma SameHolder(s: Sys, s': Sys, t: Task, h: Handle)
    ensures t in s.tasks && t in s'.tasks && s.tasks[t] == s'.tasks[t] ==> (Holds(s', t, h) <==> Holds(s, t, h))
    ensures t in s'.tasks && s'.tasks[t].Closing? ==> (Holds(s', t, h) <==> s'.tasks[t].h == h)
    ensures t !in s'.tasks ==> !Holds(s', t, h)
    ensures t !in s.tasks ==> !Holds(s, t, h)
  {
  }

  lemma LogsFromClosers(s: Sys, s': Sys, closers: map<Task, Key>)
    requires OwnerInv(s) && LogInv(s) && ClosersFor(s, closers)
    requires s'.store == Store(map[], true) && s'.handles == s.handles
    requires s'.released == s.released && s'.closed == s.closed
    requires forall t, h :: Owns(s', t, h) <==>
               Owns(s, t, h) || (t in closers && closers[t] in s.store.stored && s.store.stored[closers[t]] == h)
    requires forall t, h :: Holds(s', t, h) <==>
               Holds(s, t, h) || (t in closers && closers[t] in s.store.stored && s.store.stored[closers[t]] == h)
    ensures LogInv(s')
  {
  }

  /** Whoever owned a LimitedBrowser still does, or passed it on. */
  lemma CoverageKept(s: Sys, step: Step)
    requires OwnerInv(s) && NameInv(s) && Covered(s) && Enabled(s, step)
    ensures Covered(Next(s, step))
  {
    forall h | h in Next(s, step).handles
      ensures var s' := Next(s, step); h in s'.closed || h in s'.store.stored.Values || exists t :: Owns(s', t, h)
    {
      if h !in s.handles {
        assert Owns(Next(s, step), step.t, h);
      } else if t :| Owns(s, t, h) {
        OwnedStaysCovered(s, step, h, t);
      } else if h in s.store.stored.Values {
        var k :| k in s.store.stored && s.store.stored[k] == h;
        StoredStaysCovered(s, step, h, k);
      } else {
        ClosedStays(s, step, h);
      }
    }
  }

  lemma ClosedStays(s: Sys, step: Step, h: Handle)
    requires Enabled(s, step) && h in s.closed
    ensures h in Next(s, step).closed
  {
  }

  lemma OwnedStaysCovered(s: Sys, step: Step, h: Handle, t: Task)
    requires Enabled(s, step) && Owns(s, t, h)
    ensures var s' := Next(s, step); h in s'.closed || h in s'.store.stored.Values || Owns(s', t, h)
  {
    if KeepsOwners(step) {
      OwnsKept(s, step, t, h);
    } else if step.Shutdown? {
      ShutdownOwns(s, step.closers, t, h);
    } else if step.Add? && step.t == t && !s.store.shutdown {
      assert Next(s, step).store.stored[s.tasks[t].k] == h;
    } else {
      OtherOwnerStays(s, step, h, t);
    }
  }

  lemma OtherOwnerStays(s: Sys, step: Step, h: Handle, t: Task)
    requires Enabled(s, step) && Owns(s, t, h)
    requires step.AllocateOk? || step.Delete? || step.InnerClose? || (step.Add? && (step.t != t || s.store.shutdown))
    ensures h in Next(s, step).closed || Owns(Next(s, step), t, h)
  {
  }

  lemma StoredStaysCovered(s: Sys, step: Step, h: Handle, k: Key)
    requires NameInv(s) && Enabled(s, step) && k in s.store.stored && s.store.stored[k] == h
    ensures var s' := Next(s, step);
            (k in s'.store.stored && s'.store.stored[k] == h) || exists t :: Owns(s', t, h)
  {
    if step.Shutdown? {
      var t :| t in step.closers && step.closers[t] == k;
      ShutdownOwns(s, step.closers, t, h);
    } else if step.Delete? && s.tasks[step.t].k == k {
      assert Owns(Next(s, step), step.t, h);
    } else {
      StoredStays(s, step, k);
    }
  }

  lemma StoredStays(s: Sys, step: Step, k: Key)
    requires NameInv(s) && Enabled(s, step) && k in s.store.stored && !step.Shutdown?
    requires step.Delete? ==> s.tasks[step.t].k != k
    ensures k in Next(s, step).store.stored && Next(s, step).store.stored[k] == s.store.stored[k]
  {
  }

  lemma LogsKept(s: Sys, step: Step)
    requires OwnerInv(s) && NameInv(s) && LogInv(s) && Enabled(s, step)
    ensures LogInv(Next(s, step))
  {
    match step {
      case ReleaseSlot(t) => LogsKeptByRelease(s, t);
      case InnerClose(t) => LogsKeptByInnerClose(s, t);
      case AllocateOk(t) => LogsKeptByAllocate(s, t);
      case Add(t) => LogsKeptByAdd(s, t);
      case Delete(t) => LogsKeptByDelete(s, t);
      case Shutdown(closers) => LogsKeptByShutdown(s, closers);
      case _ => LogsKeptOutside(s, step);
    }
  }

  lemma StepKeepsInv(s: Sys, step: Step)
    requires Inv(s) && Enabled(s, step)
    ensures Inv(Next(s, step))
  {
    QueueKept(s, step);
    OwnersKept(s, step);
    NamesKept(s, step);
    LogsKept(s, step);
    CoverageKept(s, step);
    ConservedKept(s, step);
  }

  lemma ConservedKept(s: Sys, step: Step)
    requires Inv(s) && Enabled(s, step)
    ensures Conserved(Next(s, step))
  {
    match step {
      case EnterReserve(t) => ConservedByEnter(s, t);
      case Add(t) => ConservedByAdd(s, t);
      case Delete(t) => ConservedByDelete(s, t);
      case GiveBack(t) => ConservedByRelease(s, Next(s, step), t);
      case ReleaseSlot(t) => ConservedByRelease(s, Next(s, step), t);
      case Shutdown(closers) => ConservedByShutdown(s, closers);
      case _ => ConservedOutside(s, step);
    }
  }

  // ---- Runs -----------------------------------------------------------------------------------------

  predicate Valid(s: Sys, steps: seq<Step>)
    decreases |steps|
  {
    steps != [] ==> Enabled(s, steps[0]) && Valid(Next(s, steps[0]), steps[1..])
  }

  function Run(s: Sys, steps: seq<Step>): Sys
    requires Valid(s, steps)
    decreases |steps|
  {
    if steps == [] then s else Run(Next(s, steps[0]), steps[1..])
  }

  /** The states the server can get into, starting from nothing. */
  ghost predicate Reachable(s: Sys, limit: int, qLimit: int) {
    exists steps :: Valid(Init(limit, qLimit), steps) && Run(Init(limit, qLimit), steps) == s
  }

  lemma {:induction false} RunKeepsInv(s: Sys, steps: seq<Step>)
    requires Inv(s) && Valid(s, steps)
    ensures Inv(Run(s, steps))
    ensures Run(s, steps).quota.limit == s.quota.limit && Run(s, steps).quota.qLimit == s.quota.qLimit
    decreases |steps|
  {
    if steps != [] {
      StepKeepsInv(s, steps[0]);
      LimitsStay(s, steps[0]);
      RunKeepsInv(Next(s, steps[0]), steps[1..]);
    }
  }

  lemma LimitsStay(s: Sys, step: Step)
    requires Enabled(s, step)
    ensures Next(s, step).quota.limit == s.quota.limit && Next(s, step).quota.qLimit == s.quota.qLimit
  {
  }

  lemma ReachableInv(s: Sys, limit: int, qLimit: int)
    requires 0 <= limit && 0 <= qLimit && Reachable(s, limit, qLimit)
    ensures Inv(s) && s.quota.limit == limit && s.quota.qLimit == qLimit
  {
    var steps :| Valid(Init(limit, qLimit), steps) && Run(Init(limit, qLimit), steps) == s;
    InitInv(limit, qLimit);
    RunKeepsInv(Init(limit, qLimit), steps);
  }

  // ---- Main results ---------------------------------------------------------------------------------

  /** Waiters whose channel was closed and who have not noticed yet. */
  function GrantedWaiters(s: Sys): set<Task> {
    set t | t in s.tasks && Queued(s.tasks[t]) && t in s.quota.closed
  }

  /** Calls of Allocate between a successful Reserve and a LimitedBrowser, or a give-back. */
  function AllocationsInProgress(s: Sys): set<Task> {
    set t | t in s.tasks && (s.tasks[t].Allocating? || s.tasks[t].GivingBack?)
  }

  /** LimitedBrowsers whose slot is not released. */
  ghost function OpenHandles(s: Sys): set<Handle> {
    set h | h in s.handles && h !in s.released
  }

  /** Lease conservation: in every reachable state the authorizer's counter is the number of waiters that
      were granted a slot, plus the allocations in progress, plus the LimitedBrowsers not yet released. */
  lemma LeaseConservation(s: Sys, limit: int, qLimit: int)
    requires 0 <= limit && 0 <= qLimit && Reachable(s, limit, qLimit)
    ensures s.quota.taken == |GrantedWaiters(s)| + |AllocationsInProgress(s)| + |OpenHandles(s)|
    ensures 0 <= s.quota.taken <= limit
  {
    ReachableInv(s, limit, qLimit);
    var owners := map t | t in s.tasks && OwnsOpen(s, t) :: HandleOf(s, t);
    SlotsByKind(s, owners.Keys);
    OpenAreOwned(s, owners);
    InjectiveSize(owners);
    InjectiveSize(s.store.stored);
    assert |s.store.stored| == |s.store.stored.Keys|;
  }

  lemma SlotsByKind(s: Sys, owners: set<Task>)
    requires owners == set t | t in s.tasks && OwnsOpen(s, t)
    ensures |SlotTasks(s)| == |GrantedWaiters(s)| + |AllocationsInProgress(s)| + |owners|
  {
    assert SlotTasks(s) == GrantedWaiters(s) + AllocationsInProgress(s) + owners;
    assert GrantedWaiters(s) !! AllocationsInProgress(s) !! owners;
  }

  predicate OwnsOpen(s: Sys, t: Task)
    requires t in s.tasks
  {
    s.tasks[t].Preparing? || s.tasks[t].Storing? || s.tasks[t].Draining? || s.tasks[t].Closing?
  }

  function HandleOf(s: Sys, t: Task): (h: Handle)
    requires t in s.tasks && OwnsOpen(s, t)
    ensures forall g :: Holds(s, t, g) <==> g == h
  {
    if s.tasks[t].Draining? || s.tasks[t].Closing? then s.tasks[t].h else t
  }

  lemma OpenAreOwned(s: Sys, owners: map<Task, Handle>)
    requires OwnerInv(s) && LogInv(s) && Covered(s)
    requires owners == map t | t in s.tasks && OwnsOpen(s, t) :: HandleOf(s, t)
    ensures OpenHandles(s) == owners.Values + s.store.stored.Values
    ensures owners.Values !! s.store.stored.Values
    ensures forall t, u :: t in owners && u in owners && owners[t] == owners[u] ==> t == u
  {
    assert forall t :: t in owners ==> Holds(s, t, owners[t]) && Owns(s, t, owners[t]);
    forall h ensures h in OpenHandles(s) <==> h in owners.Values + s.store.stored.Values {
      if h in OpenHandles(s) {
        assert h !in s.closed;
        if t :| Owns(s, t, h) {
          assert Holds(s, t, h) && t in owners && owners[t] == h;
        }
      }
    }
  }

  /** Every LimitedBrowser ever made is in exactly one place: with one task that will close it, in the
      store under one id, or closed once after its slot was released once. */
  lemma OneOwner(s: Sys, limit: int, qLimit: int, h: Handle)
    requires 0 <= limit && 0 <= qLimit && Reachable(s, limit, qLimit) && h in s.handles
    ensures h in s.closed || (exists t :: Owns(s, t, h)) || h in s.store.stored.Values
    ensures h in s.closed ==> h in s.released && h !in s.store.stored.Values && forall t :: !Owns(s, t, h)
    ensures h in s.store.stored.Values ==> h !in s.released && forall t :: !Owns(s, t, h)
    ensures forall t, u :: Owns(s, t, h) && Owns(s, u, h) ==> t == u
    ensures forall j, k :: j in s.store.stored && k in s.store.stored && s.store.stored[j] == h == s.store.stored[k] ==>
              j == k
    ensures multiset(s.released)[h] <= 1 && multiset(s.closed)[h] <= 1
  {
    ReachableInv(s, limit, qLimit);
    DistinctOnce(s.released, h);
    DistinctOnce(s.closed, h);
  }

  lemma {:induction false} DistinctOnce(hs: seq<Handle>, h: Handle)
    requires Distinct(hs)
    ensures multiset(hs)[h] <= 1
  {
    if hs != [] {
      var front, last := hs[..|hs|-1], hs[|hs|-1];
      assert hs == front + [last];
      DistinctOnce(front, h);
      assert last == h ==> h !in front;
    }
  }

  /** The cancellation race: a waiter whose channel Release closed goes on with a slot whatever its context
      does; a request that ended in an error is neither queued nor granted. */
  lemma CancellationRace(s: Sys, limit: int, qLimit: int, t: Task)
    requires 0 <= limit && 0 <= qLimit && Reachable(s, limit, qLimit) && t in s.tasks
    ensures t in s.quota.closed ==> !s.tasks[t].GaveUp? && !s.tasks[t].QuotaExceeded?
    ensures s.tasks[t].GaveUp? || s.tasks[t].QuotaExceeded? ==> t !in s.quota.queue && t !in s.quota.closed
    ensures t in s.quota.closed && s.tasks[t].Expiring? ==>
              Enabled(s, ExpireReserve(t)) && Next(s, ExpireReserve(t)).tasks[t].Allocating?
    ensures t in s.quota.queue && s.tasks[t].Expiring? ==>
              Enabled(s, ExpireReserve(t)) && Next(s, ExpireReserve(t)).tasks[t].GaveUp?
              && t !in Next(s, ExpireReserve(t)).quota.queue
  {
    ReachableInv(s, limit, qLimit);
    ExpireMembers(s.quota, t);
  }

  /** Errors are final: a request that was refused or gave up never gets a slot later. */
  lemma {:induction false} ErrorsAreFinal(s: Sys, steps: seq<Step>, t: Task)
    requires Inv(s) && Valid(s, steps) && t in s.tasks && (s.tasks[t].GaveUp? || s.tasks[t].QuotaExceeded?)
    ensures t in Run(s, steps).tasks && Run(s, steps).tasks[t] == s.tasks[t] && t !in Run(s, steps).quota.closed
    decreases |steps|
  {
    if steps != [] {
      StepKeepsInv(s, steps[0]);
      if steps[0].Shutdown? {
        ShutdownTasks(s, steps[0].closers, t);
      } else {
        Moved(s, steps[0]);
      }
      ErrorsAreFinal(Next(s, steps[0]), steps[1..], t);
    }
  }

  /** No slot leaks: once every call has ended and no session is stored, no slot is taken. */
  lemma NothingLeaks(s: Sys, limit: int, qLimit: int)
    requires 0 <= limit && 0 <= qLimit && Reachable(s, limit, qLimit)
    requires s.store.stored == map[]
    requires forall t :: t in s.tasks ==>
               s.tasks[t].Done? || s.tasks[t].Stored? || s.tasks[t].Failed? || s.tasks[t].GaveUp?
                 || s.tasks[t].QuotaExceeded?
    ensures s.quota.taken == 0 && s.quota.queue == []
    ensures forall h :: h in s.handles ==> h in s.closed
  {
    ReachableInv(s, limit, qLimit);
    assert SlotTasks(s) == {};
    if s.quota.queue != [] {
      QueueHead(s);
    }
  }

  lemma QueueHead(s: Sys)
    requires QueueInv(s) && s.quota.queue != []
    ensures exists t :: t in s.tasks && Queued(s.tasks[t])
  {
    assert s.quota.queue[0] in s.quota.queue;
  }

  /** The underrun branch of Release is dead: whoever calls it finds a waiter or a taken slot. */
  lemma NoUnderrun(s: Sys, limit: int, qLimit: int, step: Step)
    requires 0 <= limit && 0 <= qLimit && Reachable(s, limit, qLimit)
    requires (step.GiveBack? || step.ReleaseSlot?) && Enabled(s, step)
    ensures s.quota.queue != [] || s.quota.taken >= 1
  {
    ReachableInv(s, limit, qLimit);
    ConservedByRelease(s, Next(s, step), step.t);
  }

  /** After the storage's Shutdown no session is stored any more, so a late CreateSession closes its browser. */
  lemma ShutdownEmptiesForGood(s: Sys, limit: int, qLimit: int, t: Task)
    requires 0 <= limit && 0 <= qLimit && Reachable(s, limit, qLimit) && s.store.shutdown
    ensures s.store.stored == map[]
    ensures t in s.tasks && s.tasks[t].Storing? ==>
              Enabled(s, Add(t)) && Next(s, Add(t)).tasks[t] == Closing(t, true) && Next(s, Add(t)).store == s.store
  {
    ReachableInv(s, limit, qLimit);
  }
}
