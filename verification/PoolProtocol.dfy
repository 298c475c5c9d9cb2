/**
 The idle browser pool of `internal/browser/pool/pool.go` and `browser.go` as a step system.

 A step is one critical section, or one action between two of them.  A checkout, a close or a check-in is
 a task; a task's program counter says in which gap between critical sections it stands and which browser
 it holds there.  Timers are entities of their own: stopping one that already fired does nothing, and its
 callback then runs late, perhaps after the browser was handed out and returned again.
 */
module PoolProtocol {

  type Task = nat
  type Browser = nat
  type TimerId = nat

  datatype PC =
    | CheckingOut            // in Checkout, before popIdle
    | Allocating             // popIdle found nothing, the backend is starting a browser
    | Leased(b: Browser)     // the caller of Checkout holds the browser
    | Counted(b: Browser)    // in checkin: PoolState reported room
    | Young(b: Browser)      // in checkin: the age check passed, pushIdle comes next
    | Closing(b: Browser)    // the backend's Close was called
    | Evicting(b: Browser)   // a timer fired, evictIdle is not yet in its critical section
    | Finished

  datatype Timer = Timer(b: Browser, due: int)

  datatype Config = Config(maxIdle: int, maxAge: int, idleTimeout: int)

  datatype Pool = Pool(
    cfg: Config,
    now: int,
    shutdown: bool,
    idle: set<Browser>,               // the keys of idleWd
    created: map<Browser, int>,       // every browser ever allocated, with its creation time
    checkedIn: map<Browser, int>,     // when a browser was last pushed
    timerOf: map<Browser, TimerId>,   // the timer field of a pooled browser
    timers: map<TimerId, Timer>,      // the armed timers
    nextTimer: TimerId,
    tasks: map<Task, PC>,
    closed: seq<Browser>)             // completed closes, in order

  function Initial(cfg: Config, now: int): Pool {
    Pool(cfg, now, false, {}, map[], map[], map[], map[], 0, map[], [])
  }

  datatype Step =
    | CheckOut(t: Task)
    | PopIdle(t: Task, b: Browser)
    | PopNothing(t: Task)
    | PopShutdown(t: Task)
    | AllocateOk(t: Task, b: Browser)
    | AllocateFailed(t: Task)
    | CloseTrash(t: Task)
    | CloseReuse(t: Task)
    | CheckAge(t: Task)
    | PushIdle(t: Task)
    | FinishClose(t: Task)
    | Fire(i: TimerId, t: Task)
    | Evict(t: Task)
    | Shutdown(closers: map<Task, Browser>)
    | Tick(d: nat)

  predicate At(s: Pool, t: Task, pc: PC) {
    t in s.tasks && s.tasks[t] == pc
  }

  /** Each idle browser gets one new task that closes it. */
  predicate ClosersFor(s: Pool, closers: map<Task, Browser>) {
    && closers.Keys !! s.tasks.Keys
    && closers.Values == s.idle
    && (forall t, u :: t in closers && u in closers && closers[t] == closers[u] ==> t == u)
  }

  predicate Enabled(s: Pool, step: Step) {
    match step
    case CheckOut(t) => t !in s.tasks
    case PopIdle(t, b) => At(s, t, CheckingOut) && !s.shutdown && b in s.idle && b in s.timerOf
    case PopNothing(t) => At(s, t, CheckingOut) && !s.shutdown && s.idle == {}
    case PopShutdown(t) => At(s, t, CheckingOut) && s.shutdown
    case AllocateOk(t, b) => At(s, t, Allocating) && b !in s.created
    case AllocateFailed(t) => At(s, t, Allocating)
    case CloseTrash(t) => t in s.tasks && s.tasks[t].Leased?
    case CloseReuse(t) => t in s.tasks && s.tasks[t].Leased?
    case CheckAge(t) => t in s.tasks && s.tasks[t].Counted? && s.tasks[t].b in s.created
    case PushIdle(t) => t in s.tasks && s.tasks[t].Young? && s.tasks[t].b in s.created
    case FinishClose(t) => t in s.tasks && s.tasks[t].Closing?
    case Fire(i, t) => i in s.timers && s.timers[i].due <= s.now && t !in s.tasks
    case Evict(t) => t in s.tasks && s.tasks[t].Evicting?
    case Shutdown(closers) => ClosersFor(s, closers) && s.idle <= s.timerOf.Keys
    case Tick(d) => true
  }

  function Goto(s: Pool, t: Task, pc: PC): Pool {
    s.(tasks := s.tasks[t := pc])
  }

  /** `time.Timer.Stop`: no effect on a timer that already fired. */
  function StopTimers(s: Pool, bs: set<Browser>): Pool
    requires bs <= s.timerOf.Keys
  {
    s.(timers := s.timers - (set b | b in bs :: s.timerOf[b]))
  }

  function Min(x: int, y: int): int {
    if x < y then x else y
  }

  function Do(s: Pool, step: Step): Pool
    requires Enabled(s, step)
  {
    match step
    case CheckOut(t) => Goto(s, t, CheckingOut)
    case PopIdle(t, b) => Goto(StopTimers(s, {b}).(idle := s.idle - {b}), t, Leased(b))
    case PopNothing(t) => Goto(s, t, Allocating)
    case PopShutdown(t) => Goto(s, t, Finished)
    case AllocateOk(t, b) => Goto(s.(created := s.created[b := s.now]), t, Leased(b))
    case AllocateFailed(t) => Goto(s, t, Finished)
    case CloseTrash(t) => Goto(s, t, Closing(s.tasks[t].b))
    case CloseReuse(t) =>
      if s.shutdown || |s.idle| >= s.cfg.maxIdle then Goto(s, t, Closing(s.tasks[t].b))
      else Goto(s, t, Counted(s.tasks[t].b))
    case CheckAge(t) =>
      var b := s.tasks[t].b;
      if s.now - s.created[b] > s.cfg.maxAge then Goto(s, t, Closing(b)) else Goto(s, t, Young(b))
    case PushIdle(t) =>
      var b := s.tasks[t].b;
      var expireTime := s.created[b] + s.cfg.maxAge;
      var timeout := if expireTime - s.now > s.cfg.idleTimeout then s.cfg.idleTimeout else expireTime - s.now;
      Goto(s, t, Finished).(
        timers := s.timers[s.nextTimer := Timer(b, s.now + timeout)],
        timerOf := s.timerOf[b := s.nextTimer],
        nextTimer := s.nextTimer + 1,
        checkedIn := s.checkedIn[b := s.now],
        idle := s.idle + {b})
    case FinishClose(t) => Goto(s, t, Finished).(closed := s.closed + [s.tasks[t].b])
    case Fire(i, t) => Goto(s.(timers := s.timers - {i}), t, Evicting(s.timers[i].b))
    case Evict(t) =>
      var b := s.tasks[t].b;
      if b in s.idle then Goto(s.(idle := s.idle - {b}), t, Closing(b)) else Goto(s, t, Finished)
    case Shutdown(closers) =>
      StopTimers(s, s.idle).(
        shutdown := true,
        idle := {},
        tasks := s.tasks + (map t | t in closers :: Closing(closers[t])))
    case Tick(d) => s.(now := s.now + d)
  }

  // ---- Ownership ------------------------------------------------------------------------------------

  /** The task is responsible for browser `b`. */
  predicate Holds(s: Pool, t: Task, b: Browser) {
    t in s.tasks && (s.tasks[t].Leased? || s.tasks[t].Counted? || s.tasks[t].Young? || s.tasks[t].Closing?) &&
    s.tasks[t].b == b
  }

  /** Every browser is in one place only: held by one task, idle, or closed (once). */
  ghost predicate OnePlace(s: Pool) {
    && (forall t, u, b :: Holds(s, t, b) && Holds(s, u, b) ==> t == u)
    && (forall t, b :: Holds(s, t, b) ==> b in s.created && b !in s.idle && b !in s.closed)
    && (forall b :: b in s.idle ==> b in s.created && b !in s.closed)
    && (forall b :: b in s.closed ==> b in s.created)
    && (forall i, j :: 0 <= i < j < |s.closed| ==> s.closed[i] != s.closed[j])
  }

  /** No browser is lost. */
  ghost predicate SomePlace(s: Pool) {
    forall b :: b in s.created ==> b in s.idle || b in s.closed || exists t :: Holds(s, t, b)
  }

  /** When the timer of an idle browser is due. */
  function Deadline(s: Pool, b: Browser): int
    requires b in s.checkedIn && b in s.created
  {
    Min(s.checkedIn[b] + s.cfg.idleTimeout, s.created[b] + s.cfg.maxAge)
  }

  /** An idle browser has its own armed timer, or the timer fired and its callback is still to run. */
  ghost predicate Watched(s: Pool, b: Browser) {
    && b in s.timerOf && b in s.checkedIn && b in s.created
    && (|| (s.timerOf[b] in s.timers && s.timers[s.timerOf[b]] == Timer(b, Deadline(s, b)))
        || exists t :: At(s, t, Evicting(b)))
  }

  /** The timers: one at most for each browser, none for a browser that is in use. */
  ghost predicate TimerTable(s: Pool) {
    && (forall i :: i in s.timers ==>
          i < s.nextTimer && s.timers[i].b in s.timerOf && s.timerOf[s.timers[i].b] == i)
    && (forall b :: b in s.timerOf ==> s.timerOf[b] < s.nextTimer && b in s.created)
    && (forall b, c :: b in s.timerOf && c in s.timerOf && s.timerOf[b] == s.timerOf[c] ==> b == c)
    && (forall t, b :: Uses(s, t, b) ==> b !in s.timerOf || s.timerOf[b] !in s.timers)
  }

  ghost predicate Inv(s: Pool) {
    OnePlace(s) && SomePlace(s) && TimerTable(s) && (forall b :: b in s.idle ==> Watched(s, b))
  }

  lemma InitialInv(cfg: Config, now: int)
    ensures Inv(Initial(cfg, now))
  {
  }

  /** The tasks a step moves. */
  function Acts(step: Step): set<Task> {
    match step
    case Tick(_) => {}
    case Shutdown(closers) => closers.Keys
    case _ => {step.t}
  }

  /** What a step may do to the places of browsers. */
  ghost predicate Effect(s: Pool, s': Pool, acts: set<Task>) {
    && (forall u, b :: u !in acts ==> (Holds(s', u, b) <==> Holds(s, u, b)))
    && (forall u, b :: u in acts && Holds(s', u, b) ==>
          && (Holds(s, u, b) || b in s.idle || b !in s.created)
          && b in s'.created && b !in s'.idle)
    && (forall u, w, b :: u in acts && w in acts && Holds(s', u, b) && Holds(s', w, b) ==> u == w)
    && (forall b :: b in s'.idle ==> b in s.idle || exists u :: u in acts && Holds(s, u, b))
    && s.created.Keys <= s'.created.Keys
    && (s'.closed == s.closed ||
        exists u, b :: u in acts && Holds(s, u, b) && !Holds(s', u, b) && b !in s'.idle && s'.closed == s.closed + [b])
    // nothing is dropped
    && (forall b :: b in s'.created && b !in s.created ==> exists u :: Holds(s', u, b))
    && (forall b :: b in s.idle && b !in s'.idle ==> exists u :: Holds(s', u, b))
    && (forall u, b :: u in acts && Holds(s, u, b) ==> Holds(s', u, b) || b in s'.idle || b in s'.closed)
  }

  /** Steps that leave every browser where it is. */
  predicate Quiet(step: Step) {
    step.CheckOut? || step.PopNothing? || step.PopShutdown? || step.AllocateFailed? || step.CloseTrash? ||
    step.CloseReuse? || step.CheckAge? || step.Fire? || step.Tick?
  }

  lemma QuietHolds(s: Pool, step: Step, u: Task, b: Browser)
    requires Enabled(s, step) && Quiet(step)
    ensures Holds(Do(s, step), u, b) <==> Holds(s, u, b)
  {
  }

  lemma QuietEffect(s: Pool, step: Step)
    requires OnePlace(s) && Enabled(s, step) && Quiet(step)
    ensures Effect(s, Do(s, step), Acts(step))
  {
    var s' := Do(s, step);
    forall u, b ensures Holds(s', u, b) <==> Holds(s, u, b) {
      QuietHolds(s, step, u, b);
    }
    assert s'.idle == s.idle && s'.created == s.created && s'.closed == s.closed;
  }

  lemma StepEffect(s: Pool, step: Step)
    requires OnePlace(s) && Enabled(s, step)
    ensures Effect(s, Do(s, step), Acts(step))
  {
    if Quiet(step) {
      QuietEffect(s, step);
    } else if step.Shutdown? {
      ShutdownEffect(s, step.closers);
    } else {
      MoveEffect(s, step);
    }
  }

  lemma MoveEffect(s: Pool, step: Step)
    requires OnePlace(s) && Enabled(s, step) && !Quiet(step) && !step.Shutdown?
    ensures Effect(s, Do(s, step), Acts(step))
  {
    match step {
      case FinishClose(t) => FinishCloseEffect(s, t);
      case PushIdle(t) => PushIdleEffect(s, t);
      case PopIdle(t, b) => PopIdleEffect(s, t, b);
      case AllocateOk(t, b) => AllocateOkEffect(s, t, b);
      case Evict(t) => EvictEffect(s, t);
    }
  }

  lemma FinishCloseEffect(s: Pool, t: Task)
    requires OnePlace(s) && Enabled(s, FinishClose(t))
    ensures Effect(s, Do(s, FinishClose(t)), {t})
  {
    assert Holds(s, t, s.tasks[t].b) && !Holds(Do(s, FinishClose(t)), t, s.tasks[t].b);
  }

  lemma PushIdleEffect(s: Pool, t: Task)
    requires OnePlace(s) && Enabled(s, PushIdle(t))
    ensures Effect(s, Do(s, PushIdle(t)), {t})
  {
    assert Holds(s, t, s.tasks[t].b);
  }

  lemma PopIdleEffect(s: Pool, t: Task, b: Browser)
    requires OnePlace(s) && Enabled(s, PopIdle(t, b))
    ensures Effect(s, Do(s, PopIdle(t, b)), {t})
  {
    assert Holds(Do(s, PopIdle(t, b)), t, b);
  }

  lemma AllocateOkEffect(s: Pool, t: Task, b: Browser)
    requires OnePlace(s) && Enabled(s, AllocateOk(t, b))
    ensures Effect(s, Do(s, AllocateOk(t, b)), {t})
  {
    assert Holds(Do(s, AllocateOk(t, b)), t, b);
  }

  lemma EvictEffect(s: Pool, t: Task)
    requires OnePlace(s) && Enabled(s, Evict(t))
    ensures Effect(s, Do(s, Evict(t)), {t})
  {
    assert s.tasks[t].b in s.idle ==> Holds(Do(s, Evict(t)), t, s.tasks[t].b);
  }

  lemma ShutdownHolds(s: Pool, closers: map<Task, Browser>, u: Task, b: Browser)
    requires Enabled(s, Shutdown(closers))
    ensures Holds(Do(s, Shutdown(closers)), u, b) <==> Holds(s, u, b) || (u in closers && closers[u] == b)
  {
  }

  lemma ShutdownEffect(s: Pool, closers: map<Task, Browser>)
    requires OnePlace(s) && Enabled(s, Shutdown(closers))
    ensures Effect(s, Do(s, Shutdown(closers)), closers.Keys)
  {
    var s' := Do(s, Shutdown(closers));
    forall u, b ensures Holds(s', u, b) <==> Holds(s, u, b) || (u in closers && closers[u] == b) {
      ShutdownHolds(s, closers, u, b);
    }
    assert forall u :: u in closers ==> closers[u] in s.idle;
    ClosersTakeOver(s, s', closers);
  }

  lemma ClosersTakeOver(s: Pool, s': Pool, closers: map<Task, Browser>)
    requires OnePlace(s) && ClosersFor(s, closers)
    requires s'.idle == {} && s'.created == s.created && s'.closed == s.closed
    requires forall u, b :: Holds(s', u, b) <==> Holds(s, u, b) || (u in closers && closers[u] == b)
    ensures Effect(s, s', closers.Keys)
  {
    forall b | b in s.idle ensures exists u :: Holds(s', u, b) {
      var u :| u in closers && closers[u] == b;
      assert Holds(s', u, b);
    }
  }

  lemma EffectKeepsOnePlace(s: Pool, s': Pool, acts: set<Task>)
    requires OnePlace(s) && Effect(s, s', acts)
    ensures OnePlace(s')
  {
  }

  lemma EffectKeepsSomePlace(s: Pool, s': Pool, acts: set<Task>)
    requires SomePlace(s) && Effect(s, s', acts)
    ensures SomePlace(s')
  {
    forall b | b in s'.created
      ensures b in s'.idle || b in s'.closed || exists t :: Holds(s', t, b)
    {
      if t :| Holds(s, t, b) {
        assert t !in acts ==> Holds(s', t, b);
      }
    }
  }

  // ---- Timers ---------------------------------------------------------------------------------------

  /** The task uses browser `b`, and is not just closing it. */
  predicate Uses(s: Pool, t: Task, b: Browser) {
    Holds(s, t, b) && !s.tasks[t].Closing?
  }

  lemma StepUses(s: Pool, step: Step, u: Task, b: Browser)
    requires Enabled(s, step) && Uses(Do(s, step), u, b)
    ensures Uses(s, u, b) || b !in s.created || (b in s.timerOf && s.timerOf[b] !in Do(s, step).timers)
  {
  }

  /** Nothing but a push touches the table, arms a timer or forgets when a browser was created. */
  ghost predicate TimersStopped(s: Pool, s': Pool) {
    && s'.timerOf == s.timerOf && s'.nextTimer == s.nextTimer && s.created.Keys <= s'.created.Keys
    && (forall i :: i in s'.timers ==> i in s.timers && s'.timers[i] == s.timers[i])
  }

  lemma QuietStopsTimers(s: Pool, step: Step)
    requires Enabled(s, step) && Quiet(step)
    ensures TimersStopped(s, Do(s, step))
  {
  }

  lemma StepStopsTimers(s: Pool, step: Step)
    requires Enabled(s, step) && !step.PushIdle?
    ensures TimersStopped(s, Do(s, step))
  {
    if Quiet(step) {
      QuietStopsTimers(s, step);
    } else {
      match step {
        case FinishClose(t) => assert TimersStopped(s, Do(s, FinishClose(t)));
        case PopIdle(t, b) => assert TimersStopped(s, Do(s, PopIdle(t, b)));
        case AllocateOk(t, b) => assert TimersStopped(s, Do(s, AllocateOk(t, b)));
        case Evict(t) => assert TimersStopped(s, Do(s, Evict(t)));
        case Shutdown(closers) => assert TimersStopped(s, Do(s, Shutdown(closers)));
      }
    }
  }

  /** The timer table is sound after a step. */
  lemma StepKeepsTimerTable(s: Pool, step: Step)
    requires Inv(s) && Enabled(s, step)
    ensures TimerTable(Do(s, step))
  {
    var s' := Do(s, step);
    if step.PushIdle? {
      PushKeepsTimerTable(s, step.t);
    } else {
      StepStopsTimers(s, step);
      forall u, b | Uses(s', u, b)
        ensures b !in s'.timerOf || s'.timerOf[b] !in s'.timers
      {
        StepUses(s, step, u, b);
      }
    }
  }

  lemma PushKeepsTimerTable(s: Pool, t: Task)
    requires Inv(s) && Enabled(s, PushIdle(t))
    ensures TimerTable(Do(s, PushIdle(t)))
  {
    var s' := Do(s, PushIdle(t));
    var b := s.tasks[t].b;
    assert Uses(s, t, b);
    forall u, c | Uses(s', u, c)
      ensures c !in s'.timerOf || s'.timerOf[c] !in s'.timers
    {
      assert u != t && Uses(s, u, c) && c != b;
    }
  }

  /** A task that does not act stays where it is. */
  lemma OthersStay(s: Pool, step: Step, t: Task)
    requires Enabled(s, step) && t in s.tasks && t !in Acts(step)
    ensures t in Do(s, step).tasks && Do(s, step).tasks[t] == s.tasks[t]
  {
    if !step.Shutdown? && !step.Tick? {
      ActorMoves(s, step);
    }
  }

  /** The callbacks waiting to run, after a step. */
  lemma StepKeepsCallbacks(s: Pool, step: Step, t: Task, b: Browser)
    requires Enabled(s, step) && At(s, t, Evicting(b)) && b in s.idle && b in Do(s, step).idle
    ensures At(Do(s, step), t, Evicting(b))
  {
    if t !in Acts(step) {
      OthersStay(s, step, t);
    }
  }

  lemma StopsOnly(s: Pool, bs: set<Browser>, b: Browser)
    requires bs <= s.timerOf.Keys && b in s.timerOf && b !in bs
    requires forall c :: c in s.timerOf && s.timerOf[c] == s.timerOf[b] ==> c == b
    ensures s.timerOf[b] in s.timers ==> s.timerOf[b] in StopTimers(s, bs).timers
  {
  }

  /** An armed timer of a browser that stays idle stays armed until it fires. */
  lemma StepKeepsAlarm(s: Pool, step: Step, b: Browser)
    requires Enabled(s, step) && b in s.idle && b in Do(s, step).idle
    requires b in s.timerOf && s.timerOf[b] in s.timers && s.timerOf[b] < s.nextTimer
    requires forall c :: c in s.timerOf && s.timerOf[c] == s.timerOf[b] ==> c == b
    requires !(step.Fire? && step.i == s.timerOf[b])
    requires step.PushIdle? ==> s.tasks[step.t].b != b
    ensures s.timerOf[b] in Do(s, step).timers && Do(s, step).timers[s.timerOf[b]] == s.timers[s.timerOf[b]]
  {
    match step {
      case PopIdle(_, c) => StopsOnly(s, {c}, b);
      case Shutdown(_) =>
      case _ =>
    }
  }

  lemma StepKeepsRecords(s: Pool, step: Step, b: Browser)
    requires Enabled(s, step) && b in s.created && b in s.checkedIn && b in s.timerOf
    requires step.PushIdle? ==> s.tasks[step.t].b != b
    ensures var s' := Do(s, step);
            b in s'.created && b in s'.checkedIn && b in s'.timerOf &&
            s'.created[b] == s.created[b] && s'.checkedIn[b] == s.checkedIn[b] && s'.cfg == s.cfg &&
            s'.timerOf[b] == s.timerOf[b]
  {
  }

  lemma NewlyIdle(s: Pool, step: Step, b: Browser)
    requires Enabled(s, step) && b in Do(s, step).idle && b !in s.idle
    ensures step.PushIdle? && s.tasks[step.t].b == b
  {
  }

  lemma PushedIsWatched(s: Pool, t: Task)
    requires Enabled(s, PushIdle(t))
    ensures Watched(Do(s, PushIdle(t)), s.tasks[t].b)
  {
  }

  lemma StepKeepsWatched(s: Pool, step: Step, b: Browser)
    requires Inv(s) && Enabled(s, step) && b in Do(s, step).idle
    ensures Watched(Do(s, step), b)
  {
    if b in s.idle {
      assert Watched(s, b);
      if step.PushIdle? {
        assert Holds(s, step.t, s.tasks[step.t].b);
      }
      StaysWatched(s, step, b);
    } else {
      NewlyIdle(s, step, b);
      PushedIsWatched(s, step.t);
    }
  }

  lemma StaysWatched(s: Pool, step: Step, b: Browser)
    requires Enabled(s, step) && b in s.idle && b in Do(s, step).idle && Watched(s, b)
    requires s.timerOf[b] < s.nextTimer
    requires forall c :: c in s.timerOf && s.timerOf[c] == s.timerOf[b] ==> c == b
    requires step.PushIdle? ==> s.tasks[step.t].b != b
    ensures Watched(Do(s, step), b)
  {
    StepKeepsRecords(s, step, b);
    if t :| At(s, t, Evicting(b)) {
      StepKeepsCallbacks(s, step, t, b);
    } else if step.Fire? && step.i == s.timerOf[b] {
      assert At(Do(s, step), step.t, Evicting(b));
    } else {
      StepKeepsAlarm(s, step, b);
    }
  }

  lemma StepKeepsInv(s: Pool, step: Step)
    requires Inv(s) && Enabled(s, step)
    ensures Inv(Do(s, step))
  {
    StepEffect(s, step);
    EffectKeepsOnePlace(s, Do(s, step), Acts(step));
    EffectKeepsSomePlace(s, Do(s, step), Acts(step));
    StepKeepsTimerTable(s, step);
    forall b | b in Do(s, step).idle ensures Watched(Do(s, step), b) {
      StepKeepsWatched(s, step, b);
    }
  }

  // ---- Runs -----------------------------------------------------------------------------------------

  predicate Valid(s: Pool, steps: seq<Step>)
    decreases |steps|
  {
    steps != [] ==> Enabled(s, steps[0]) && Valid(Do(s, steps[0]), steps[1..])
  }

  function Run(s: Pool, steps: seq<Step>): Pool
    requires Valid(s, steps)
    decreases |steps|
  {
    if steps == [] then s else Run(Do(s, steps[0]), steps[1..])
  }

  lemma {:induction false} RunKeepsInv(s: Pool, steps: seq<Step>)
    requires Inv(s) && Valid(s, steps)
    ensures Inv(Run(s, steps))
    decreases |steps|
  {
    if steps != [] {
      StepKeepsInv(s, steps[0]);
      RunKeepsInv(Do(s, steps[0]), steps[1..]);
    }
  }

  /** In every reachable state each browser ever allocated is in exactly one place: used by one task or
      being closed by one task, or idle, or closed once. */
  lemma ExactlyOnePlace(cfg: Config, now: int, steps: seq<Step>, b: Browser)
    requires Valid(Initial(cfg, now), steps)
    requires b in Run(Initial(cfg, now), steps).created
    ensures var s := Run(Initial(cfg, now), steps);
            && (b in s.idle || b in s.closed || exists t :: Holds(s, t, b))
            && !(b in s.idle && b in s.closed)
            && (forall t :: Holds(s, t, b) ==> b !in s.idle && b !in s.closed)
            && (forall t, u :: Holds(s, t, b) && Holds(s, u, b) ==> t == u)
            && multiset(s.closed)[b] <= 1
  {
    var s := Run(Initial(cfg, now), steps);
    InitialInv(cfg, now);
    RunKeepsInv(Initial(cfg, now), steps);
    NoRepetition(s.closed, b);
  }

  lemma {:induction false} NoRepetition(bs: seq<Browser>, b: Browser)
    requires forall i, j :: 0 <= i < j < |bs| ==> bs[i] != bs[j]
    ensures multiset(bs)[b] <= 1
  {
    if bs != [] {
      assert bs == bs[..|bs|-1] + [bs[|bs|-1]];
      NoRepetition(bs[..|bs|-1], b);
      if bs[|bs|-1] == b {
        assert b !in bs[..|bs|-1];
      }
    }
  }

  /** An idle browser past its deadline is about to be closed: its callback is pending, or its timer can
      fire; and a callback that runs takes the browser out of the pool and closes it. */
  lemma IdleIsNotForgotten(cfg: Config, start: int, steps: seq<Step>, b: Browser)
    requires Valid(Initial(cfg, start), steps)
    requires b in Run(Initial(cfg, start), steps).idle
    ensures var s := Run(Initial(cfg, start), steps);
            && Watched(s, b)
            && (Deadline(s, b) <= s.now ==>
                  || (exists t :: At(s, t, Evicting(b)))
                  || (s.timerOf[b] in s.timers && s.timers[s.timerOf[b]].b == b &&
                      forall t :: t !in s.tasks ==> Enabled(s, Fire(s.timerOf[b], t))))
            && (forall t :: At(s, t, Evicting(b)) ==>
                  Enabled(s, Evict(t)) && b !in Do(s, Evict(t)).idle && At(Do(s, Evict(t)), t, Closing(b)))
  {
    InitialInv(cfg, start);
    RunKeepsInv(Initial(cfg, start), steps);
    assert Watched(Run(Initial(cfg, start), steps), b);
  }

  // ---- The bound on idle browsers -------------------------------------------------------------------

  /** The check-ins between PoolState's answer and pushIdle. */
  function InFlight(s: Pool): set<Task> {
    set t | t in s.tasks && (s.tasks[t].Counted? || s.tasks[t].Young?)
  }

  /** At most `k` check-ins are ever between their check and their push. */
  predicate AtMostInFlight(s: Pool, steps: seq<Step>, k: nat)
    requires Valid(s, steps)
    decreases |steps|
  {
    |InFlight(s)| <= k && (steps != [] ==> AtMostInFlight(Do(s, steps[0]), steps[1..], k))
  }

  lemma GotoInFlight(s: Pool, s': Pool, t: Task, pc: PC)
    requires s'.tasks == s.tasks[t := pc]
    ensures InFlight(s') == if pc.Counted? || pc.Young? then InFlight(s) + {t} else InFlight(s) - {t}
  {
  }

  lemma ShutdownInFlight(s: Pool, closers: map<Task, Browser>)
    requires Enabled(s, Shutdown(closers))
    ensures InFlight(Do(s, Shutdown(closers))) == InFlight(s)
  {
  }

  predicate PassesCheck(s: Pool, step: Step)
    requires Enabled(s, step)
  {
    step.CloseReuse? && At(Do(s, step), step.t, Counted(s.tasks[step.t].b))
  }

  lemma ActorMovesQuietly(s: Pool, step: Step)
    requires Enabled(s, step) && Quiet(step) && !step.Tick?
    ensures step.t in Do(s, step).tasks && Do(s, step).tasks == s.tasks[step.t := Do(s, step).tasks[step.t]]
  {
  }

  lemma ActorMoves(s: Pool, step: Step)
    requires Enabled(s, step) && !step.Shutdown? && !step.Tick?
    ensures step.t in Do(s, step).tasks && Do(s, step).tasks == s.tasks[step.t := Do(s, step).tasks[step.t]]
  {
    if Quiet(step) {
      ActorMovesQuietly(s, step);
    } else {
      match step {
        case FinishClose(t) => assert Do(s, FinishClose(t)).tasks == s.tasks[t := Finished];
        case PushIdle(t) => assert Do(s, PushIdle(t)).tasks == s.tasks[t := Finished];
        case PopIdle(t, b) => assert Do(s, PopIdle(t, b)).tasks == s.tasks[t := Leased(b)];
        case AllocateOk(t, b) => assert Do(s, AllocateOk(t, b)).tasks == s.tasks[t := Leased(b)];
        case Evict(t) =>
      }
    }
  }

  lemma OnlyPushGrowsIdle(s: Pool, step: Step)
    requires Enabled(s, step)
    ensures step.PushIdle? ==>
              |Do(s, step).idle| <= |s.idle| + 1 && step.t in InFlight(s) && At(Do(s, step), step.t, Finished)
    ensures !step.PushIdle? ==> Do(s, step).idle <= s.idle
  {
  }

  lemma OnlyChecksEnterTheGap(s: Pool, step: Step)
    requires Enabled(s, step) && !PassesCheck(s, step) && !step.Shutdown? && !step.Tick?
    requires step.t !in InFlight(s)
    ensures step.t !in InFlight(Do(s, step))
  {
  }

  lemma InFlightChange(s: Pool, step: Step)
    requires Enabled(s, step) && !PassesCheck(s, step)
    ensures |Do(s, step).idle| + |InFlight(Do(s, step))| <= |s.idle| + |InFlight(s)|
  {
    var s' := Do(s, step);
    OnlyPushGrowsIdle(s, step);
    if step.Tick? {
      assert InFlight(s') == InFlight(s);
    } else if step.Shutdown? {
      ShutdownInFlight(s, step.closers);
    } else {
      ActorMoves(s, step);
      GotoInFlight(s, s', step.t, s'.tasks[step.t]);
      if step.t !in InFlight(s) {
        OnlyChecksEnterTheGap(s, step);
      }
      CardinalityMonotone(InFlight(s'), InFlight(s));
    }
    if !step.PushIdle? {
      CardinalityMonotone(s'.idle, s.idle);
    }
  }

  lemma {:induction false} CardinalityMonotone(x: set<nat>, y: set<nat>)
    requires x <= y
    ensures |x| <= |y|
  {
    assert y == x + (y - x);
  }

  lemma PassingCheck(s: Pool, step: Step)
    requires Enabled(s, step) && PassesCheck(s, step)
    ensures |s.idle| < s.cfg.maxIdle && Do(s, step).idle == s.idle && !s.shutdown
  {
  }

  lemma ConfigStays(s: Pool, step: Step)
    requires Enabled(s, step)
    ensures Do(s, step).cfg == s.cfg
  {
  }

  /** Check and push are two critical sections, so `maxIdle` alone is no bound; with at most `k >= 1`
      check-ins in that gap together, `maxIdle - 1 + k` is. */
  lemma {:induction false} IdleBound(s: Pool, steps: seq<Step>, k: nat)
    requires Valid(s, steps) && AtMostInFlight(s, steps, k)
    requires |s.idle| + |InFlight(s)| <= s.cfg.maxIdle - 1 + k
    ensures |Run(s, steps).idle| <= s.cfg.maxIdle - 1 + k
    decreases |steps|
  {
    if steps != [] {
      ConfigStays(s, steps[0]);
      if PassesCheck(s, steps[0]) {
        PassingCheck(s, steps[0]);
      } else {
        InFlightChange(s, steps[0]);
      }
      IdleBound(Do(s, steps[0]), steps[1..], k);
    }
  }

  lemma ReachableIdleBound(cfg: Config, now: int, steps: seq<Step>, k: nat)
    requires 1 <= cfg.maxIdle && 1 <= k
    requires Valid(Initial(cfg, now), steps) && AtMostInFlight(Initial(cfg, now), steps, k)
    ensures |Run(Initial(cfg, now), steps).idle| <= cfg.maxIdle - 1 + k
  {
    assert InFlight(Initial(cfg, now)) == {};
    IdleBound(Initial(cfg, now), steps, k);
  }

  // ---- Shutdown -------------------------------------------------------------------------------------

  lemma {:induction false} ShutdownIsFinal(s: Pool, steps: seq<Step>)
    requires Valid(s, steps) && s.shutdown
    ensures Run(s, steps).shutdown
    decreases |steps|
  {
    if steps != [] {
      ShutdownIsFinal(Do(s, steps[0]), steps[1..]);
    }
  }

  /** Out of reach of clients: idle, being closed, or closed. */
  predicate Retired(s: Pool, b: Browser) {
    b in s.created && (b in s.idle || b in s.closed || exists t | t in s.tasks :: s.tasks[t] == Closing(b))
  }

  /** After Shutdown no idle browser is handed out any more: it stays idle until it is closed. */
  lemma {:induction false} NoneHandedOutAfterShutdown(s: Pool, steps: seq<Step>, b: Browser)
    requires Inv(s) && Valid(s, steps) && s.shutdown && Retired(s, b)
    ensures Retired(Run(s, steps), b)
    decreases |steps|
  {
    if steps != [] {
      StepKeepsInv(s, steps[0]);
      StaysRetired(s, steps[0], b);
      NoneHandedOutAfterShutdown(Do(s, steps[0]), steps[1..], b);
    }
  }

  lemma IdleStaysRetired(s: Pool, step: Step, b: Browser)
    requires Enabled(s, step) && s.shutdown && b in s.created && b in s.idle
    ensures Retired(Do(s, step), b)
  {
    var s' := Do(s, step);
    if step.Evict? && s.tasks[step.t].b == b {
      assert s'.tasks[step.t] == Closing(b);
    } else if step.Shutdown? {
      var t :| t in step.closers && step.closers[t] == b;
      assert s'.tasks[t] == Closing(b);
    }
  }

  lemma ClosingStaysRetired(s: Pool, step: Step, t: Task, b: Browser)
    requires Enabled(s, step) && s.shutdown && b in s.created && At(s, t, Closing(b))
    ensures Retired(Do(s, step), b)
  {
    var s' := Do(s, step);
    if step.FinishClose? && step.t == t {
      assert b in s'.closed;
    } else {
      assert s'.tasks[t] == Closing(b);
    }
  }

  lemma StaysRetired(s: Pool, step: Step, b: Browser)
    requires Enabled(s, step) && s.shutdown && Retired(s, b)
    ensures Retired(Do(s, step), b)
  {
    if b in s.idle {
      IdleStaysRetired(s, step, b);
    } else if t :| t in s.tasks && s.tasks[t] == Closing(b) {
      ClosingStaysRetired(s, step, t, b);
    }
  }

  /** A browser still leased when the pool shuts down never becomes idle again: its check-in closes it. */
  lemma {:induction false} LateCheckinCloses(s: Pool, steps: seq<Step>, b: Browser, t: Task)
    requires Inv(s) && Valid(s, steps) && s.shutdown
    requires At(s, t, Leased(b)) || At(s, t, Closing(b)) || b in s.closed
    ensures b !in Run(s, steps).idle
    ensures var s' := Run(s, steps); At(s', t, Leased(b)) || At(s', t, Closing(b)) || b in s'.closed
    decreases |steps|
  {
    if steps == [] {
      assert Holds(s, t, b) || b in s.closed;
    } else {
      var s' := Do(s, steps[0]);
      StepKeepsInv(s, steps[0]);
      StaysOnTheWayOut(s, steps[0], b, t);
      LateCheckinCloses(s', steps[1..], b, t);
    }
  }

  lemma StaysOnTheWayOut(s: Pool, step: Step, b: Browser, t: Task)
    requires Enabled(s, step) && s.shutdown
    requires At(s, t, Leased(b)) || At(s, t, Closing(b)) || b in s.closed
    ensures var s' := Do(s, step); At(s', t, Leased(b)) || At(s', t, Closing(b)) || b in s'.closed
  {
  }
}
