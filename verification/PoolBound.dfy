/**
 How many browsers can be idle: the bound of `PoolProtocol` on runs with at most `k` check-ins between their check and
 their push is reached, whatever the configuration, so `maxIdle` itself is a bound only when check-ins do not overlap.
 */
module PoolBound {
  import opened PoolProtocol

  /** A run to `s'` with at most `k` check-ins in the gap at any time. */
  ghost predicate Reaches(s: Pool, steps: seq<Step>, k: nat, s': Pool) {
    Valid(s, steps) && AtMostInFlight(s, steps, k) && Run(s, steps) == s'
  }

  lemma {:induction false} OneMoreStep(s: Pool, steps: seq<Step>, k: nat, s1: Pool, step: Step)
    requires Reaches(s, steps, k, s1) && Enabled(s1, step) && |InFlight(Do(s1, step))| <= k
    ensures Reaches(s, steps + [step], k, Do(s1, step))
    decreases |steps|
  {
    if steps == [] {
      assert ([] + [step])[1..] == [];
    } else {
      OneMoreStep(Do(s, steps[0]), steps[1..], k, s1, step);
      assert (steps + [step])[1..] == steps[1..] + [step];
    }
  }

  /** Where task and browser `i` are when `p` browsers are idle, `c` more are in the gap, and the rest is leased. */
  function Place(i: nat, p: nat, c: nat): PC {
    if i < p then Finished else if i < p + c then Counted(i) else Leased(i)
  }

  ghost predicate Placed(tasks: map<Task, PC>, n: nat, p: nat, c: nat) {
    (forall i: nat :: i in tasks <==> i < n) && (forall i: nat :: i < n ==> tasks[i] == Place(i, p, c))
  }

  /** The first `n` browsers were created just now, and the first `p` of them are idle. */
  ghost predicate Stocked(s: Pool, n: nat, p: nat) {
    && |s.idle| == p && (forall i: nat :: i in s.idle <==> i < p)
    && (forall i: nat :: i in s.created <==> i < n) && (forall i: nat :: i < n ==> s.created[i] == s.now)
  }

  ghost predicate Stage(s: Pool, cfg: Config, n: nat, p: nat, c: nat) {
    s.cfg == cfg && !s.shutdown && p + c <= n && |InFlight(s)| == c && Placed(s.tasks, n, p, c) && Stocked(s, n, p)
  }

  lemma Moves(s: Pool, s': Pool, t: Task, pc: PC)
    requires s'.tasks == s.tasks[t := pc]
    ensures pc.Counted? || pc.Young? ==> InFlight(s') == InFlight(s) + {t}
    ensures !pc.Counted? && !pc.Young? ==> InFlight(s') == InFlight(s) - {t}
  {
  }

  /** The three steps of a checkout that finds nothing idle. */
  lemma LeaseSteps(s: Pool, n: nat)
    requires Stage(s, s.cfg, n, 0, 0)
    ensures Enabled(s, CheckOut(n))
    ensures var s1 := Do(s, CheckOut(n));
            && s1 == s.(tasks := s.tasks[n := CheckingOut]) && Enabled(s1, PopNothing(n))
            && Do(s1, PopNothing(n)) == s.(tasks := s.tasks[n := Allocating])
  {
    assert s.idle == {};
    var s1 := Do(s, CheckOut(n));
    assert s1.tasks[n := Allocating] == s.tasks[n := Allocating];
  }

  lemma LeaseLast(s: Pool, s2: Pool, n: nat)
    requires Stage(s, s.cfg, n, 0, 0) && s2 == s.(tasks := s.tasks[n := Allocating])
    ensures Enabled(s2, AllocateOk(n, n)) && Stage(Do(s2, AllocateOk(n, n)), s.cfg, n + 1, 0, 0)
  {
    var s' := Do(s2, AllocateOk(n, n));
    Moves(s, s', n, Leased(n));
    assert InFlight(s') == InFlight(s);
  }

  /** One browser more is leased, while none is idle. */
  lemma LeaseOne(s0: Pool, steps: seq<Step>, k: nat, s: Pool, n: nat) returns (steps': seq<Step>, s': Pool)
    requires Reaches(s0, steps, k, s) && Stage(s, s.cfg, n, 0, 0)
    ensures Reaches(s0, steps', k, s') && Stage(s', s.cfg, n + 1, 0, 0)
  {
    var a, b, c := CheckOut(n), PopNothing(n), AllocateOk(n, n);
    LeaseSteps(s, n);
    var s1 := Do(s, a);
    Moves(s, s1, n, CheckingOut);
    OneMoreStep(s0, steps, k, s, a);
    var s2 := Do(s1, b);
    Moves(s, s2, n, Allocating);
    OneMoreStep(s0, steps + [a], k, s1, b);
    LeaseLast(s, s2, n);
    OneMoreStep(s0, steps + [a] + [b], k, s2, c);
    steps', s' := steps + [a] + [b] + [c], Do(s2, c);
  }

  lemma {:induction false} LeaseAll(cfg: Config, now: int, k: nat, n: nat) returns (steps: seq<Step>, s: Pool)
    ensures Reaches(Initial(cfg, now), steps, k, s) && Stage(s, cfg, n, 0, 0)
  {
    if n == 0 {
      steps, s := [], Initial(cfg, now);
      assert InFlight(s) == {};
    } else {
      steps, s := LeaseAll(cfg, now, k, n - 1);
      steps, s := LeaseOne(Initial(cfg, now), steps, k, s, n - 1);
    }
  }

  lemma PlacedCounted(tasks: map<Task, PC>, n: nat, p: nat, c: nat)
    requires Placed(tasks, n, p, c) && p + c < n
    ensures Placed(tasks[p + c := Counted(p + c)], n, p, c + 1)
  {
  }

  lemma PlacedPushed(tasks: map<Task, PC>, n: nat, p: nat, c: nat)
    requires Placed(tasks, n, p, c) && 0 < c && p + c <= n
    ensures Placed(tasks[p := Finished], n, p + 1, c - 1)
  {
  }

  lemma CountStep(s: Pool, n: nat, p: nat, c: nat)
    requires Stage(s, s.cfg, n, p, c) && p + c < n && p < s.cfg.maxIdle
    ensures Enabled(s, CloseReuse(p + c)) && Stage(Do(s, CloseReuse(p + c)), s.cfg, n, p, c + 1)
  {
    var s' := Do(s, CloseReuse(p + c));
    assert s' == s.(tasks := s.tasks[p + c := Counted(p + c)]);
    PlacedCounted(s.tasks, n, p, c);
    Moves(s, s', p + c, Counted(p + c));
    assert p + c !in InFlight(s);
  }

  /** A check-in passes the check for room. */
  lemma CountOne(s0: Pool, steps: seq<Step>, k: nat, s: Pool, n: nat, p: nat, c: nat)
      returns (steps': seq<Step>, s': Pool)
    requires Reaches(s0, steps, k, s) && Stage(s, s.cfg, n, p, c) && p + c < n && p < s.cfg.maxIdle && c < k
    ensures Reaches(s0, steps', k, s') && Stage(s', s.cfg, n, p, c + 1)
  {
    CountStep(s, n, p, c);
    OneMoreStep(s0, steps, k, s, CloseReuse(p + c));
    steps', s' := steps + [CloseReuse(p + c)], Do(s, CloseReuse(p + c));
  }

  lemma AgeStep(s: Pool, n: nat, p: nat, c: nat)
    requires Stage(s, s.cfg, n, p, c) && 0 < c && s.cfg.maxAge >= 0
    ensures Enabled(s, CheckAge(p)) && Do(s, CheckAge(p)) == s.(tasks := s.tasks[p := Young(p)])
    ensures InFlight(Do(s, CheckAge(p))) == InFlight(s)
  {
    assert p in InFlight(s);
    Moves(s, Do(s, CheckAge(p)), p, Young(p));
  }

  lemma PushStep(s: Pool, s1: Pool, n: nat, p: nat, c: nat)
    requires Stage(s, s.cfg, n, p, c) && 0 < c && s1 == s.(tasks := s.tasks[p := Young(p)])
    ensures Enabled(s1, PushIdle(p)) && Stage(Do(s1, PushIdle(p)), s.cfg, n, p + 1, c - 1)
  {
    var s' := Do(s1, PushIdle(p));
    assert p in InFlight(s);
    Moves(s, s', p, Finished);
    assert s'.tasks == s.tasks[p := Finished];
    PlacedPushed(s.tasks, n, p, c);
    assert s'.idle == s.idle + {p};
  }

  /** The first check-in in the gap passes the check for age and pushes its browser. */
  lemma PushOne(s0: Pool, steps: seq<Step>, k: nat, s: Pool, n: nat, p: nat, c: nat)
      returns (steps': seq<Step>, s': Pool)
    requires Reaches(s0, steps, k, s) && Stage(s, s.cfg, n, p, c) && 0 < c <= k && s.cfg.maxAge >= 0
    ensures Reaches(s0, steps', k, s') && Stage(s', s.cfg, n, p + 1, c - 1)
  {
    AgeStep(s, n, p, c);
    OneMoreStep(s0, steps, k, s, CheckAge(p));
    var s1 := Do(s, CheckAge(p));
    PushStep(s, s1, n, p, c);
    OneMoreStep(s0, steps + [CheckAge(p)], k, s1, PushIdle(p));
    steps', s' := steps + [CheckAge(p)] + [PushIdle(p)], Do(s1, PushIdle(p));
  }

  /** Check-ins one at a time. */
  lemma {:induction false} FillUp(s0: Pool, steps: seq<Step>, k: nat, s: Pool, n: nat, p: nat)
      returns (steps': seq<Step>, s': Pool)
    requires Reaches(s0, steps, k, s) && Stage(s, s.cfg, n, 0, 0) && p <= n && p <= s.cfg.maxIdle && k >= 1
             && s.cfg.maxAge >= 0
    ensures Reaches(s0, steps', k, s') && Stage(s', s.cfg, n, p, 0)
    decreases p
  {
    if p == 0 {
      steps', s' := steps, s;
    } else {
      steps', s' := FillUp(s0, steps, k, s, n, p - 1);
      steps', s' := CountOne(s0, steps', k, s', n, p - 1, 0);
      steps', s' := PushOne(s0, steps', k, s', n, p - 1, 1);
    }
  }

  /** Check-ins that all pass the check for room before any of them pushes. */
  lemma {:induction false} CountAll(s0: Pool, steps: seq<Step>, k: nat, s: Pool, n: nat, p: nat, c: nat)
      returns (steps': seq<Step>, s': Pool)
    requires Reaches(s0, steps, k, s) && Stage(s, s.cfg, n, p, 0) && p + c <= n && p < s.cfg.maxIdle && c <= k
    ensures Reaches(s0, steps', k, s') && Stage(s', s.cfg, n, p, c)
    decreases c
  {
    if c == 0 {
      steps', s' := steps, s;
    } else {
      steps', s' := CountAll(s0, steps, k, s, n, p, c - 1);
      steps', s' := CountOne(s0, steps', k, s', n, p, c - 1);
    }
  }

  lemma {:induction false} PushAll(s0: Pool, steps: seq<Step>, k: nat, s: Pool, n: nat, p: nat, c: nat)
      returns (steps': seq<Step>, s': Pool)
    requires Reaches(s0, steps, k, s) && Stage(s, s.cfg, n, p, c) && c <= k && s.cfg.maxAge >= 0
    ensures Reaches(s0, steps', k, s') && Stage(s', s.cfg, n, p + c, 0)
    decreases c
  {
    if c == 0 {
      steps', s' := steps, s;
    } else {
      steps', s' := PushOne(s0, steps, k, s, n, p, c);
      steps', s' := PushAll(s0, steps', k, s', n, p + 1, c - 1);
    }
  }

  /** The bound is reached: with `k` check-ins in the gap, a pool that keeps `maxIdle` browsers comes to hold
      `maxIdle - 1 + k`. */
  lemma BoundIsReached(cfg: Config, now: int, k: nat) returns (steps: seq<Step>)
    requires 1 <= cfg.maxIdle && 1 <= k && 0 <= cfg.maxAge
    ensures var s := Initial(cfg, now);
            Valid(s, steps) && AtMostInFlight(s, steps, k) && |Run(s, steps).idle| == cfg.maxIdle - 1 + k
  {
    var s0, p := Initial(cfg, now), cfg.maxIdle - 1;
    var s;
    steps, s := LeaseAll(cfg, now, k, p + k);
    steps, s := FillUp(s0, steps, k, s, p + k, p);
    steps, s := CountAll(s0, steps, k, s, p + k, p, k);
    steps, s := PushAll(s0, steps, k, s, p + k, p, k);
  }

  /** With a negative maximal age every browser is too old to be kept. */
  ghost predicate NoneKept(s: Pool) {
    && s.cfg.maxAge < 0 && s.idle == {}
    && (forall b :: b in s.created ==> s.created[b] <= s.now)
    && (forall t :: t in s.tasks ==> !s.tasks[t].Young?)
  }

  lemma StepKeepsNone(s: Pool, step: Step)
    requires NoneKept(s) && Enabled(s, step)
    ensures NoneKept(Do(s, step))
  {
    match step
    case CheckAge(t) => assert s.now - s.created[s.tasks[t].b] > s.cfg.maxAge;
    case Shutdown(closers) =>
    case _ =>
  }

  lemma {:induction false} NoneIsKept(s: Pool, steps: seq<Step>)
    requires NoneKept(s) && Valid(s, steps)
    ensures Run(s, steps).idle == {}
    decreases |steps|
  {
    if steps != [] {
      StepKeepsNone(s, steps[0]);
      NoneIsKept(Do(s, steps[0]), steps[1..]);
    }
  }

  /** `maxIdle` bounds the number of idle browsers in every run with at most `k` check-ins in the gap exactly if no two
      of them can be there together, or no browser is ever kept. */
  lemma MaxIdleBoundsExactly(cfg: Config, now: int, k: nat)
    requires 1 <= cfg.maxIdle && 1 <= k
    ensures (forall steps :: Valid(Initial(cfg, now), steps) && AtMostInFlight(Initial(cfg, now), steps, k) ==>
              |Run(Initial(cfg, now), steps).idle| <= cfg.maxIdle)
            <==> k <= 1 || cfg.maxAge < 0
  {
    if k <= 1 {
      forall steps | Valid(Initial(cfg, now), steps) && AtMostInFlight(Initial(cfg, now), steps, k)
        ensures |Run(Initial(cfg, now), steps).idle| <= cfg.maxIdle
      {
        ReachableIdleBound(cfg, now, steps, k);
      }
    } else if cfg.maxAge < 0 {
      forall steps | Valid(Initial(cfg, now), steps)
        ensures |Run(Initial(cfg, now), steps).idle| <= cfg.maxIdle
      {
        NoneIsKept(Initial(cfg, now), steps);
      }
    } else {
      var steps := BoundIsReached(cfg, now, k);
    }
  }
}
