/** The reusable counting barrier of barrier.c. */
module Barrier {
  import opened CondVar

  /**
   `count` and `total` are the fields of struct barrier. `arrivals` and `releases` record
   history: calls of barrier_wait that counted themselves in, and broadcasts sent.
   */
  datatype State = State(count: int, total: int, cond: Cond, arrivals: nat, releases: nat)

  function Init(total: int): (r: State)
  {
    State(0, total, NOBODY, 0, 0)
  }

  /** The section of barrier_wait from the lock to the wait or the unlock. */
  function Arrive(s: State, t: Tid): (r: State)
  {
    var s' := s.(count := s.count + 1, arrivals := s.arrivals + 1);
    if s'.count < s'.total then
      s'.(cond := s'.cond.Wait(t))
    else
      s'.(count := 0, cond := s'.cond.Broadcast(), releases := s'.releases + 1)
  }

  /** A woken thread gets the mutex back, unlocks it and returns. */
  function Depart(s: State, t: Tid): (r: State)
  {
    s.(cond := s.cond.Resume(t))
  }

  datatype Step = Arrives(t: Tid) | Departs(t: Tid) | Spurious(t: Tid)

  /** A blocked thread may also be woken without a broadcast; it will depart like any woken thread. */
  predicate Enabled(s: State, step: Step)
  {
    match step
    case Arrives(t) => t !in s.cond.waiters
    case Departs(t) => t in s.cond.woken
    case Spurious(t) => t in s.cond.Blocked()
  }

  function Apply(s: State, step: Step): (r: State)
  {
    match step
    case Arrives(t) => Arrive(s, t)
    case Departs(t) => Depart(s, t)
    case Spurious(t) => s.(cond := s.cond.Wake({t}))
  }

  ghost predicate Possible(s: State, steps: seq<Step>)
    decreases |steps|
  {
    steps == [] || (Enabled(s, steps[0]) && Possible(Apply(s, steps[0]), steps[1..]))
  }

  ghost function Run(s: State, steps: seq<Step>): (r: State)
    decreases |steps|
  {
    if steps == [] then s else Run(Apply(s, steps[0]), steps[1..])
  }

  /** The counter stays below `total` and is the number of blocked threads plus `early`. */
  ghost predicate Counted(s: State, early: nat)
  {
    && s.cond.Valid() && s.cond.expired == {}
    && 0 <= s.count < s.total
    && s.count == |s.cond.Blocked()| + early
  }

  ghost predicate Valid(s: State)
  {
    Counted(s, 0)
  }

  /** Every release has used up exactly `total` arrivals. */
  ghost predicate Tallied(s: State)
  {
    s.arrivals == s.total * s.releases + s.count
  }

  /** The spurious wakeups since the last release after a step, when there were `early` before it. */
  function EarlyAfter(s: State, step: Step, early: nat): (r: nat)
  {
    if step.Spurious? then early + 1
    else if step.Arrives? && s.count + 1 >= s.total then 0
    else early
  }

  ghost function EarlyAfterRun(s: State, steps: seq<Step>, early: nat): (r: nat)
    decreases |steps|
  {
    if steps == [] then early
    else EarlyAfterRun(Apply(s, steps[0]), steps[1..], EarlyAfter(s, steps[0], early))
  }

  lemma ArriveKeepsValid(s: State, t: Tid)
    requires Valid(s) && t !in s.cond.waiters
    ensures Valid(Arrive(s, t)) && Arrive(s, t).total == s.total
  {
  }

  lemma StepKeepsTally(s: State, step: Step)
    requires Tallied(s) && 0 <= s.count < s.total
    ensures Tallied(Apply(s, step))
  {
    assert s.total * (s.releases + 1) == s.total * s.releases + s.total;
  }

  lemma SpuriousCounts(s: State, t: Tid, early: nat)
    requires Counted(s, early) && t in s.cond.Blocked()
    ensures Counted(s.(cond := s.cond.Wake({t})), early + 1)
  {
    assert s.cond.Wake({t}).Blocked() == s.cond.Blocked() - {t};
  }

  lemma DepartKeepsCounted(s: State, t: Tid, early: nat)
    requires Counted(s, early) && t in s.cond.woken
    ensures Counted(Depart(s, t), early)
  {
  }

  lemma ArriveCounts(s: State, t: Tid, early: nat)
    requires Counted(s, early) && t !in s.cond.waiters
    ensures Counted(Arrive(s, t), if s.count + 1 >= s.total then 0 else early)
  {
  }

  /** A spurious wakeup makes the counter one too high, a release makes it right, other steps leave it. */
  lemma StepCounts(s: State, step: Step, early: nat)
    requires Counted(s, early) && Enabled(s, step)
    ensures Counted(Apply(s, step), EarlyAfter(s, step, early)) && Apply(s, step).total == s.total
  {
    hide Counted;
    match step
    case Spurious(t) => SpuriousCounts(s, t, early);
    case Departs(t) => DepartKeepsCounted(s, t, early);
    case Arrives(t) => ArriveCounts(s, t, early);
  }

  lemma InitValid(total: int)
    requires total > 0
    ensures Valid(Init(total)) && Tallied(Init(total))
  {
  }

  /**
   Over every run, for any number of threads: each release consumes exactly `total` arrivals, and
   the counter exceeds the number of blocked threads by the spurious wakeups since the last release.
   */
  lemma {:induction false} CountsArrivals(s: State, steps: seq<Step>, early: nat)
    requires Counted(s, early) && Tallied(s) && Possible(s, steps)
    ensures Counted(Run(s, steps), EarlyAfterRun(s, steps, early))
    ensures Tallied(Run(s, steps)) && Run(s, steps).total == s.total
    decreases |steps|
  {
    if steps != [] {
      StepKeepsTally(s, steps[0]);
      StepCounts(s, steps[0], early);
      CountsArrivals(Apply(s, steps[0]), steps[1..], EarlyAfter(s, steps[0], early));
    }
  }

  /**
   The release is all or nothing: it happens at the arrival that finds total - 1 - early threads
   blocked, frees all of them, does not make the caller wait and makes the counter right again; any
   other arrival just blocks. So `early` wakeups let a group of total - early threads through.
   */
  lemma ReleaseFreesEveryone(s: State, early: nat, t: Tid)
    requires Counted(s, early) && t !in s.cond.waiters
    ensures var s' := Arrive(s, t);
      && (s'.releases == s.releases + 1 <==> |s.cond.Blocked()| == s.total - 1 - early)
      && (s'.releases == s.releases + 1 ==>
            && s'.cond.Blocked() == {} && s'.cond.woken == s.cond.woken + s.cond.Blocked()
            && t !in s'.cond.waiters && Valid(s'))
      && (s'.releases != s.releases + 1 ==>
            s'.releases == s.releases && t in s'.cond.Blocked() && s'.cond.woken == s.cond.woken)
  {
  }

  // ---------------------------------------------------------------- spurious wakeups

  ghost predicate EverMiscounted(s: State, steps: seq<Step>)
    decreases |steps|
  {
    steps != [] &&
    var s' := Apply(s, steps[0]);
    s'.count != |s'.cond.Blocked()| || EverMiscounted(s', steps[1..])
  }

  ghost predicate AnySpurious(steps: seq<Step>)
  {
    exists k :: 0 <= k < |steps| && steps[k].Spurious?
  }

  lemma AnyIsFirstOrRest(steps: seq<Step>)
    requires steps != []
    ensures AnySpurious(steps) <==> steps[0].Spurious? || AnySpurious(steps[1..])
  {
    assert forall k :: 0 < k < |steps| ==> steps[k] == steps[1..][k - 1];
  }

  /**
   barrier_wait tests its condition once, with `if`: the counter is the number of blocked threads
   in every state of a run if and only if the run has no spurious wakeup.
   */
  lemma {:induction false} SpuriousWakeupBreaksCount(s: State, steps: seq<Step>)
    requires Valid(s) && Possible(s, steps)
    ensures EverMiscounted(s, steps) <==> AnySpurious(steps)
    decreases |steps|
  {
    hide Apply;
    if steps != [] {
      StepCounts(s, steps[0], 0);
      AnyIsFirstOrRest(steps);
      if !steps[0].Spurious? {
        SpuriousWakeupBreaksCount(Apply(s, steps[0]), steps[1..]);
      }
    }
  }

  /** struct barrier; `cond` stands for the condition variable's own state, history is ghost. */
  class BarrierObject {
    var count: int
    const total: int
    var cond: Cond
    ghost var arrivals: nat
    ghost var releases: nat

    ghost function Abs(): (r: State)
      reads this
    {
      State(count, total, cond, arrivals, releases)
    }

    constructor (total: int)
      ensures Abs() == Init(total)
    {
      this.count := 0;
      this.total := total;
      this.cond := NOBODY;
      this.arrivals := 0;
      this.releases := 0;
    }

    /** Returns whether the caller now waits on the condition variable. */
    method Wait(t: Tid) returns (waits: bool)
      modifies this
      ensures Abs() == Arrive(old(Abs()), t)
      ensures waits <==> old(count) + 1 < total
    {
      count := count + 1;
      arrivals := arrivals + 1;
      if count < total {
        cond := cond.Wait(t);
        waits := true;
      } else {
        count := 0;
        cond := cond.Broadcast();
        releases := releases + 1;
        waits := false;
      }
    }

    method Resume(t: Tid)
      modifies this
      ensures Abs() == Depart(old(Abs()), t)
    {
      cond := cond.Resume(t);
    }
  }
}
