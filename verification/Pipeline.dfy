/** The stage threads of assembly_line.c: every stage loops over the barrier and the fork table. */
module Pipeline {
  import opened FiniteSets
  import opened CondVar
  import Barrier
  import Philosophers

  /** How long `running` stays set: for good, or for k rounds of every stage. */
  datatype Limit = Forever | Rounds(k: nat)

  /** Where a stage thread is in its loop. `AtTable` covers eat and done. */
  datatype Pc = Arrive | AtBarrier | Think | AtTable | Finished

  /** All N stage threads with the barrier of N and the table of N forks they share. */
  datatype State = State(limit: Limit, pc: seq<Pc>, rounds: seq<nat>, barrier: Barrier.State,
                         table: Philosophers.Table)
  {
    predicate Sized()
    {
      Philosophers.Sized(table) && |pc| == |rounds| == |table.phase|
    }
  }

  /** The loop condition of stage_thread after r rounds. */
  function LoopHead(limit: Limit, r: nat): (pc: Pc)
  {
    if limit.Forever? || r < limit.k then Arrive else Finished
  }

  function Init(n: nat, limit: Limit): (r: State)
    ensures n >= 2 ==> r.Sized() && |r.pc| == n
  {
    State(limit, seq(n, _ => LoopHead(limit, 0)), seq(n, _ => 0), Barrier.Init(n), Philosophers.Init(n))
  }

  /** Stage i is not blocked in the barrier or on a fork, and has not left its loop. */
  predicate Enabled(s: State, i: nat)
    requires s.Sized()
  {
    && i < |s.pc|
    && match s.pc[i]
       case Arrive => true
       case AtBarrier => i in s.barrier.cond.woken
       case Think => true
       case AtTable => Philosophers.Enabled(s.table, i)
       case Finished => false
  }

  /** One atomic step of stage i. */
  function Step(s: State, i: nat): (r: State)
    requires s.Sized() && Enabled(s, i)
    ensures r.Sized() && |r.pc| == |s.pc| && r.limit == s.limit
  {
    match s.pc[i]
    case Arrive =>
      var b := Barrier.Arrive(s.barrier, i);
      s.(barrier := b, pc := s.pc[i := if i in b.cond.Blocked() then AtBarrier else Think])
    case AtBarrier =>
      s.(barrier := Barrier.Depart(s.barrier, i), pc := s.pc[i := Think])
    case Think =>
      if s.table.phase[i] == Philosophers.Away then
        s.(table := Philosophers.Step(s.table, i), pc := s.pc[i := AtTable])
      else
        s
    case AtTable =>
      var t := Philosophers.Step(s.table, i);
      if t.phase[i] == Philosophers.Away then
        s.(table := t, rounds := s.rounds[i := s.rounds[i] + 1],
           pc := s.pc[i := LoopHead(s.limit, s.rounds[i] + 1)])
      else
        s.(table := t)
  }

  ghost predicate Possible(s: State, schedule: seq<nat>)
    requires s.Sized()
    decreases |schedule|
  {
    schedule == [] || (Enabled(s, schedule[0]) && Possible(Step(s, schedule[0]), schedule[1..]))
  }

  /** The state after the stages named by `schedule` have each made one step, in that order. */
  ghost function Run(s: State, schedule: seq<nat>): (r: State)
    requires s.Sized() && Possible(s, schedule)
    ensures r.Sized() && |r.pc| == |s.pc| && r.limit == s.limit
    decreases |schedule|
  {
    if schedule == [] then s else Run(Step(s, schedule[0]), schedule[1..])
  }

  // ---------------------------------------------------------------- the invariant

  /** Stage i against the number of barrier releases: which round it is in. */
  ghost predicate InStep(s: State, i: nat)
    requires s.Sized() && i < |s.pc|
  {
    && (s.limit.Rounds? && s.pc[i] != Finished ==> s.rounds[i] < s.limit.k)
    && match s.pc[i]
       case Arrive => s.rounds[i] == s.barrier.releases
       case AtBarrier => s.rounds[i] + (if i in s.barrier.cond.Blocked() then 0 else 1) == s.barrier.releases
       case Think => s.rounds[i] + 1 == s.barrier.releases
       case AtTable => s.rounds[i] + 1 == s.barrier.releases
       case Finished => s.limit == Rounds(s.rounds[i]) && s.rounds[i] == s.barrier.releases
  }

  /** Stage i against the table: at the table exactly when its pc says so, one meal a round. */
  ghost predicate Seated(s: State, i: nat)
    requires s.Sized() && i < |s.pc|
  {
    && (s.pc[i] == AtTable <==> s.table.phase[i] != Philosophers.Away)
    && s.table.meals[i] ==
       s.rounds[i] + (if s.table.phase[i] in {Philosophers.Eating, Philosophers.HalfDone} then 1 else 0)
  }

  ghost predicate Valid(s: State)
  {
    && s.Sized()
    && Philosophers.Valid(s.table)
    && Barrier.Valid(s.barrier) && s.barrier.total == |s.pc|
    && s.barrier.cond.waiters <= Below(|s.pc|)
    && (forall i: nat :: i < |s.pc| ==> (s.pc[i] == AtBarrier <==> i in s.barrier.cond.waiters))
    && (forall i: nat :: i < |s.pc| ==> InStep(s, i))
    && (forall i: nat :: i < |s.pc| ==> Seated(s, i))
  }

  lemma InitValid(n: nat, limit: Limit)
    requires n >= 2
    ensures Valid(Init(n, limit))
  {
    Philosophers.InitValid(n);
  }

  /** At a release everybody else is blocked. */
  lemma ReleaseFindsOthersBlocked(b: Barrier.State, i: nat, j: nat)
    requires Barrier.Valid(b) && b.cond.waiters <= Below(b.total) && i < b.total && j < b.total
    requires i !in b.cond.waiters && j != i && Barrier.Arrive(b, i).releases == b.releases + 1
    ensures j in b.cond.Blocked()
  {
    Barrier.ReleaseFreesEveryone(b, 0, i);
    AllButOne(b.cond.Blocked(), b.total, i);
  }

  /** So a release takes everybody into the same round. */
  lemma ArriveKeepsInStep(s: State, i: nat, j: nat)
    requires s.Sized() && i < |s.pc| && s.pc[i] == Arrive && j < |s.pc|
    requires Barrier.Valid(s.barrier) && s.barrier.total == |s.pc| && s.barrier.cond.waiters <= Below(|s.pc|)
    requires i !in s.barrier.cond.waiters && (s.pc[j] == AtBarrier <==> j in s.barrier.cond.waiters)
    requires InStep(s, i) && InStep(s, j) && Seated(s, j)
    ensures InStep(Step(s, i), j) && Seated(Step(s, i), j)
  {
    Barrier.ReleaseFreesEveryone(s.barrier, 0, i);
    if j != i && Barrier.Arrive(s.barrier, i).releases == s.barrier.releases + 1 {
      ReleaseFindsOthersBlocked(s.barrier, i, j);
    }
  }

  lemma ArriveKeepsValid(s: State, i: nat)
    requires Valid(s) && i < |s.pc| && s.pc[i] == Arrive
    ensures Valid(Step(s, i))
  {
    var s' := Step(s, i);
    Barrier.ArriveKeepsValid(s.barrier, i);
    forall j: nat | j < |s.pc|
      ensures InStep(s', j) && Seated(s', j)
    {
      assert InStep(s, i) && InStep(s, j) && Seated(s, j);
      ArriveKeepsInStep(s, i, j);
    }
  }

  lemma TableStepKeepsInStep(s: State, i: nat, j: nat)
    requires s.Sized() && Enabled(s, i) && s.pc[i] in {Think, AtTable} && j < |s.pc|
    requires InStep(s, i) && InStep(s, j) && Seated(s, i) && Seated(s, j)
    ensures InStep(Step(s, i), j) && Seated(Step(s, i), j)
  {
  }

  lemma TableStepKeepsValid(s: State, i: nat)
    requires Valid(s) && Enabled(s, i) && s.pc[i] in {Think, AtTable}
    ensures Valid(Step(s, i))
  {
    assert Seated(s, i);
    Philosophers.StepKeepsValid(s.table, i);
    forall j: nat | j < |s.pc|
      ensures InStep(Step(s, i), j) && Seated(Step(s, i), j)
    {
      assert InStep(s, i) && InStep(s, j) && Seated(s, j);
      TableStepKeepsInStep(s, i, j);
    }
  }

  lemma DepartKeepsInStep(s: State, i: nat, j: nat)
    requires s.Sized() && Enabled(s, i) && s.pc[i] == AtBarrier && j < |s.pc|
    requires s.barrier.cond.Valid() && InStep(s, i) && InStep(s, j) && Seated(s, i) && Seated(s, j)
    ensures InStep(Step(s, i), j) && Seated(Step(s, i), j)
  {
  }

  lemma DepartKeepsAllInStep(s: State, i: nat)
    requires Valid(s) && Enabled(s, i) && s.pc[i] == AtBarrier
    ensures forall j: nat :: j < |s.pc| ==> InStep(Step(s, i), j) && Seated(Step(s, i), j)
  {
    forall j: nat | j < |s.pc|
      ensures InStep(Step(s, i), j) && Seated(Step(s, i), j)
    {
      assert InStep(s, i) && InStep(s, j) && Seated(s, i) && Seated(s, j);
      DepartKeepsInStep(s, i, j);
    }
  }

  lemma DepartKeepsValid(s: State, i: nat)
    requires Valid(s) && Enabled(s, i) && s.pc[i] == AtBarrier
    ensures Valid(Step(s, i))
  {
    hide InStep, Seated, Philosophers.Valid, Barrier.Counted;
    Barrier.DepartKeepsCounted(s.barrier, i, 0);
    DepartKeepsAllInStep(s, i);
  }

  lemma StepKeepsValid(s: State, i: nat)
    requires Valid(s) && Enabled(s, i)
    ensures Valid(Step(s, i))
  {
    match s.pc[i]
    case Arrive => ArriveKeepsValid(s, i);
    case Think => TableStepKeepsValid(s, i);
    case AtTable => TableStepKeepsValid(s, i);
    case AtBarrier => DepartKeepsValid(s, i);
  }

  lemma {:induction false} RunKeepsValid(s: State, schedule: seq<nat>)
    requires Valid(s) && Possible(s, schedule)
    ensures Valid(Run(s, schedule))
    decreases |schedule|
  {
    if schedule != [] {
      StepKeepsValid(s, schedule[0]);
      RunKeepsValid(Step(s, schedule[0]), schedule[1..]);
    }
  }

  // ---------------------------------------------------------------- lockstep

  lemma ReleaseFindsAllFed(s: State, i: nat, j: nat)
    requires Valid(s) && i < |s.pc| && j < |s.pc| && s.pc[i] == Arrive
    requires Barrier.Arrive(s.barrier, i).releases > s.barrier.releases
    ensures s.table.meals[j] == s.rounds[j] == s.barrier.releases
  {
    Barrier.ReleaseFreesEveryone(s.barrier, 0, i);
    if j != i {
      ReleaseFindsOthersBlocked(s.barrier, i, j);
    }
    assert InStep(s, j) && Seated(s, j);
  }

  /**
   In every reachable state no two stages are more than one round apart, every stage has eaten
   once in each round it completed, and the barrier's counter is the number of stages blocked.
   */
  lemma Lockstep(n: nat, limit: Limit, schedule: seq<nat>, i: nat, j: nat)
    requires n >= 2 && i < n && j < n && Possible(Init(n, limit), schedule)
    ensures var s := Run(Init(n, limit), schedule);
      && s.rounds[i] <= s.rounds[j] + 1
      && s.rounds[i] <= s.table.meals[i] <= s.rounds[i] + 1
      && s.barrier.count == |s.barrier.cond.Blocked()| < n
  {
    InitValid(n, limit);
    RunKeepsValid(Init(n, limit), schedule);
    var s := Run(Init(n, limit), schedule);
    assert InStep(s, i) && InStep(s, j) && Seated(s, i);
  }

  /** At each barrier release all stages have eaten equally often: once for every earlier release. */
  lemma ReleasesAreFair(n: nat, limit: Limit, schedule: seq<nat>, i: nat, j: nat)
    requires n >= 2 && i < n && j < n && Possible(Init(n, limit), schedule)
    ensures var s := Run(Init(n, limit), schedule);
      Enabled(s, i) && Step(s, i).barrier.releases > s.barrier.releases ==>
        s.table.meals[j] == s.rounds[j] == s.barrier.releases
  {
    InitValid(n, limit);
    RunKeepsValid(Init(n, limit), schedule);
    var s := Run(Init(n, limit), schedule);
    if Enabled(s, i) && Step(s, i).barrier.releases > s.barrier.releases {
      ReleaseFindsAllFed(s, i, j);
    }
  }

  /** The barrier's tally holds in the composed system, early re-entry included. */
  lemma {:induction false} RunKeepsTally(s: State, schedule: seq<nat>)
    requires Valid(s) && Barrier.Tallied(s.barrier) && Possible(s, schedule)
    ensures Barrier.Tallied(Run(s, schedule).barrier)
    decreases |schedule|
  {
    if schedule != [] {
      var i := schedule[0];
      if s.pc[i] == Arrive {
        Barrier.StepKeepsTally(s.barrier, Barrier.Arrives(i));
      } else if s.pc[i] == AtBarrier {
        Barrier.StepKeepsTally(s.barrier, Barrier.Departs(i));
      }
      StepKeepsValid(s, i);
      RunKeepsTally(Step(s, i), schedule[1..]);
    }
  }

  // ---------------------------------------------------------------- deadlock freedom

  ghost predicate SomeEnabled(s: State)
    requires s.Sized()
  {
    exists i: nat :: Enabled(s, i)
  }

  ghost predicate AllFinished(s: State)
  {
    forall i :: 0 <= i < |s.pc| ==> s.pc[i] == Finished
  }

  /** If a stage is at the table, some stage at the table can move. */
  lemma TableCanMove(s: State, i: nat) returns (mover: nat)
    requires Valid(s) && i < |s.pc| && s.pc[i] == AtTable
    ensures Enabled(s, mover)
  {
    assert Seated(s, i);
    var p := Philosophers.ChainReachesAMover(s.table, i);
    mover := p[|p| - 1];
    assert Seated(s, mover);
  }

  /** If every stage were blocked at the barrier, its counter would have reached the total. */
  lemma NotAllBlocked(s: State)
    requires Valid(s)
    ensures exists i: nat :: i < |s.pc| && i !in s.barrier.cond.Blocked()
  {
    if forall i: nat :: i < |s.pc| ==> i in s.barrier.cond.Blocked() {
      BelowSize(|s.pc|);
      SubsetSize(Below(|s.pc|), s.barrier.cond.Blocked());
      assert false;
    }
  }

  /** With nobody at the table, on the way to it or woken, all stages have left their loops. */
  lemma QuietMeansFinished(s: State)
    requires Valid(s) && s.barrier.cond.woken == {}
    requires forall i: nat :: i < |s.pc| ==> s.pc[i] == AtBarrier || s.pc[i] == Finished
    ensures AllFinished(s)
  {
    NotAllBlocked(s);
    var free: nat :| free < |s.pc| && free !in s.barrier.cond.Blocked();
    assert s.pc[free] == Finished && InStep(s, free);
    forall i | 0 <= i < |s.pc|
      ensures s.pc[i] == Finished
    {
      assert InStep(s, i);
    }
  }

  /** Deadlock freedom of a valid state, with the stage that can move. */
  lemma SomeStageCanMove(s: State) returns (mover: nat)
    requires Valid(s) && !AllFinished(s)
    ensures Enabled(s, mover)
  {
    if i: nat :| i < |s.pc| && s.pc[i] == AtTable {
      mover := TableCanMove(s, i);
    } else if i: nat :| i < |s.pc| && (s.pc[i] == Arrive || s.pc[i] == Think) {
      mover := i;
    } else {
      if s.barrier.cond.woken == {} {
        QuietMeansFinished(s);
      }
      mover :| mover in s.barrier.cond.woken;
    }
  }

  lemma StuckMeansFinished(s: State)
    requires Valid(s) && !SomeEnabled(s)
    ensures AllFinished(s)
  {
    if !AllFinished(s) {
      var i := SomeStageCanMove(s);
    }
  }

  /**
   For every number of stages from two up, and along every schedule, either every stage has left
   its loop or some stage can move; with `running` set for good, some stage always can.
   */
  lemma DeadlockFree(n: nat, limit: Limit, schedule: seq<nat>)
    requires n >= 2 && Possible(Init(n, limit), schedule)
    ensures var s := Run(Init(n, limit), schedule);
      SomeEnabled(s) || (AllFinished(s) && limit.Rounds?)
  {
    InitValid(n, limit);
    RunKeepsValid(Init(n, limit), schedule);
    var s := Run(Init(n, limit), schedule);
    if AllFinished(s) {
      assert s.pc[0] == Finished && InStep(s, 0);
    } else {
      var i := SomeStageCanMove(s);
      assert Enabled(s, i);
    }
  }

  // ---------------------------------------------------------------- progress

  /** How far stage i is: seven steps to a round, one of them skipped by the last to arrive. */
  ghost function Distance(s: State, i: nat): (r: nat)
    requires s.Sized() && i < |s.pc|
  {
    7 * s.rounds[i] +
    match s.pc[i]
    case Arrive => 0
    case AtBarrier => 1
    case Think => 2
    case Finished => 0
    case AtTable =>
      match s.table.phase[i]
      case Away => 2
      case WantFirst => 3
      case WantSecond => 4
      case Eating => 5
      case HalfDone => 6
  }

  /** The distances of the first m stages, added up. */
  ghost function Progress(s: State, m: nat): (r: nat)
    requires s.Sized() && m <= |s.pc|
  {
    if m == 0 then 0 else Progress(s, m - 1) + Distance(s, m - 1)
  }

  lemma StepAdvances(s: State, i: nat)
    requires s.Sized() && Enabled(s, i) && Seated(s, i)
    ensures Distance(Step(s, i), i) > Distance(s, i)
  {
  }

  lemma StepLeavesOthers(s: State, i: nat, j: nat)
    requires s.Sized() && Enabled(s, i) && j < |s.pc| && j != i
    ensures Distance(Step(s, i), j) == Distance(s, j)
  {
  }

  lemma {:induction false} StepProgresses(s: State, i: nat, m: nat)
    requires s.Sized() && Enabled(s, i) && Seated(s, i) && m <= |s.pc|
    ensures Progress(Step(s, i), m) >= Progress(s, m) + if i < m then 1 else 0
  {
    if m > 0 {
      StepProgresses(s, i, m - 1);
      if i == m - 1 {
        StepAdvances(s, i);
      } else {
        StepLeavesOthers(s, i, m - 1);
      }
    }
  }

  lemma {:induction false} RunProgresses(s: State, schedule: seq<nat>)
    requires Valid(s) && Possible(s, schedule)
    ensures Progress(Run(s, schedule), |s.pc|) >= Progress(s, |s.pc|) + |schedule|
    decreases |schedule|
  {
    if schedule != [] {
      assert Seated(s, schedule[0]);
      StepProgresses(s, schedule[0], |s.pc|);
      StepKeepsValid(s, schedule[0]);
      RunProgresses(Step(s, schedule[0]), schedule[1..]);
    }
  }

  /** Every stage is within one round of stage i. */
  lemma DistanceBound(s: State, i: nat, j: nat)
    requires Valid(s) && i < |s.pc| && j < |s.pc|
    ensures Distance(s, j) <= 7 * s.rounds[i] + 13
    ensures s.limit.Rounds? ==> Distance(s, j) <= 7 * s.limit.k
  {
    assert InStep(s, i) && InStep(s, j) && Seated(s, j);
  }

  lemma {:induction false} ProgressBound(s: State, m: nat, bound: nat)
    requires s.Sized() && m <= |s.pc|
    requires forall j: nat :: j < m ==> Distance(s, j) <= bound
    ensures Progress(s, m) <= m * bound
  {
    if m > 0 {
      ProgressBound(s, m - 1, bound);
      assert m * bound == (m - 1) * bound + bound;
    }
  }

  /** So the progress of all is bounded by the rounds of stage i alone, and by the limit. */
  lemma TotalBound(s: State, i: nat)
    requires Valid(s) && i < |s.pc|
    ensures Progress(s, |s.pc|) <= |s.pc| * (7 * s.rounds[i] + 13)
    ensures s.limit.Rounds? ==> Progress(s, |s.pc|) <= |s.pc| * (7 * s.limit.k)
  {
    forall j: nat | j < |s.pc|
      ensures Distance(s, j) <= 7 * s.rounds[i] + 13 && (s.limit.Rounds? ==> Distance(s, j) <= 7 * s.limit.k)
    {
      DistanceBound(s, i, j);
    }
    ProgressBound(s, |s.pc|, 7 * s.rounds[i] + 13);
    if s.limit.Rounds? {
      ProgressBound(s, |s.pc|, 7 * s.limit.k);
    }
  }

  /**
   No stage starves, however unfair the schedule: after T steps every stage has completed r
   rounds with T <= n * (7 * r + 13).
   */
  lemma NoStarvation(n: nat, limit: Limit, schedule: seq<nat>, i: nat)
    requires n >= 2 && i < n && Possible(Init(n, limit), schedule)
    ensures |schedule| <= n * (7 * Run(Init(n, limit), schedule).rounds[i] + 13)
  {
    hide *;
    InitValid(n, limit);
    RunProgresses(Init(n, limit), schedule);
    RunKeepsValid(Init(n, limit), schedule);
    TotalBound(Run(Init(n, limit), schedule), i);
  }

  /**
   With k rounds for each stage every schedule is finite, and one that cannot be extended ends
   with every stage finished after eating exactly k times.
   */
  lemma BoundedRunsComplete(n: nat, k: nat, schedule: seq<nat>)
    requires n >= 2 && Possible(Init(n, Rounds(k)), schedule)
    ensures |schedule| <= n * (7 * k)
    ensures var s := Run(Init(n, Rounds(k)), schedule);
      !SomeEnabled(s) ==>
        forall i :: 0 <= i < n ==> s.pc[i] == Finished && s.rounds[i] == s.table.meals[i] == k
  {
    var s := Run(Init(n, Rounds(k)), schedule);
    InitValid(n, Rounds(k));
    RunProgresses(Init(n, Rounds(k)), schedule);
    RunKeepsValid(Init(n, Rounds(k)), schedule);
    TotalBound(s, 0);
    if !SomeEnabled(s) {
      StuckMeansFinished(s);
      forall i | 0 <= i < n
        ensures s.pc[i] == Finished && s.rounds[i] == s.table.meals[i] == k
      {
        assert InStep(s, i) && Seated(s, i);
      }
    }
  }

  // ---------------------------------------------------------------- the object

  /** struct assembly_line with its stage threads, run one step at a time. */
  class AssemblyLine {
    const limit: Limit
    const pc: array<Pc>
    const rounds: array<nat>
    const barrier: Barrier.BarrierObject
    const dp: Philosophers.ForkTable

    ghost function Abs(): (r: State)
      reads this, pc, rounds, barrier, dp, dp.forks
    {
      State(limit, pc[..], rounds[..], barrier.Abs(), dp.Abs())
    }

    constructor (n: nat, limit: Limit)
      requires n >= 2
      ensures Abs() == Init(n, limit) && Valid(Abs())
      ensures fresh({this, pc, rounds, barrier, dp, dp.forks})
    {
      this.limit := limit;
      pc := new Pc[n](_ => LoopHead(limit, 0));
      rounds := new nat[n](_ => 0);
      barrier := new Barrier.BarrierObject(n);
      dp := new Philosophers.ForkTable(n);
      new;
      InitValid(n, limit);
      assert pc[..] == Init(n, limit).pc;
    }

    /** Whether the operating system can run stage i now. */
    predicate CanMove(i: nat)
      requires Valid(Abs())
      reads this, pc, rounds, barrier, dp, dp.forks
      ensures CanMove(i) <==> Enabled(Abs(), i)
    {
      i < pc.Length &&
      match pc[i]
      case Arrive => true
      case AtBarrier => i in barrier.cond.woken
      case Think => true
      case AtTable =>
        (match dp.phase[i]
         case WantFirst => dp.forks[Philosophers.First(dp.forks.Length, i)].None?
         case WantSecond => dp.forks[Philosophers.Second(dp.forks.Length, i)].None?
         case _ => true)
      case Finished => false
    }

    method AdvanceAtTable(i: nat)
      requires Valid(Abs()) && Enabled(Abs(), i) && pc[i] in {Think, AtTable}
      modifies pc, rounds, dp, dp.forks
      ensures Abs() == Step(old(Abs()), i)
    {
      assert Seated(Abs(), i);
      match dp.phase[i]
      case Away => StartEating(i);
      case WantFirst => dp.LockFirst(i);
      case WantSecond => dp.LockSecond(i);
      case Eating => dp.UnlockLeft(i);
      case HalfDone => FinishRound(i);
    }

    method StartEating(i: nat)
      requires Abs().Sized() && Philosophers.Valid(dp.Abs()) && i < pc.Length
      requires pc[i] == Think && dp.phase[i] == Philosophers.Away
      modifies pc, dp
      ensures Enabled(old(Abs()), i) && Abs() == Step(old(Abs()), i)
    {
      dp.Think(i);
      pc[i] := AtTable;
    }

    /** The second unlock of done, and back to the loop test. */
    method FinishRound(i: nat)
      requires Abs().Sized() && Philosophers.Valid(dp.Abs()) && i < pc.Length
      requires pc[i] == AtTable && dp.phase[i] == Philosophers.HalfDone
      modifies pc, rounds, dp, dp.forks
      ensures Enabled(old(Abs()), i) && Abs() == Step(old(Abs()), i)
    {
      dp.UnlockRight(i);
      rounds[i] := rounds[i] + 1;
      pc[i] := LoopHead(limit, rounds[i]);
    }

    /** barrier_wait: the call as far as its wait, or the return from the wait. */
    method AdvanceAtBarrier(i: nat)
      requires Abs().Sized() && Enabled(Abs(), i) && pc[i] in {Arrive, AtBarrier} && barrier.cond.Valid()
      requires i in barrier.cond.waiters <==> pc[i] == AtBarrier
      modifies pc, barrier
      ensures Abs() == Step(old(Abs()), i)
    {
      if pc[i] == Arrive {
        var waits := barrier.Wait(i);
        pc[i] := if waits then AtBarrier else Think;
      } else {
        barrier.Resume(i);
        pc[i] := Think;
      }
    }

    /** The next step of stage i's loop. */
    method Advance(i: nat)
      requires Valid(Abs()) && Enabled(Abs(), i)
      modifies pc, rounds, barrier, dp, dp.forks
      ensures Valid(Abs()) && Abs() == Step(old(Abs()), i)
    {
      StepKeepsValid(Abs(), i);
      if pc[i] in {Arrive, AtBarrier} {
        AdvanceAtBarrier(i);
      } else {
        AdvanceAtTable(i);
      }
    }
  }

  /**
   Runs n stages for k rounds each, always moving some stage that can move, whichever it is:
   the loop ends by itself, and only when every stage has eaten k times.
   */
  method RunToCompletion(n: nat, k: nat) returns (line: AssemblyLine)
    requires n >= 2
    ensures Valid(line.Abs()) && line.pc.Length == n
    ensures forall i :: 0 <= i < n ==>
      line.pc[i] == Finished && line.rounds[i] == line.dp.meals[i] == k
  {
    line := new AssemblyLine(n, Rounds(k));
    TotalBound(line.Abs(), 0);
    while exists i: nat :: i < n && line.CanMove(i)
      invariant Valid(line.Abs()) && line.pc.Length == n && line.Abs().limit == Rounds(k)
      invariant fresh({line, line.pc, line.rounds, line.barrier, line.dp, line.dp.forks})
      decreases n * (7 * k) - Progress(line.Abs(), n)
    {
      ghost var s := line.Abs();
      var i: nat :| i < n && line.CanMove(i);
      assert Seated(s, i);
      StepProgresses(s, i, n);
      line.Advance(i);
      TotalBound(line.Abs(), 0);
    }
    ghost var s := line.Abs();
    assert forall i: nat :: Enabled(s, i) ==> line.CanMove(i);
    StuckMeansFinished(s);
    forall i | 0 <= i < n
      ensures line.pc[i] == Finished && line.rounds[i] == line.dp.meals[i] == k
    {
      assert InStep(s, i) && Seated(s, i);
    }
  }
}
