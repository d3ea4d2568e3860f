/** The writer-preferring read-write lock of rwlock.c. */
module RwLock {
  import opened CondVar

  const MAX_WAITING_READERS := 10
  const MAX_WAITING_WRITERS := 5

  /**
   The four counters and two condition variables of struct rwlock, and who holds the lock.
   A thread number names one call and the hold it gets, so a thread that takes the lock twice
   counts as two.
   */
  datatype State = State(
    activeReaders: int, activeWriters: int, waitingReaders: int, waitingWriters: int,
    readersProceed: Cond, writerProceed: Cond, readHolds: set<Tid>, writeHolds: set<Tid>)
  {
    predicate Free()
    {
      activeReaders == 0 && activeWriters == 0
    }

    predicate Idle(t: Tid)
    {
      t !in readersProceed.waiters && t !in writerProceed.waiters && t !in readHolds && t !in writeHolds
    }
  }

  const INIT := State(0, 0, 0, 0, NOBODY, NOBODY, {}, {})

  /** What a critical section returns: 0, one of the error codes, or nothing yet. */
  datatype Outcome = Ok | Waiting | Again | TimedOut | WaitFailed | Invalid | NotPermitted

  datatype Result = Result(state: State, outcome: Outcome)

  /** "Invalid rwlock state": some active counter is negative. */
  predicate Broken(s: State)
  {
    s.activeReaders < 0 || s.activeWriters < 0
  }

  /** The wait loop of rwlock_rdlock up to the next wait or unlock; `fails` is an error of the wait. */
  function ReadLoop(s: State, t: Tid, fails: bool): (r: Result)
  {
    if s.activeWriters != 0 || s.waitingWriters != 0 then
      if fails then
        Result(s.(waitingReaders := s.waitingReaders - 1), WaitFailed)
      else
        Result(s.(readersProceed := s.readersProceed.Wait(t)), Waiting)
    else
      var s' := s.(waitingReaders := s.waitingReaders - 1, activeReaders := s.activeReaders + 1,
                   readHolds := s.readHolds + {t});
      Result(s', if Broken(s') then Invalid else Ok)
  }

  /** rwlock_rdlock from its lock to its first wait or its unlock. */
  function ReadLock(s: State, t: Tid, fails: bool): (r: Result)
  {
    if s.waitingReaders >= MAX_WAITING_READERS then
      Result(s, Again)
    else
      ReadLoop(s.(waitingReaders := s.waitingReaders + 1), t, fails)
  }

  /** The wait loop of rwlock_wrlock. */
  function WriteLoop(s: State, t: Tid, fails: bool): (r: Result)
  {
    if s.activeReaders != 0 || s.activeWriters != 0 then
      if fails then
        Result(s.(waitingWriters := s.waitingWriters - 1), WaitFailed)
      else
        Result(s.(writerProceed := s.writerProceed.Wait(t)), Waiting)
    else
      var s' := s.(waitingWriters := s.waitingWriters - 1, activeWriters := s.activeWriters + 1,
                   writeHolds := s.writeHolds + {t});
      Result(s', if Broken(s') then Invalid else Ok)
  }

  function WriteLock(s: State, t: Tid, fails: bool): (r: Result)
  {
    if s.waitingWriters >= MAX_WAITING_WRITERS then
      Result(s, Again)
    else
      WriteLoop(s.(waitingWriters := s.waitingWriters + 1), t, fails)
  }

  /** Whether rwlock_unlock will signal a writer. */
  predicate SignalsWriter(s: State)
  {
    s.waitingWriters != 0 && (s.activeWriters != 0 || s.activeReaders == 1)
  }

  /** rwlock_unlock, called for the hold t; a signal wakes `wakes`. */
  function Unlock(s: State, t: Tid, wakes: set<Tid>): (r: Result)
  {
    if s.activeWriters != 0 then
      var s' := s.(activeWriters := s.activeWriters - 1, writeHolds := s.writeHolds - {t});
      var s'' := if s'.waitingWriters != 0
                 then s'.(writerProceed := s'.writerProceed.Wake(wakes))
                 else s'.(readersProceed := s'.readersProceed.Broadcast());
      Result(s'', if Broken(s'') then Invalid else Ok)
    else if s.activeReaders != 0 then
      var s' := s.(activeReaders := s.activeReaders - 1, readHolds := s.readHolds - {t});
      var s'' := if s'.activeReaders == 0 && s'.waitingWriters != 0
                 then s'.(writerProceed := s'.writerProceed.Wake(wakes))
                 else s';
      Result(s'', if Broken(s'') then Invalid else Ok)
    else
      Result(s, NotPermitted)
  }

  // ---------------------------------------------------------------- the step system

  datatype Step =
    | ReadCall(t: Tid, fails: bool)
    | WriteCall(t: Tid, fails: bool)
    | ReadResume(t: Tid, fails: bool)
    | WriteResume(t: Tid, fails: bool)
    | ReadExpire(t: Tid)
    | WriteExpire(t: Tid)
    | ReadGiveUp(t: Tid)
    | WriteGiveUp(t: Tid)
    | ReadSpurious(t: Tid)
    | WriteSpurious(t: Tid)
    | UnlockCall(t: Tid, wakes: set<Tid>)

  /** Any thread may call; who unlocks holds the lock, or nobody does. */
  predicate Enabled(s: State, step: Step)
  {
    match step
    case ReadCall(t, _) => s.Idle(t)
    case WriteCall(t, _) => s.Idle(t)
    case ReadResume(t, _) => t in s.readersProceed.woken
    case WriteResume(t, _) => t in s.writerProceed.woken
    case ReadExpire(t) => t in s.readersProceed.Blocked()
    case WriteExpire(t) => t in s.writerProceed.Blocked()
    case ReadGiveUp(t) => t in s.readersProceed.expired
    case WriteGiveUp(t) => t in s.writerProceed.expired
    case ReadSpurious(t) => t in s.readersProceed.Blocked()
    case WriteSpurious(t) => t in s.writerProceed.Blocked()
    case UnlockCall(t, wakes) =>
      && (t in s.readHolds || t in s.writeHolds || s.Free())
      && if SignalsWriter(s) then s.writerProceed.SignalMayWake(wakes) else wakes == {}
  }

  function Apply(s: State, step: Step): (r: Result)
  {
    match step
    case ReadCall(t, fails) => ReadLock(s, t, fails)
    case WriteCall(t, fails) => WriteLock(s, t, fails)
    case ReadResume(t, fails) => ReadLoop(s.(readersProceed := s.readersProceed.Resume(t)), t, fails)
    case WriteResume(t, fails) => WriteLoop(s.(writerProceed := s.writerProceed.Resume(t)), t, fails)
    case ReadExpire(t) => Result(s.(readersProceed := s.readersProceed.Expire(t)), Waiting)
    case WriteExpire(t) => Result(s.(writerProceed := s.writerProceed.Expire(t)), Waiting)
    case ReadGiveUp(t) =>
      Result(s.(readersProceed := s.readersProceed.Resume(t), waitingReaders := s.waitingReaders - 1), TimedOut)
    case WriteGiveUp(t) =>
      Result(s.(writerProceed := s.writerProceed.Resume(t), waitingWriters := s.waitingWriters - 1), TimedOut)
    case ReadSpurious(t) => Result(s.(readersProceed := s.readersProceed.Wake({t})), Waiting)
    case WriteSpurious(t) => Result(s.(writerProceed := s.writerProceed.Wake({t})), Waiting)
    case UnlockCall(t, wakes) => Unlock(s, t, wakes)
  }

  ghost predicate Possible(s: State, steps: seq<Step>)
    decreases |steps|
  {
    steps == [] || (Enabled(s, steps[0]) && Possible(Apply(s, steps[0]).state, steps[1..]))
  }

  ghost function Run(s: State, steps: seq<Step>): (r: State)
    decreases |steps|
  {
    if steps == [] then s else Run(Apply(s, steps[0]).state, steps[1..])
  }

  // ---------------------------------------------------------------- safety

  /** Each counter is the size of the set it counts, and a waiter does not hold what it waits for. */
  ghost predicate Counted(s: State)
  {
    && s.readersProceed.Valid() && s.writerProceed.Valid()
    && s.readersProceed.waiters !! s.readHolds
    && s.writerProceed.waiters !! s.writeHolds
    && s.activeReaders == |s.readHolds|
    && s.activeWriters == |s.writeHolds|
    && s.waitingReaders == |s.readersProceed.waiters|
    && s.waitingWriters == |s.writerProceed.waiters|
  }

  /** Nobody waits or holds in two ways. */
  ghost predicate Apart(s: State)
  {
    && s.readersProceed.waiters !! s.writerProceed.waiters
    && s.readersProceed.waiters !! s.writeHolds
    && s.writerProceed.waiters !! s.readHolds
    && s.readHolds !! s.writeHolds
  }

  /** Mutual exclusion and the caps on waiters. */
  ghost predicate Exclusive(s: State)
  {
    && s.activeWriters <= 1
    && (s.activeWriters == 0 || s.activeReaders == 0)
    && s.waitingReaders <= MAX_WAITING_READERS
    && s.waitingWriters <= MAX_WAITING_WRITERS
  }

  ghost predicate Valid(s: State)
  {
    Counted(s) && Exclusive(s) && Apart(s)
  }

  /** The loop of a reader that counted itself in and is not, or no longer, on the condition variable. */
  lemma ReadLoopKeepsValid(s: State, t: Tid, fails: bool)
    requires Valid(s.(waitingReaders := s.waitingReaders - 1)) && s.waitingReaders <= MAX_WAITING_READERS
    requires s.Idle(t)
    ensures Valid(ReadLoop(s, t, fails).state)
    ensures ReadLoop(s, t, fails).outcome != Invalid && ReadLoop(s, t, fails).outcome != NotPermitted
  {
  }

  lemma ReadMovesKeepValid(s: State, t: Tid)
    requires Valid(s)
    ensures t in s.readersProceed.expired ==> Valid(Apply(s, ReadGiveUp(t)).state)
    ensures t in s.readersProceed.Blocked() ==>
      Valid(Apply(s, ReadExpire(t)).state) && Valid(Apply(s, ReadSpurious(t)).state)
  {
  }

  lemma ReadStepKeepsValid(s: State, step: Step)
    requires Valid(s) && Enabled(s, step)
    requires step.ReadCall? || step.ReadResume? || step.ReadGiveUp? || step.ReadExpire? || step.ReadSpurious?
    ensures Valid(Apply(s, step).state) && Apply(s, step).outcome != Invalid && Apply(s, step).outcome != NotPermitted
  {
    match step
    case ReadCall(t, fails) =>
      if s.waitingReaders < MAX_WAITING_READERS {
        ReadLoopKeepsValid(s.(waitingReaders := s.waitingReaders + 1), t, fails);
      }
    case ReadResume(t, fails) =>
      ReadLoopKeepsValid(s.(readersProceed := s.readersProceed.Resume(t)), t, fails);
    case ReadGiveUp(t) => ReadMovesKeepValid(s, t);
    case ReadExpire(t) => ReadMovesKeepValid(s, t);
    case ReadSpurious(t) => ReadMovesKeepValid(s, t);
  }

  lemma WriteLoopKeepsValid(s: State, t: Tid, fails: bool)
    requires Valid(s.(waitingWriters := s.waitingWriters - 1)) && s.waitingWriters <= MAX_WAITING_WRITERS
    requires s.Idle(t)
    ensures Valid(WriteLoop(s, t, fails).state)
    ensures WriteLoop(s, t, fails).outcome != Invalid && WriteLoop(s, t, fails).outcome != NotPermitted
  {
  }

  lemma WriteMovesKeepValid(s: State, t: Tid)
    requires Valid(s)
    ensures t in s.writerProceed.expired ==> Valid(Apply(s, WriteGiveUp(t)).state)
    ensures t in s.writerProceed.Blocked() ==>
      Valid(Apply(s, WriteExpire(t)).state) && Valid(Apply(s, WriteSpurious(t)).state)
  {
  }

  lemma WriteStepKeepsValid(s: State, step: Step)
    requires Valid(s) && Enabled(s, step)
    requires step.WriteCall? || step.WriteResume? || step.WriteGiveUp? || step.WriteExpire? || step.WriteSpurious?
    ensures Valid(Apply(s, step).state) && Apply(s, step).outcome != Invalid && Apply(s, step).outcome != NotPermitted
  {
    match step
    case WriteCall(t, fails) =>
      if s.waitingWriters < MAX_WAITING_WRITERS {
        WriteLoopKeepsValid(s.(waitingWriters := s.waitingWriters + 1), t, fails);
      }
    case WriteResume(t, fails) =>
      WriteLoopKeepsValid(s.(writerProceed := s.writerProceed.Resume(t)), t, fails);
    case WriteGiveUp(t) => WriteMovesKeepValid(s, t);
    case WriteExpire(t) => WriteMovesKeepValid(s, t);
    case WriteSpurious(t) => WriteMovesKeepValid(s, t);
  }

  lemma UnlockKeepsValid(s: State, t: Tid, wakes: set<Tid>)
    requires Valid(s) && Enabled(s, UnlockCall(t, wakes))
    ensures Valid(Unlock(s, t, wakes).state)
    ensures Unlock(s, t, wakes).outcome == if s.Free() then NotPermitted else Ok
  {
    assert s.activeWriters != 0 ==> t in s.writeHolds;
    assert s.activeWriters == 0 && s.activeReaders != 0 ==> t in s.readHolds;
  }

  /** The "Invalid rwlock state" branches are unreachable, timeouts and wait errors included. */
  lemma StepKeepsValid(s: State, step: Step)
    requires Valid(s) && Enabled(s, step)
    ensures Valid(Apply(s, step).state) && Apply(s, step).outcome != Invalid
    ensures Apply(s, step).outcome == NotPermitted ==> step.UnlockCall? && s.Free()
  {
    if step.UnlockCall? {
      UnlockKeepsValid(s, step.t, step.wakes);
    } else if step.ReadCall? || step.ReadResume? || step.ReadGiveUp? || step.ReadExpire? || step.ReadSpurious? {
      ReadStepKeepsValid(s, step);
    } else {
      WriteStepKeepsValid(s, step);
    }
  }

  lemma {:induction false} RunKeepsValid(s: State, steps: seq<Step>)
    requires Valid(s) && Possible(s, steps)
    ensures Valid(Run(s, steps))
    decreases |steps|
  {
    if steps != [] {
      StepKeepsValid(s, steps[0]);
      RunKeepsValid(Apply(s, steps[0]).state, steps[1..]);
    }
  }

  /**
   In every reachable state at most one hold is a write hold, and then there is no read hold;
   the counters are exact and capped.
   */
  lemma MutualExclusion(steps: seq<Step>)
    requires Possible(INIT, steps)
    ensures var s := Run(INIT, steps);
      && |s.writeHolds| <= 1 && (s.writeHolds == {} || s.readHolds == {})
      && s.activeReaders == |s.readHolds| && s.activeWriters == |s.writeHolds|
      && s.waitingReaders == |s.readersProceed.waiters| <= 10
      && s.waitingWriters == |s.writerProceed.waiters| <= 5
  {
    RunKeepsValid(INIT, steps);
  }

  // ---------------------------------------------------------------- what the results mean

  /** A writer stands in the way of readers as soon as it waits. */
  predicate ReadersMustWait(s: State)
  {
    s.writeHolds != {} || s.writerProceed.waiters != {}
  }

  predicate WritersMustWait(s: State)
  {
    s.writeHolds != {} || s.readHolds != {}
  }

  /** A result ends the call as it says: Ok with a hold, every other one with the thread idle. */
  ghost predicate Means(s: State, o: Outcome, t: Tid)
  {
    && (o == Ok <==> t in s.readHolds || t in s.writeHolds)
    && (o == Ok ==> t !in s.readersProceed.waiters && t !in s.writerProceed.waiters)
    && (o == Again || o == TimedOut || o == WaitFailed <==> s.Idle(t))
    && (o == Waiting <==> t in s.readersProceed.waiters || t in s.writerProceed.waiters)
  }

  lemma ReadLoopMeans(s: State, t: Tid, fails: bool)
    requires s.Idle(t) && s.activeReaders == |s.readHolds| && s.activeWriters == |s.writeHolds|
    requires s.waitingWriters == |s.writerProceed.waiters|
    ensures var r := ReadLoop(s, t, fails);
      && Means(r.state, r.outcome, t)
      && (r.outcome == Ok <==> !ReadersMustWait(s)) && (r.outcome == Ok ==> t in r.state.readHolds)
      && (r.outcome == WaitFailed <==> ReadersMustWait(s) && fails)
      && (r.outcome == Waiting <==> ReadersMustWait(s) && !fails)
      && r.outcome != Again && r.outcome != TimedOut
  {
  }

  lemma WriteLoopMeans(s: State, t: Tid, fails: bool)
    requires s.Idle(t) && s.activeReaders == |s.readHolds| && s.activeWriters == |s.writeHolds|
    ensures var r := WriteLoop(s, t, fails);
      && Means(r.state, r.outcome, t)
      && (r.outcome == Ok <==> !WritersMustWait(s)) && (r.outcome == Ok ==> t in r.state.writeHolds)
      && (r.outcome == WaitFailed <==> WritersMustWait(s) && fails)
      && (r.outcome == Waiting <==> WritersMustWait(s) && !fails)
      && r.outcome != Again && r.outcome != TimedOut
  {
  }

  /** Which result a read call gets, in terms of who holds and who waits, and what it means. */
  lemma ReadResultIff(s: State, step: Step)
    requires Valid(s) && Enabled(s, step) && (step.ReadCall? || step.ReadResume?)
    ensures var r := Apply(s, step); var o := r.outcome;
      var full := step.ReadCall? && |s.readersProceed.waiters| == MAX_WAITING_READERS;
      && Means(r.state, o, step.t)
      && (o == Again <==> full)
      && (o == Ok <==> !full && !ReadersMustWait(s)) && (o == Ok ==> step.t in r.state.readHolds)
      && (o == WaitFailed <==> !full && ReadersMustWait(s) && step.fails)
      && (o == Waiting <==> !full && ReadersMustWait(s) && !step.fails)
  {
    if step.ReadResume? {
      ReadLoopMeans(s.(readersProceed := s.readersProceed.Resume(step.t)), step.t, step.fails);
    } else if s.waitingReaders < MAX_WAITING_READERS {
      ReadLoopMeans(s.(waitingReaders := s.waitingReaders + 1), step.t, step.fails);
    }
  }

  lemma WriteResultIff(s: State, step: Step)
    requires Valid(s) && Enabled(s, step) && (step.WriteCall? || step.WriteResume?)
    ensures var r := Apply(s, step); var o := r.outcome;
      var full := step.WriteCall? && |s.writerProceed.waiters| == MAX_WAITING_WRITERS;
      && Means(r.state, o, step.t)
      && (o == Again <==> full)
      && (o == Ok <==> !full && !WritersMustWait(s)) && (o == Ok ==> step.t in r.state.writeHolds)
      && (o == WaitFailed <==> !full && WritersMustWait(s) && step.fails)
      && (o == Waiting <==> !full && WritersMustWait(s) && !step.fails)
  {
    if step.WriteResume? {
      WriteLoopMeans(s.(writerProceed := s.writerProceed.Resume(step.t)), step.t, step.fails);
    } else if s.waitingWriters < MAX_WAITING_WRITERS {
      WriteLoopMeans(s.(waitingWriters := s.waitingWriters + 1), step.t, step.fails);
    }
  }

  lemma DeadlineMeans(s: State, step: Step)
    requires Valid(s) && Enabled(s, step)
    requires step.ReadGiveUp? || step.ReadExpire? || step.ReadSpurious?
             || step.WriteGiveUp? || step.WriteExpire? || step.WriteSpurious?
    ensures Means(Apply(s, step).state, Apply(s, step).outcome, step.t)
    ensures Apply(s, step).outcome == if step.ReadGiveUp? || step.WriteGiveUp? then TimedOut else Waiting
  {
  }

  /**
   For every step but an unlock: the result is Ok if and only if the thread now holds the lock and
   did not before; the error codes leave it idle; the lock is full, or the deadline over, exactly
   when the result says so.
   */
  lemma ResultsMeanHolds(s: State, step: Step)
    requires Valid(s) && Enabled(s, step) && !step.UnlockCall?
    ensures var r := Apply(s, step); var t := step.t;
      && Means(r.state, r.outcome, t) && t !in s.readHolds && t !in s.writeHolds
      && (r.outcome == TimedOut <==> step.ReadGiveUp? || step.WriteGiveUp?)
      && (r.outcome == Again <==>
            || (step.ReadCall? && |s.readersProceed.waiters| == 10)
            || (step.WriteCall? && |s.writerProceed.waiters| == 5))
  {
    hide Apply, Means;
    if step.ReadCall? || step.ReadResume? {
      ReadResultIff(s, step);
    } else if step.WriteCall? || step.WriteResume? {
      WriteResultIff(s, step);
    } else {
      DeadlineMeans(s, step);
    }
  }

  /** No step, an unlock included, gives or takes a hold of another thread or its place in a queue. */
  lemma OthersStay(s: State, step: Step, u: Tid)
    requires u != step.t
    ensures var s' := Apply(s, step).state;
      && (u in s'.readHolds <==> u in s.readHolds) && (u in s'.writeHolds <==> u in s.writeHolds)
      && (u in s'.readersProceed.waiters <==> u in s.readersProceed.waiters)
      && (u in s'.writerProceed.waiters <==> u in s.writerProceed.waiters)
      && (u in s'.readersProceed.expired <==> u in s.readersProceed.expired)
      && (u in s'.writerProceed.expired <==> u in s.writerProceed.expired)
  {
    hide Unlock;
    if step.UnlockCall? {
      UnlockLeavesOthers(s, step.t, step.wakes, u);
    }
  }

  lemma UnlockLeavesOthers(s: State, t: Tid, wakes: set<Tid>, u: Tid)
    requires u != t
    ensures var s' := Unlock(s, t, wakes).state;
      && (u in s'.readHolds <==> u in s.readHolds) && (u in s'.writeHolds <==> u in s.writeHolds)
      && s'.readersProceed.waiters == s.readersProceed.waiters && s'.writerProceed.waiters == s.writerProceed.waiters
      && s'.readersProceed.expired == s.readersProceed.expired && s'.writerProceed.expired == s.writerProceed.expired
  {
  }

  /** What the passing of a deadline and a spurious wakeup do to the thread. */
  lemma WaitersMove(s: State, step: Step)
    requires Valid(s) && Enabled(s, step)
    ensures var s' := Apply(s, step).state;
      && (step.ReadExpire? ==> step.t in s'.readersProceed.expired)
      && (step.WriteExpire? ==> step.t in s'.writerProceed.expired)
      && (step.ReadSpurious? ==> step.t in s'.readersProceed.woken)
      && (step.WriteSpurious? ==> step.t in s'.writerProceed.woken)
  {
  }

  /**
   An unlock gives up the caller's hold. Whoever leaves the lock free hands it over: to a waiting
   writer if there is one, and otherwise a writer wakes all readers.
   */
  lemma UnlockHandsOver(s: State, t: Tid, wakes: set<Tid>)
    requires Valid(s) && (t in s.readHolds || t in s.writeHolds)
    ensures var s' := Unlock(s, t, wakes).state;
      && Unlock(s, t, wakes).outcome == Ok
      && t !in s'.readHolds && t !in s'.writeHolds
      && s'.writerProceed ==
         (if s'.Free() && s.writerProceed.waiters != {} then s.writerProceed.Wake(wakes) else s.writerProceed)
      && s'.readersProceed ==
         (if t in s.writeHolds && s.writerProceed.waiters == {} then s.readersProceed.Broadcast()
          else s.readersProceed)
  {
    assert s.activeWriters != 0 ==> t in s.writeHolds;
    assert s.activeWriters == 0 ==> t in s.readHolds && t !in s.writeHolds;
  }

  /** On a free lock an unlock is refused and changes nothing. */
  lemma FreeLockRefusesUnlock(s: State, t: Tid, wakes: set<Tid>)
    requires Valid(s) && s.Free()
    ensures Unlock(s, t, wakes) == Result(s, NotPermitted) && s.readHolds == s.writeHolds == {}
  {
  }

  /** Writers come first: no step gives a read hold while a writer waits or writes. */
  lemma WritersComeFirst(s: State, step: Step, t: Tid)
    requires Valid(s) && Enabled(s, step)
    requires t !in s.readHolds && t in Apply(s, step).state.readHolds
    ensures (step.ReadCall? || step.ReadResume?) && step.t == t && Apply(s, step).outcome == Ok
    ensures s.writeHolds == {} && s.writerProceed.waiters == {}
  {
    OnlyReadersGetReadHolds(s, step, t);
    StepKeepsValid(s, step);
  }

  lemma OnlyReadersGetReadHolds(s: State, step: Step, t: Tid)
    requires t !in s.readHolds && t in Apply(s, step).state.readHolds
    ensures (step.ReadCall? || step.ReadResume?) && step.t == t
    ensures s.activeWriters == 0 && s.waitingWriters == 0
    ensures Apply(s, step).outcome == Ok || Apply(s, step).outcome == Invalid
  {
  }

  // ---------------------------------------------------------------- wakeups

  /** A free lock with a blocked writer has a woken one. */
  ghost predicate WriterWoken(s: State)
  {
    s.Free() ==> s.writerProceed.Enough(1)
  }

  /**
   The one way to lose the wakeup of the writers: a writer whose wait has timed out consumes the
   signal of the unlock that frees the lock, while other writers are blocked and none is woken.
   */
  predicate LosesWakeup(s: State, step: Step)
  {
    && step.UnlockCall? && SignalsWriter(s)
    && s.writerProceed.SignalConsumed(step.wakes) && s.writerProceed.woken == {}
  }

  lemma UnlockLosesIff(s: State, t: Tid, wakes: set<Tid>)
    requires Valid(s) && Enabled(s, UnlockCall(t, wakes)) && WriterWoken(s)
    ensures WriterWoken(Unlock(s, t, wakes).state) <==> !LosesWakeup(s, UnlockCall(t, wakes))
  {
    if SignalsWriter(s) && s.writerProceed.woken == {} {
      s.writerProceed.SignalKeepsEnough(wakes, 0);
    }
  }

  /** A woken writer on a free lock takes it; on a busy one nothing is lost. */
  lemma WriteLoopLeavesBusy(s: State, t: Tid, fails: bool)
    requires s.activeReaders >= 0 && s.activeWriters >= 0
    ensures !WriteLoop(s, t, fails).state.Free()
  {
  }

  lemma WriteStepKeepsWoken(s: State, step: Step)
    requires Valid(s) && Enabled(s, step) && WriterWoken(s)
    requires step.WriteCall? || step.WriteResume? || step.WriteGiveUp? || step.WriteExpire? || step.WriteSpurious?
    ensures WriterWoken(Apply(s, step).state)
  {
    match step
    case WriteCall(t, fails) => WriteLoopLeavesBusy(s.(waitingWriters := s.waitingWriters + 1), t, fails);
    case WriteResume(t, fails) =>
      WriteLoopLeavesBusy(s.(writerProceed := s.writerProceed.Resume(t)), t, fails);
    case _ =>
      if s.Free() {
        s.writerProceed.QuietMovesKeepEnough(step.t, 1);
      }
  }

  lemma ReadStepKeepsWoken(s: State, step: Step)
    requires Valid(s) && WriterWoken(s)
    requires step.ReadCall? || step.ReadResume? || step.ReadGiveUp? || step.ReadExpire? || step.ReadSpurious?
    ensures WriterWoken(Apply(s, step).state)
  {
  }

  lemma LostIff(s: State, step: Step)
    requires Valid(s) && Enabled(s, step) && WriterWoken(s)
    ensures WriterWoken(Apply(s, step).state) <==> !LosesWakeup(s, step)
    ensures LosesWakeup(s, step) ==> s.writerProceed.expired != {}
  {
    if step.UnlockCall? {
      UnlockLosesIff(s, step.t, step.wakes);
    } else if step.WriteCall? || step.WriteResume? || step.WriteGiveUp? || step.WriteExpire? || step.WriteSpurious? {
      WriteStepKeepsWoken(s, step);
    } else {
      ReadStepKeepsWoken(s, step);
    }
  }

  /** Some state after a step of the run is free with a blocked writer and no woken one. */
  ghost predicate EverAsleep(s: State, steps: seq<Step>)
    decreases |steps|
  {
    steps != [] && (!WriterWoken(Apply(s, steps[0]).state) || EverAsleep(Apply(s, steps[0]).state, steps[1..]))
  }

  ghost predicate EverLosesWakeup(s: State, steps: seq<Step>)
    decreases |steps|
  {
    steps != [] && (LosesWakeup(s, steps[0]) || EverLosesWakeup(Apply(s, steps[0]).state, steps[1..]))
  }

  /** A run ever loses the wakeup of the writers if and only if some step of it is such an unlock. */
  lemma {:induction false} RunLosesWakeupIff(s: State, steps: seq<Step>)
    requires Valid(s) && WriterWoken(s) && Possible(s, steps)
    ensures EverAsleep(s, steps) <==> EverLosesWakeup(s, steps)
    ensures !EverLosesWakeup(s, steps) ==> WriterWoken(Run(s, steps))
    decreases |steps|
  {
    if steps != [] {
      StepKeepsValid(s, steps[0]);
      LostIff(s, steps[0]);
      if !LosesWakeup(s, steps[0]) {
        RunLosesWakeupIff(Apply(s, steps[0]).state, steps[1..]);
      }
    }
  }

  /**
   After every run without such an unlock, when the lock is free and a writer is waiting, some
   waiting writer can run; and after every run a woken one then gets the lock.
   */
  lemma FreeLockHasRunnableWriter(steps: seq<Step>)
    requires Possible(INIT, steps)
    ensures var s := Run(INIT, steps);
      && (!EverLosesWakeup(INIT, steps) && s.Free() && s.waitingWriters > 0 ==>
            s.writerProceed.woken != {} || s.writerProceed.expired != {})
      && (!EverLosesWakeup(INIT, steps) && s.Free() && s.writerProceed.Blocked() != {} ==>
            s.writerProceed.woken != {})
      && forall t, fails :: s.Free() && t in s.writerProceed.woken ==> Apply(s, WriteResume(t, fails)).outcome == Ok
  {
    RunKeepsValid(INIT, steps);
    RunLosesWakeupIff(INIT, steps);
    var s := Run(INIT, steps);
    assert s.waitingWriters > 0 ==> s.writerProceed.waiters != {};
  }

  /** A reader is blocked although neither a writer nor a waiting writer stands in its way. */
  ghost predicate Stranded(s: State)
  {
    s.readersProceed.Blocked() != {} && s.activeWriters == 0 && s.waitingWriters == 0
  }

  /**
   The one way to strand a reader: the last waiting writer goes away without the lock, on a
   timeout or a failed wait, while no writer is active; nothing then wakes the blocked readers.
   */
  ghost predicate Strands(s: State, step: Step)
  {
    && s.readersProceed.Blocked() != {} && s.activeWriters == 0 && s.waitingWriters == 1
    && (step.WriteGiveUp? || (step.WriteResume? && step.fails && s.activeReaders != 0))
  }

  lemma ReadersStrandNobody(s: State, step: Step)
    requires Enabled(s, step) && !Stranded(s)
    requires step.ReadCall? || step.ReadResume? || step.ReadGiveUp? || step.ReadExpire? || step.ReadSpurious?
    ensures !Stranded(Apply(s, step).state)
  {
  }

  lemma UnlockStrandsNobody(s: State, t: Tid, wakes: set<Tid>)
    requires Exclusive(s) && !Stranded(s)
    ensures !Stranded(Unlock(s, t, wakes).state)
  {
  }

  lemma WriterStrandsIff(s: State, step: Step)
    requires s.activeReaders >= 0 && s.activeWriters >= 0 && s.waitingWriters >= 0
    requires (step.WriteResume? || step.WriteGiveUp?) ==> s.waitingWriters > 0
    requires !Stranded(s)
    requires step.WriteCall? || step.WriteResume? || step.WriteGiveUp? || step.WriteExpire? || step.WriteSpurious?
    ensures Stranded(Apply(s, step).state) <==> Strands(s, step)
  {
  }

  lemma StrandedIff(s: State, step: Step)
    requires Valid(s) && Enabled(s, step) && !Stranded(s)
    ensures Stranded(Apply(s, step).state) <==> Strands(s, step)
  {
    if step.UnlockCall? {
      UnlockStrandsNobody(s, step.t, step.wakes);
    } else if step.WriteCall? || step.WriteResume? || step.WriteGiveUp? || step.WriteExpire? || step.WriteSpurious? {
      assert step.WriteResume? ==> step.t in s.writerProceed.woken;
      assert step.WriteGiveUp? ==> step.t in s.writerProceed.expired;
      WriterStrandsIff(s, step);
    } else {
      ReadersStrandNobody(s, step);
    }
  }

  /** Some state after a step of the run has a stranded reader. */
  ghost predicate EverStranded(s: State, steps: seq<Step>)
    decreases |steps|
  {
    steps != [] && (Stranded(Apply(s, steps[0]).state) || EverStranded(Apply(s, steps[0]).state, steps[1..]))
  }

  ghost predicate EverStrands(s: State, steps: seq<Step>)
    decreases |steps|
  {
    steps != [] && (Strands(s, steps[0]) || EverStrands(Apply(s, steps[0]).state, steps[1..]))
  }

  /** A run never strands a reader if and only if no step of it is such a departure of a writer. */
  lemma {:induction false} RunStrandsIff(s: State, steps: seq<Step>)
    requires Valid(s) && !Stranded(s) && Possible(s, steps)
    ensures EverStranded(s, steps) <==> EverStrands(s, steps)
    decreases |steps|
  {
    if steps != [] {
      StepKeepsValid(s, steps[0]);
      StrandedIff(s, steps[0]);
      if !Strands(s, steps[0]) {
        RunStrandsIff(Apply(s, steps[0]).state, steps[1..]);
      }
    }
  }

  /** No writer of the run times out or has a failing wait. */
  ghost predicate WritersPatient(steps: seq<Step>)
  {
    forall k :: 0 <= k < |steps| ==>
      !steps[k].WriteGiveUp? && !((steps[k].WriteCall? || steps[k].WriteResume?) && steps[k].fails)
  }

  /** Without give-ups an expired writer stays, so a consumed signal leaves its mark. */
  lemma PatientStepKeepsWoken(s: State, step: Step)
    requires Valid(s) && Enabled(s, step) && !step.WriteGiveUp?
    requires WriterWoken(s) || s.writerProceed.expired != {}
    ensures WriterWoken(Apply(s, step).state) || Apply(s, step).state.writerProceed.expired != {}
  {
    if s.writerProceed.expired == {} {
      LostIff(s, step);
    } else {
      ExpiredWritersStay(s, step);
    }
  }

  lemma ExpiredWritersStay(s: State, step: Step)
    requires Valid(s) && Enabled(s, step) && !step.WriteGiveUp?
    ensures s.writerProceed.expired <= Apply(s, step).state.writerProceed.expired
  {
  }

  lemma {:induction false} PatientWritersStrandNobody(s: State, steps: seq<Step>)
    requires Valid(s) && !Stranded(s) && Possible(s, steps) && WritersPatient(steps)
    requires WriterWoken(s) || s.writerProceed.expired != {}
    ensures !Stranded(Run(s, steps)) && (WriterWoken(Run(s, steps)) || Run(s, steps).writerProceed.expired != {})
    decreases |steps|
  {
    if steps != [] {
      assert !Strands(s, steps[0]);
      StepKeepsValid(s, steps[0]);
      StrandedIff(s, steps[0]);
      PatientStepKeepsWoken(s, steps[0]);
      assert forall k :: 0 <= k < |steps[1..]| ==> steps[1..][k] == steps[k + 1];
      PatientWritersStrandNobody(Apply(s, steps[0]).state, steps[1..]);
    }
  }

  /** Lock free and nobody runnable then implies nobody blocked. */
  lemma QuietLockHasNoWaiters(steps: seq<Step>)
    requires Possible(INIT, steps) && WritersPatient(steps)
    ensures var s := Run(INIT, steps);
      && s.Free() && s.readersProceed.woken == s.readersProceed.expired == {}
      && s.writerProceed.woken == s.writerProceed.expired == {}
      ==> s.readersProceed.waiters == s.writerProceed.waiters == {}
  {
    RunKeepsValid(INIT, steps);
    PatientWritersStrandNobody(INIT, steps);
  }

  lemma {:induction false} RunExtends(s: State, steps: seq<Step>, step: Step)
    requires Possible(s, steps) && Enabled(Run(s, steps), step)
    ensures Possible(s, steps + [step]) && Run(s, steps + [step]) == Apply(Run(s, steps), step).state
    decreases |steps|
  {
    if steps == [] {
      assert Possible(Apply(s, step).state, []);
      assert [] + [step] == [step];
    } else {
      RunExtends(Apply(s, steps[0]).state, steps[1..], step);
      assert (steps + [step])[1..] == steps[1..] + [step];
    }
  }

  lemma Extend(steps: seq<Step>, step: Step) returns (more: seq<Step>)
    requires Possible(INIT, steps) && Enabled(Run(INIT, steps), step)
    ensures Possible(INIT, more) && Run(INIT, more) == Apply(Run(INIT, steps), step).state
  {
    RunExtends(INIT, steps, step);
    more := steps + [step];
  }

  /** A writer's timeout leaves reader 2 blocked on a free lock; only its own deadline is left to end that. */
  lemma ImpatientWriterStrandsReader() returns (steps: seq<Step>)
    ensures Possible(INIT, steps)
    ensures var s := Run(INIT, steps);
      && s.Free() && s.waitingWriters == 0 && s.readersProceed.Blocked() == {2}
      && s.readersProceed.woken == s.writerProceed.waiters == {}
  {
    steps := Extend([], ReadCall(0, false));
    steps := Extend(steps, WriteCall(1, false));
    steps := Extend(steps, ReadCall(2, false));
    steps := Extend(steps, WriteExpire(1));
    steps := Extend(steps, WriteGiveUp(1));
    steps := Extend(steps, UnlockCall(0, {}));
  }

  /** The last reader unlocks, the expired writer w consumes the signal and gives up. */
  lemma SignalIsConsumed(s: State, t: Tid, w: Tid)
    requires s.activeReaders == 1 && s.activeWriters == 0 && s.waitingWriters > 0
    requires t in s.readHolds && w in s.writerProceed.expired
    ensures var s' := Unlock(s, t, {}).state; var c := s.writerProceed;
      && Enabled(s, UnlockCall(t, {})) && Enabled(s', WriteGiveUp(w))
      && Apply(s', WriteGiveUp(w)).state ==
         s.(activeReaders := 0, readHolds := s.readHolds - {t}, waitingWriters := s.waitingWriters - 1,
            writerProceed := c.Resume(w))
  {
    assert s.writerProceed.woken + {} == s.writerProceed.woken;
  }

  lemma OneWriterStays()
    ensures NOBODY.Wait(1).Wait(2).Expire(1).Resume(1) == Cond({2}, {}, {})
  {
  }

  /**
   A writer's timeout that consumes a signal leaves writer 2 blocked on a free lock, and because it
   counts as waiting every reader that comes is blocked too, until another writer or its own deadline.
   */
  lemma ConsumedSignalStrandsWriter() returns (steps: seq<Step>)
    ensures Possible(INIT, steps)
    ensures var s := Run(INIT, steps);
      && s.Free() && s.waitingWriters == 1 && s.writerProceed == Cond({2}, {}, {}) && s.readersProceed == NOBODY
      && forall t :: Apply(s, ReadCall(t, false)).outcome == Waiting
  {
    steps := Extend([], ReadCall(0, false));
    steps := Extend(steps, WriteCall(1, false));
    steps := Extend(steps, WriteCall(2, false));
    steps := Extend(steps, WriteExpire(1));
    SignalIsConsumed(Run(INIT, steps), 0, 1);
    steps := Extend(steps, UnlockCall(0, {}));
    steps := Extend(steps, WriteGiveUp(1));
    OneWriterStays();
  }

  /** Used alone, as inside another mutex, the lock is always got at once and left as it was. */
  lemma UncontendedUse(t: Tid, fails: bool)
    ensures ReadLock(INIT, t, fails).outcome == Ok
    ensures Unlock(ReadLock(INIT, t, fails).state, t, {}) == Result(INIT, Ok)
    ensures WriteLock(INIT, t, fails).outcome == Ok
    ensures Unlock(WriteLock(INIT, t, fails).state, t, {}) == Result(INIT, Ok)
  {
    assert {t} - {t} == {};
  }

  // ---------------------------------------------------------------- the object

  /** struct rwlock. Who waits and who holds is the scheduler's business, hence ghost. */
  class RwLockObject {
    var activeReaders: int
    var activeWriters: int
    var waitingReaders: int
    var waitingWriters: int
    ghost var readersProceed: Cond
    ghost var writerProceed: Cond
    ghost var readHolds: set<Tid>
    ghost var writeHolds: set<Tid>

    ghost function Abs(): (r: State)
      reads this
    {
      State(activeReaders, activeWriters, waitingReaders, waitingWriters,
            readersProceed, writerProceed, readHolds, writeHolds)
    }

    constructor ()
      ensures Abs() == INIT
    {
      activeReaders, activeWriters, waitingReaders, waitingWriters := 0, 0, 0, 0;
      readersProceed, writerProceed := NOBODY, NOBODY;
      readHolds, writeHolds := {}, {};
    }

    method ReadWait(t: Tid, fails: bool) returns (o: Outcome)
      modifies this
      ensures Result(Abs(), o) == ReadLoop(old(Abs()), t, fails)
    {
      if activeWriters != 0 || waitingWriters != 0 {
        if fails {
          waitingReaders := waitingReaders - 1;
          return WaitFailed;
        }
        readersProceed := readersProceed.Wait(t);
        return Waiting;
      }
      waitingReaders := waitingReaders - 1;
      activeReaders := activeReaders + 1;
      readHolds := readHolds + {t};
      if activeReaders < 0 || activeWriters < 0 {
        return Invalid;
      }
      return Ok;
    }

    method WriteWait(t: Tid, fails: bool) returns (o: Outcome)
      modifies this
      ensures Result(Abs(), o) == WriteLoop(old(Abs()), t, fails)
    {
      if activeReaders != 0 || activeWriters != 0 {
        if fails {
          waitingWriters := waitingWriters - 1;
          return WaitFailed;
        }
        writerProceed := writerProceed.Wait(t);
        return Waiting;
      }
      waitingWriters := waitingWriters - 1;
      activeWriters := activeWriters + 1;
      writeHolds := writeHolds + {t};
      if activeReaders < 0 || activeWriters < 0 {
        return Invalid;
      }
      return Ok;
    }

    /** rwlock_rdlock. */
    method RdLock(t: Tid, fails: bool) returns (o: Outcome)
      modifies this
      ensures Result(Abs(), o) == Apply(old(Abs()), ReadCall(t, fails))
    {
      if waitingReaders >= MAX_WAITING_READERS {
        return Again;
      }
      waitingReaders := waitingReaders + 1;
      o := ReadWait(t, fails);
    }

    /** rwlock_wrlock. */
    method WrLock(t: Tid, fails: bool) returns (o: Outcome)
      modifies this
      ensures Result(Abs(), o) == Apply(old(Abs()), WriteCall(t, fails))
    {
      if waitingWriters >= MAX_WAITING_WRITERS {
        return Again;
      }
      waitingWriters := waitingWriters + 1;
      o := WriteWait(t, fails);
    }

    /** A woken reader has the mutex again and goes round its loop. */
    method RdResume(t: Tid, fails: bool) returns (o: Outcome)
      modifies this
      ensures Result(Abs(), o) == Apply(old(Abs()), ReadResume(t, fails))
    {
      readersProceed := readersProceed.Resume(t);
      o := ReadWait(t, fails);
    }

    method WrResume(t: Tid, fails: bool) returns (o: Outcome)
      modifies this
      ensures Result(Abs(), o) == Apply(old(Abs()), WriteResume(t, fails))
    {
      writerProceed := writerProceed.Resume(t);
      o := WriteWait(t, fails);
    }

    /** The ETIMEDOUT branch of rwlock_rdlock. */
    method RdTimeout(t: Tid) returns (o: Outcome)
      modifies this
      ensures Result(Abs(), o) == Apply(old(Abs()), ReadGiveUp(t))
    {
      readersProceed := readersProceed.Resume(t);
      waitingReaders := waitingReaders - 1;
      o := TimedOut;
    }

    /** The ETIMEDOUT branch of rwlock_wrlock. */
    method WrTimeout(t: Tid) returns (o: Outcome)
      modifies this
      ensures Result(Abs(), o) == Apply(old(Abs()), WriteGiveUp(t))
    {
      writerProceed := writerProceed.Resume(t);
      waitingWriters := waitingWriters - 1;
      o := TimedOut;
    }

    /** rwlock_unlock. */
    method Release(t: Tid, ghost wakes: set<Tid>) returns (o: Outcome)
      modifies this
      ensures Result(Abs(), o) == Apply(old(Abs()), UnlockCall(t, wakes))
    {
      if activeWriters != 0 {
        activeWriters := activeWriters - 1;
        writeHolds := writeHolds - {t};
        if waitingWriters != 0 {
          writerProceed := writerProceed.Wake(wakes);
        } else {
          readersProceed := readersProceed.Broadcast();
        }
      } else if activeReaders != 0 {
        activeReaders := activeReaders - 1;
        readHolds := readHolds - {t};
        if activeReaders == 0 && waitingWriters != 0 {
          writerProceed := writerProceed.Wake(wakes);
        }
      } else {
        return NotPermitted;
      }
      if activeReaders < 0 || activeWriters < 0 {
        return Invalid;
      }
      return Ok;
    }
  }
}
