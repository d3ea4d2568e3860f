/**
 The bounded buffer of monitor.c: a ring with two condition variables, whose calls are bracketed
 by the deadlock detector and use the read-write lock inside the monitor's mutex.
 */
module Monitor {
  import opened CondVar
  import opened Wrappers
  import RwLock
  import Detector

  /** A floating-point value; every comparison with NaN is false. */
  datatype Float = NaN | Infinity(negative: bool) | Finite(value: real)
  {
    predicate Below(bound: real)
    {
      (Finite? && value < bound) || (Infinity? && negative)
    }

    predicate Above(bound: real)
    {
      (Finite? && value > bound) || (Infinity? && !negative)
    }
  }

  /** The fields of struct bme680_fifo_data that the monitor looks at. */
  datatype Sample = Sample(temp: Float, pressure: int, humidity: int)

  /** The range check at the head of bme680_monitor_write. */
  predicate InRange(x: Sample)
  {
    !(x.temp.Below(-40.0) || x.temp.Above(85.0) || x.pressure < 30000 || x.pressure > 110000
      || x.humidity < 0 || x.humidity > 100)
  }

  /** The check is written with rejecting comparisons, so a temperature that is no number passes. */
  lemma InRangeIff(x: Sample)
    ensures InRange(x) <==>
      && (x.temp == NaN || (x.temp.Finite? && -40.0 <= x.temp.value <= 85.0))
      && 30000 <= x.pressure <= 110000 && 0 <= x.humidity <= 100
  {
  }

  // ---------------------------------------------------------------- the ring

  /** The array and its three indices in struct bme680_monitor. */
  datatype Ring = Ring(data: seq<Sample>, head: int, tail: int, count: int)

  /** The index k places after `from` on a ring. */
  function Around(from: int, k: int, size: int): (r: int)
    requires 0 <= from < size && 0 <= k <= size
    ensures 0 <= r < size
  {
    if from + k < size then from + k else from + k - size
  }

  lemma ModuloOnce(x: int, n: int)
    requires 0 < n <= x < 2 * n
    ensures x % n == x - n
  {
    assert x / n == 1;
  }

  lemma AroundIsModulo(from: int, k: int, size: int)
    requires 0 <= from < size && 0 <= k <= size
    ensures Around(from, k, size) == (from + k) % size
  {
    if from + k >= size {
      ModuloOnce(from + k, size);
    }
  }

  predicate RingValid(g: Ring)
  {
    && 0 <= g.head < |g.data| && 0 <= g.tail < |g.data| && 0 <= g.count <= |g.data|
    && g.tail == Around(g.head, g.count, |g.data|)
  }

  /** What is in the buffer, oldest first. */
  function Contents(g: Ring): (r: seq<Sample>)
    requires RingValid(g)
  {
    seq(g.count, k requires 0 <= k < g.count => g.data[Around(g.head, k, |g.data|)])
  }

  function Put(g: Ring, x: Sample): (r: Ring)
    requires RingValid(g)
  {
    Ring(g.data[g.tail := x], g.head, (g.tail + 1) % |g.data|, g.count + 1)
  }

  function Get(g: Ring): (r: Ring)
    requires RingValid(g)
  {
    g.(head := (g.head + 1) % |g.data|, count := g.count - 1)
  }

  /** A write appends to the contents. */
  lemma PutAppends(g: Ring, x: Sample)
    requires RingValid(g) && g.count < |g.data|
    ensures RingValid(Put(g, x)) && Contents(Put(g, x)) == Contents(g) + [x]
  {
    var n := |g.data|;
    AroundIsModulo(g.tail, 1, n);
    assert forall k :: 0 <= k < g.count ==> Around(g.head, k, n) != g.tail;
  }

  /** A read takes the oldest value off the contents. */
  lemma GetRemoves(g: Ring)
    requires RingValid(g) && g.count > 0
    ensures RingValid(Get(g)) && Contents(g) == [g.data[g.head]] + Contents(Get(g))
  {
    var n := |g.data|;
    AroundIsModulo(g.head, 1, n);
    forall k | 0 <= k < g.count - 1
      ensures Around(Get(g).head, k, n) == Around(g.head, k + 1, n)
    {
    }
    assert Contents(g) == [g.data[g.head]] + Contents(Get(g));
  }

  // ---------------------------------------------------------------- the step system

  /** The calls of one kind in progress: before the mutex, in the wait loop, after the mutex. */
  datatype Side = Side(entering: set<Tid>, cond: Cond, leaving: set<Tid>)
  {
    predicate InCall(t: Tid)
    {
      t in entering || t in cond.waiters || t in leaving
    }
  }

  const NO_CALLS := Side({}, NOBODY, {})

  /**
   `writers.cond` is not_full and `readers.cond` is not_empty. `samples` are the arguments of the
   write calls in progress. `written` and `taken` record every value stored and every value read.
   */
  datatype State = State(
    ring: Ring, writers: Side, readers: Side, samples: map<Tid, Sample>,
    rwlock: RwLock.State, slots: seq<Detector.Slot>, written: seq<Sample>, taken: seq<Sample>)

  ghost function Init(data: seq<Sample>): (r: State)
  {
    State(Ring(data, 0, 0, 0), NO_CALLS, NO_CALLS, map[], RwLock.INIT, [Detector.FREE, Detector.FREE], [], [])
  }

  datatype Outcome = Ok | Pending | Invalid | TimedOut | WaitFailed | Deadlock

  datatype Result = Result(state: State, outcome: Outcome)

  /** bme680_monitor_write as far as its call of the detector. */
  ghost function WriteCall(s: State, t: Tid, x: Sample, busy: bool): (r: Result)
  {
    if !InRange(x) then Result(s, Invalid)
    else
      var d := Detector.Lock(s.slots, t, 0, busy);
      if d.outcome != Detector.Ok then Result(s, Deadlock)
      else
        Result(s.(slots := d.locks, writers := s.writers.(entering := s.writers.entering + {t}),
                  samples := s.samples[t := x]), Pending)
  }

  ghost function ReadCall(s: State, t: Tid, busy: bool): (r: Result)
  {
    var d := Detector.Lock(s.slots, t, 1, busy);
    if d.outcome != Detector.Ok then Result(s, Deadlock)
    else Result(s.(slots := d.locks, readers := s.readers.(entering := s.readers.entering + {t})), Pending)
  }

  /** From the loop test of a write to its next wait or its unlock; the signal wakes `wakes`. */
  function WriteLoop(s: State, t: Tid, fails: bool, wakes: set<Tid>): (r: Result)
    requires t in s.samples && RingValid(s.ring)
  {
    var out := s.writers.(leaving := s.writers.leaving + {t});
    if s.ring.count == |s.ring.data| then
      if fails then Result(s.(writers := out), WaitFailed)
      else Result(s.(writers := s.writers.(cond := s.writers.cond.Wait(t))), Pending)
    else if s.ring.count < 0 || s.ring.count > |s.ring.data| then Result(s.(writers := out), Invalid)
    else
      var locked := RwLock.WriteLock(s.rwlock, t, false).state;
      Result(s.(ring := Put(s.ring, s.samples[t]), written := s.written + [s.samples[t]], writers := out,
                readers := s.readers.(cond := s.readers.cond.Wake(wakes)),
                rwlock := RwLock.Unlock(locked, t, {}).state), Ok)
  }

  function ReadLoop(s: State, t: Tid, fails: bool, wakes: set<Tid>): (r: Result)
    requires RingValid(s.ring)
  {
    var out := s.readers.(leaving := s.readers.leaving + {t});
    if s.ring.count == 0 then
      if fails then Result(s.(readers := out), WaitFailed)
      else Result(s.(readers := s.readers.(cond := s.readers.cond.Wait(t))), Pending)
    else if s.ring.count < 0 || s.ring.count > |s.ring.data| then Result(s.(readers := out), Invalid)
    else
      var locked := RwLock.ReadLock(s.rwlock, t, false).state;
      Result(s.(ring := Get(s.ring), taken := s.taken + [s.ring.data[s.ring.head]], readers := out,
                writers := s.writers.(cond := s.writers.cond.Wake(wakes)),
                rwlock := RwLock.Unlock(locked, t, {}).state), Ok)
  }

  datatype Step =
    | WriteBegin(t: Tid, x: Sample, busy: bool)
    | WriteEnter(t: Tid, fails: bool, wakes: set<Tid>)
    | WriteResume(t: Tid, fails: bool, wakes: set<Tid>)
    | WriteExpire(t: Tid)
    | WriteGiveUp(t: Tid)
    | WriteSpurious(t: Tid)
    | WriteLeave(t: Tid)
    | ReadBegin(t: Tid, busy: bool)
    | ReadEnter(t: Tid, fails: bool, wakes: set<Tid>)
    | ReadResume(t: Tid, fails: bool, wakes: set<Tid>)
    | ReadExpire(t: Tid)
    | ReadGiveUp(t: Tid)
    | ReadSpurious(t: Tid)
    | ReadLeave(t: Tid)
  {
    predicate OfWriter()
    {
      WriteBegin? || WriteEnter? || WriteResume? || WriteExpire? || WriteGiveUp? || WriteSpurious? || WriteLeave?
    }
  }

  /** The thread of the step is where the step starts, and its signal wakes whom it may. */
  predicate InPlace(s: State, step: Step)
  {
    match step
    case WriteBegin(t, _, _) => !s.writers.InCall(t) && !s.readers.InCall(t)
    case WriteEnter(t, _, wakes) => t in s.writers.entering && s.readers.cond.SignalMayWake(wakes)
    case WriteResume(t, _, wakes) => t in s.writers.cond.woken && s.readers.cond.SignalMayWake(wakes)
    case WriteExpire(t) => t in s.writers.cond.Blocked()
    case WriteGiveUp(t) => t in s.writers.cond.expired
    case WriteSpurious(t) => t in s.writers.cond.Blocked()
    case WriteLeave(t) => t in s.writers.leaving
    case ReadBegin(t, _) => !s.writers.InCall(t) && !s.readers.InCall(t)
    case ReadEnter(t, _, wakes) => t in s.readers.entering && s.writers.cond.SignalMayWake(wakes)
    case ReadResume(t, _, wakes) => t in s.readers.cond.woken && s.writers.cond.SignalMayWake(wakes)
    case ReadExpire(t) => t in s.readers.cond.Blocked()
    case ReadGiveUp(t) => t in s.readers.cond.expired
    case ReadSpurious(t) => t in s.readers.cond.Blocked()
    case ReadLeave(t) => t in s.readers.leaving
  }

  /** Apply also needs indices in bounds and the argument of a write; see EnabledIffInPlace. */
  predicate Enabled(s: State, step: Step)
  {
    RingValid(s.ring) && (step.WriteEnter? || step.WriteResume? ==> step.t in s.samples) && InPlace(s, step)
  }

  function Entered(side: Side, t: Tid): (r: Side)
  {
    side.(entering := side.entering - {t})
  }

  function Resumed(side: Side, t: Tid): (r: Side)
  {
    side.(cond := side.cond.Resume(t))
  }

  function GivenUp(side: Side, t: Tid): (r: Side)
  {
    side.(cond := side.cond.Resume(t), leaving := side.leaving + {t})
  }

  ghost function Apply(s: State, step: Step): (r: Result)
    requires Enabled(s, step)
  {
    match step
    case WriteBegin(t, x, busy) => WriteCall(s, t, x, busy)
    case WriteEnter(t, fails, wakes) => WriteLoop(s.(writers := Entered(s.writers, t)), t, fails, wakes)
    case WriteResume(t, fails, wakes) => WriteLoop(s.(writers := Resumed(s.writers, t)), t, fails, wakes)
    case WriteExpire(t) => Result(s.(writers := s.writers.(cond := s.writers.cond.Expire(t))), Pending)
    case WriteGiveUp(t) => Result(s.(writers := GivenUp(s.writers, t)), TimedOut)
    case WriteSpurious(t) => Result(s.(writers := s.writers.(cond := s.writers.cond.Wake({t}))), Pending)
    case WriteLeave(t) =>
      Result(s.(writers := s.writers.(leaving := s.writers.leaving - {t}),
                slots := Detector.Unlock(s.slots, t, 0).locks), Pending)
    case ReadBegin(t, busy) => ReadCall(s, t, busy)
    case ReadEnter(t, fails, wakes) => ReadLoop(s.(readers := Entered(s.readers, t)), t, fails, wakes)
    case ReadResume(t, fails, wakes) => ReadLoop(s.(readers := Resumed(s.readers, t)), t, fails, wakes)
    case ReadExpire(t) => Result(s.(readers := s.readers.(cond := s.readers.cond.Expire(t))), Pending)
    case ReadGiveUp(t) => Result(s.(readers := GivenUp(s.readers, t)), TimedOut)
    case ReadSpurious(t) => Result(s.(readers := s.readers.(cond := s.readers.cond.Wake({t}))), Pending)
    case ReadLeave(t) =>
      Result(s.(readers := s.readers.(leaving := s.readers.leaving - {t}),
                slots := Detector.Unlock(s.slots, t, 1).locks), Pending)
  }

  ghost predicate Possible(s: State, steps: seq<Step>)
    decreases |steps|
  {
    steps == [] || (Enabled(s, steps[0]) && Possible(Apply(s, steps[0]).state, steps[1..]))
  }

  ghost function Run(s: State, steps: seq<Step>): (r: State)
    requires Possible(s, steps)
    decreases |steps|
  {
    if steps == [] then s else Run(Apply(s, steps[0]).state, steps[1..])
  }

  // ---------------------------------------------------------------- first in, first out

  /** The buffer is the difference between what was written and what was read; all of it in range. */
  ghost predicate Fifo(s: State)
  {
    && RingValid(s.ring)
    && s.taken + Contents(s.ring) == s.written
    && (forall k :: 0 <= k < |s.written| ==> InRange(s.written[k]))
    && (forall t :: t in s.samples ==> InRange(s.samples[t]))
  }

  lemma WriteLoopKeepsFifo(s: State, t: Tid, fails: bool, wakes: set<Tid>)
    requires Fifo(s) && t in s.samples
    ensures Fifo(WriteLoop(s, t, fails, wakes).state) && WriteLoop(s, t, fails, wakes).outcome != Invalid
  {
    if s.ring.count < |s.ring.data| {
      PutAppends(s.ring, s.samples[t]);
      assert s.taken + (Contents(s.ring) + [s.samples[t]]) == s.taken + Contents(s.ring) + [s.samples[t]];
    }
  }

  lemma ReadLoopKeepsFifo(s: State, t: Tid, fails: bool, wakes: set<Tid>)
    requires Fifo(s)
    ensures Fifo(ReadLoop(s, t, fails, wakes).state) && ReadLoop(s, t, fails, wakes).outcome != Invalid
  {
    if s.ring.count > 0 {
      GetRemoves(s.ring);
      var x := s.ring.data[s.ring.head];
      assert s.taken + ([x] + Contents(Get(s.ring))) == s.taken + [x] + Contents(Get(s.ring));
    }
  }

  lemma StepKeepsFifo(s: State, step: Step)
    requires Fifo(s) && Enabled(s, step)
    ensures Fifo(Apply(s, step).state)
    ensures Apply(s, step).outcome == Invalid ==> step.WriteBegin? && !InRange(step.x)
  {
    match step
    case WriteEnter(t, fails, wakes) => WriteLoopKeepsFifo(s.(writers := Entered(s.writers, t)), t, fails, wakes);
    case WriteResume(t, fails, wakes) => WriteLoopKeepsFifo(s.(writers := Resumed(s.writers, t)), t, fails, wakes);
    case ReadEnter(t, fails, wakes) => ReadLoopKeepsFifo(s.(readers := Entered(s.readers, t)), t, fails, wakes);
    case ReadResume(t, fails, wakes) => ReadLoopKeepsFifo(s.(readers := Resumed(s.readers, t)), t, fails, wakes);
    case _ =>
  }

  // ---------------------------------------------------------------- lost wakeups

  /** No wakeup is lost: enough readers are woken for the items, and enough writers for the room. */
  ghost predicate Awake(s: State)
  {
    s.readers.cond.Enough(s.ring.count) && s.writers.cond.Enough(|s.ring.data| - s.ring.count)
  }

  /** A write that stores sends its signal in vain: it is consumed, and all woken readers have their item. */
  predicate WriteLoses(s: State, wakes: set<Tid>)
  {
    && s.ring.count < |s.ring.data|
    && s.readers.cond.SignalConsumed(wakes) && |s.readers.cond.woken| == s.ring.count
  }

  predicate ReadLoses(s: State, wakes: set<Tid>)
  {
    && s.ring.count > 0
    && s.writers.cond.SignalConsumed(wakes) && |s.writers.cond.woken| == |s.ring.data| - s.ring.count
  }

  /**
   The one way to lose a wakeup: a thread whose wait has timed out consumes the signal of a call
   that succeeds, while other threads are blocked on that side and the woken ones there are no more
   than what there already is for them.
   */
  predicate LosesWakeup(s: State, step: Step)
  {
    || ((step.WriteEnter? || step.WriteResume?) && WriteLoses(s, step.wakes))
    || ((step.ReadEnter? || step.ReadResume?) && ReadLoses(s, step.wakes))
  }

  lemma WriteLoopAwakeIff(s: State, t: Tid, fails: bool, wakes: set<Tid>)
    requires RingValid(s.ring) && t in s.samples && s.readers.cond.Valid() && s.readers.cond.SignalMayWake(wakes)
    requires s.readers.cond.Enough(s.ring.count) && s.writers.cond.Enough(|s.ring.data| - s.ring.count - 1)
    ensures Awake(WriteLoop(s, t, fails, wakes).state) <==> !WriteLoses(s, wakes)
  {
    s.readers.cond.SignalKeepsEnough(wakes, s.ring.count);
  }

  lemma ReadLoopAwakeIff(s: State, t: Tid, fails: bool, wakes: set<Tid>)
    requires RingValid(s.ring) && s.writers.cond.Valid() && s.writers.cond.SignalMayWake(wakes)
    requires s.writers.cond.Enough(|s.ring.data| - s.ring.count) && s.readers.cond.Enough(s.ring.count - 1)
    ensures Awake(ReadLoop(s, t, fails, wakes).state) <==> !ReadLoses(s, wakes)
  {
    s.writers.cond.SignalKeepsEnough(wakes, |s.ring.data| - s.ring.count);
  }

  lemma WriteStepLostIff(s: State, step: Step)
    requires s.readers.cond.Valid() && s.writers.cond.Valid() && Awake(s) && Enabled(s, step)
    requires step.WriteEnter? || step.WriteResume?
    ensures Awake(Apply(s, step).state) <==> !WriteLoses(s, step.wakes)
  {
    var t, wakes := step.t, step.wakes;
    if step.WriteEnter? {
      WriteLoopAwakeIff(s.(writers := Entered(s.writers, t)), t, step.fails, wakes);
    } else {
      s.writers.cond.ResumeKeepsEnough(t, |s.ring.data| - s.ring.count);
      WriteLoopAwakeIff(s.(writers := Resumed(s.writers, t)), t, step.fails, wakes);
    }
  }

  lemma ReadStepLostIff(s: State, step: Step)
    requires s.readers.cond.Valid() && s.writers.cond.Valid() && Awake(s) && Enabled(s, step)
    requires step.ReadEnter? || step.ReadResume?
    ensures Awake(Apply(s, step).state) <==> !ReadLoses(s, step.wakes)
  {
    var t, wakes := step.t, step.wakes;
    if step.ReadEnter? {
      ReadLoopAwakeIff(s.(readers := Entered(s.readers, t)), t, step.fails, wakes);
    } else {
      s.readers.cond.ResumeKeepsEnough(t, s.ring.count);
      ReadLoopAwakeIff(s.(readers := Resumed(s.readers, t)), t, step.fails, wakes);
    }
  }

  lemma QuietStepKeepsAwake(s: State, step: Step)
    requires s.readers.cond.Valid() && s.writers.cond.Valid() && Awake(s) && Enabled(s, step)
    requires !(step.WriteEnter? || step.WriteResume? || step.ReadEnter? || step.ReadResume?)
    ensures Awake(Apply(s, step).state)
  {
    s.writers.cond.QuietMovesKeepEnough(step.t, |s.ring.data| - s.ring.count);
    s.readers.cond.QuietMovesKeepEnough(step.t, s.ring.count);
  }

  /** A step from an awake state loses a wakeup if and only if it is such a call. */
  lemma LostIff(s: State, step: Step)
    requires s.readers.cond.Valid() && s.writers.cond.Valid() && Awake(s) && Enabled(s, step)
    ensures Awake(Apply(s, step).state) <==> !LosesWakeup(s, step)
    ensures LosesWakeup(s, step) ==> s.readers.cond.expired != {} || s.writers.cond.expired != {}
  {
    hide Apply, Awake;
    if step.WriteEnter? || step.WriteResume? {
      WriteStepLostIff(s, step);
    } else if step.ReadEnter? || step.ReadResume? {
      ReadStepLostIff(s, step);
    } else {
      QuietStepKeepsAwake(s, step);
    }
  }

  // ---------------------------------------------------------------- the nested locks

  /** A slot is only ever owned by a call in progress on its side, and nobody is in two calls. */
  ghost predicate SlotsOwned(s: State)
  {
    && |s.slots| == 2
    && (s.slots[0].locked ==> s.writers.InCall(s.slots[0].owner))
    && (s.slots[1].locked ==> s.readers.InCall(s.slots[1].owner))
    && (forall t :: !(s.writers.InCall(t) && s.readers.InCall(t)))
    && (forall t :: s.writers.InCall(t) ==> t in s.samples)
    && s.writers.leaving !! s.writers.entering && s.writers.leaving !! s.writers.cond.waiters
    && s.readers.leaving !! s.readers.entering && s.readers.leaving !! s.readers.cond.waiters
    && s.writers.entering !! s.writers.cond.waiters && s.readers.entering !! s.readers.cond.waiters
    && s.writers.cond.Valid() && s.readers.cond.Valid()
  }

  lemma WriterStepKeepsSlots(s: State, step: Step)
    requires SlotsOwned(s) && Enabled(s, step) && step.OfWriter()
    ensures SlotsOwned(Apply(s, step).state)
  {
    var s' := Apply(s, step).state;
    assert s'.readers.entering == s.readers.entering && s'.readers.leaving == s.readers.leaving;
    assert s'.readers.cond.waiters == s.readers.cond.waiters;
    assert forall u :: s'.readers.InCall(u) == s.readers.InCall(u);
    forall u
      ensures u != step.t ==> s'.writers.InCall(u) == s.writers.InCall(u)
    {
    }
  }

  lemma ReaderStepKeepsSlots(s: State, step: Step)
    requires SlotsOwned(s) && Enabled(s, step) && !step.OfWriter()
    ensures SlotsOwned(Apply(s, step).state)
  {
    var s' := Apply(s, step).state;
    assert s'.writers.entering == s.writers.entering && s'.writers.leaving == s.writers.leaving;
    assert s'.writers.cond.waiters == s.writers.cond.waiters;
    assert forall u :: s'.writers.InCall(u) == s.writers.InCall(u);
    forall u
      ensures u != step.t ==> s'.readers.InCall(u) == s.readers.InCall(u)
    {
    }
  }

  /** Between the monitor's critical sections the read-write lock is always back as it was made. */
  lemma StepKeepsRwLock(s: State, step: Step)
    requires s.rwlock == RwLock.INIT && Enabled(s, step)
    ensures Apply(s, step).state.rwlock == RwLock.INIT
  {
    RwLock.UncontendedUse(step.t, false);
  }

  // ---------------------------------------------------------------- all runs

  ghost predicate Valid(s: State)
  {
    Fifo(s) && SlotsOwned(s) && s.rwlock == RwLock.INIT
  }

  lemma StepKeepsValid(s: State, step: Step)
    requires Valid(s) && Enabled(s, step)
    ensures Valid(Apply(s, step).state)
  {
    StepKeepsFifo(s, step);
    StepKeepsRwLock(s, step);
    if step.OfWriter() {
      WriterStepKeepsSlots(s, step);
    } else {
      ReaderStepKeepsSlots(s, step);
    }
  }

  lemma {:induction false} RunKeepsValid(s: State, steps: seq<Step>)
    requires Valid(s) && Possible(s, steps)
    ensures Valid(Run(s, steps))
    decreases |steps|
  {
    if steps != [] {
      StepKeepsValid(s, steps[0]);
      RunKeepsValid(Apply(s, steps[0]).state, steps[1..]);
    }
  }

  lemma InitValid(data: seq<Sample>)
    requires data != []
    ensures Valid(Init(data)) && Awake(Init(data))
  {
  }

  /** What Apply needs of the ring and the arguments never disables a step: they are right after every run. */
  lemma EnabledIffInPlace(data: seq<Sample>, steps: seq<Step>, step: Step)
    requires data != [] && Possible(Init(data), steps)
    ensures Enabled(Run(Init(data), steps), step) <==> InPlace(Run(Init(data), steps), step)
  {
    InitValid(data);
    RunKeepsValid(Init(data), steps);
    assert forall t :: Run(Init(data), steps).writers.InCall(t) ==> t in Run(Init(data), steps).samples;
    if (step.WriteEnter? || step.WriteResume?) && InPlace(Run(Init(data), steps), step) {
      assert Run(Init(data), steps).writers.InCall(step.t);
    }
  }

  /**
   Over every run: the values read so far followed by the buffer are exactly the values written,
   in order, and every value read passed the range check of a write.
   */
  lemma ReadsFollowWrites(data: seq<Sample>, steps: seq<Step>)
    requires data != [] && Possible(Init(data), steps)
    ensures var s := Run(Init(data), steps);
      && RingValid(s.ring) && s.ring.tail == (s.ring.head + s.ring.count) % |s.ring.data|
      && s.taken + Contents(s.ring) == s.written
      && (forall k :: 0 <= k < |s.taken| ==> s.taken[k] == s.written[k] && InRange(s.taken[k]))
      && (forall t :: s.writers.InCall(t) ==> t in s.samples)
  {
    InitValid(data);
    RunKeepsValid(Init(data), steps);
    var s := Run(Init(data), steps);
    AroundIsModulo(s.ring.head, s.ring.count, |s.ring.data|);
    assert forall k :: 0 <= k < |s.taken| ==> s.taken[k] == (s.taken + Contents(s.ring))[k];
  }

  /** Some state after a step of the run is not awake. */
  ghost predicate EverAsleep(s: State, steps: seq<Step>)
    requires Possible(s, steps)
    decreases |steps|
  {
    steps != [] && (!Awake(Apply(s, steps[0]).state) || EverAsleep(Apply(s, steps[0]).state, steps[1..]))
  }

  ghost predicate EverLosesWakeup(s: State, steps: seq<Step>)
    requires Possible(s, steps)
    decreases |steps|
  {
    steps != [] && (LosesWakeup(s, steps[0]) || EverLosesWakeup(Apply(s, steps[0]).state, steps[1..]))
  }

  /** A run ever loses a wakeup if and only if some signal of it is consumed by a timed-out thread in that way. */
  lemma {:induction false} RunLosesWakeupIff(s: State, steps: seq<Step>)
    requires Valid(s) && Awake(s) && Possible(s, steps)
    ensures EverAsleep(s, steps) <==> EverLosesWakeup(s, steps)
    ensures !EverLosesWakeup(s, steps) ==> Awake(Run(s, steps))
    decreases |steps|
  {
    if steps != [] {
      StepKeepsValid(s, steps[0]);
      LostIff(s, steps[0]);
      if !LosesWakeup(s, steps[0]) {
        RunLosesWakeupIff(Apply(s, steps[0]).state, steps[1..]);
      }
    }
  }

  lemma StepKeepsTimely(s: State, step: Step)
    requires Enabled(s, step) && !step.ReadExpire? && !step.WriteExpire?
    requires s.readers.cond.expired == s.writers.cond.expired == {}
    ensures Apply(s, step).state.readers.cond.expired == Apply(s, step).state.writers.cond.expired == {}
  {
  }

  /** In particular no wakeup is lost as long as no deadline passes. */
  lemma {:induction false} TimelyRunsLoseNothing(s: State, steps: seq<Step>)
    requires Valid(s) && Awake(s) && s.readers.cond.expired == s.writers.cond.expired == {}
    requires Possible(s, steps) && forall k :: 0 <= k < |steps| ==> !steps[k].ReadExpire? && !steps[k].WriteExpire?
    ensures !EverLosesWakeup(s, steps)
    decreases |steps|
  {
    if steps != [] {
      StepKeepsValid(s, steps[0]);
      StepKeepsTimely(s, steps[0]);
      LostIff(s, steps[0]);
      TimelyRunsLoseNothing(Apply(s, steps[0]).state, steps[1..]);
    }
  }

  /**
   Over every run without such a signal, with timeouts, failing waits and spurious wakeups: a
   blocked reader has as many woken readers as there are items, a blocked writer as many woken
   writers as there is room. So blocked threads on both sides, and nobody woken, cannot be.
   */
  lemma NoLostWakeup(data: seq<Sample>, steps: seq<Step>)
    requires data != [] && Possible(Init(data), steps) && !EverLosesWakeup(Init(data), steps)
    ensures var s := Run(Init(data), steps); var readers := s.readers.cond; var writers := s.writers.cond;
      && (readers.Blocked() != {} ==> s.ring.count <= |readers.woken|)
      && (writers.Blocked() != {} ==> |s.ring.data| - s.ring.count <= |writers.woken|)
      && !(readers.Blocked() != {} && writers.Blocked() != {} && readers.woken == writers.woken == {})
  {
    InitValid(data);
    RunLosesWakeupIff(Init(data), steps);
    RunKeepsSize(Init(data), steps);
  }

  /** A woken thread that finds an item, or room, takes it; in an awake state there is such a thread. */
  lemma WokenThreadsSucceed(s: State, t: Tid, fails: bool, wakes: set<Tid>)
    requires Valid(s)
    ensures Awake(s) && s.readers.cond.Blocked() != {} && s.ring.count > 0 ==> s.readers.cond.woken != {}
    ensures Awake(s) && s.writers.cond.Blocked() != {} && s.ring.count < |s.ring.data| ==>
      s.writers.cond.woken != {}
    ensures s.ring.count > 0 && Enabled(s, ReadResume(t, fails, wakes)) ==>
      Apply(s, ReadResume(t, fails, wakes)).outcome == Ok
    ensures s.ring.count < |s.ring.data| && Enabled(s, WriteResume(t, fails, wakes)) ==>
      Apply(s, WriteResume(t, fails, wakes)).outcome == Ok
  {
  }

  // ---------------------------------------------------------------- what the results mean

  /** The opening of a write: refused without any effect, or under way with its argument. */
  lemma WriteBeginIff(s: State, t: Tid, x: Sample, busy: bool)
    requires Valid(s) && Enabled(s, WriteBegin(t, x, busy))
    ensures var r := Apply(s, WriteBegin(t, x, busy)); var s' := r.state;
      && (r.outcome == Invalid <==> !InRange(x)) && (r.outcome == Deadlock <==> InRange(x) && busy)
      && (r.outcome == Pending <==> InRange(x) && !busy)
      && (r.outcome == Pending <==> t in s'.writers.entering) && (r.outcome != Pending ==> s' == s)
      && (r.outcome == Pending ==> Detector.Holds(s'.slots, t, 0) && s'.slots[1] == s.slots[1])
      && s'.ring == s.ring && s'.written == s.written && s'.taken == s.taken && s'.readers == s.readers
  {
    OutsiderPasses(s, t);
  }

  lemma ReadBeginIff(s: State, t: Tid, busy: bool)
    requires Valid(s) && Enabled(s, ReadBegin(t, busy))
    ensures var r := Apply(s, ReadBegin(t, busy)); var s' := r.state;
      && (r.outcome == Deadlock <==> busy) && (r.outcome == Pending <==> !busy)
      && (r.outcome == Pending <==> t in s'.readers.entering) && (r.outcome != Pending ==> s' == s)
      && (r.outcome == Pending ==> Detector.Holds(s'.slots, t, 1) && s'.slots[0] == s.slots[0])
      && s'.ring == s.ring && s'.written == s.written && s'.taken == s.taken && s'.writers == s.writers
  {
    OutsiderPasses(s, t);
  }

  /** A write stores if and only if there is room; if not, it waits or its wait has failed. */
  lemma WriteResultIff(s: State, step: Step)
    requires Valid(s) && Enabled(s, step) && (step.WriteEnter? || step.WriteResume?)
    ensures var r := Apply(s, step); var s' := r.state; var t := step.t;
      var full := |Contents(s.ring)| == |s.ring.data|;
      && (r.outcome == Ok <==> !full) && (r.outcome == WaitFailed <==> full && step.fails)
      && (r.outcome == Pending <==> full && !step.fails)
      && (r.outcome == Pending <==> t in s'.writers.cond.Blocked())
      && (r.outcome != Pending <==> t in s'.writers.leaving)
      && s'.taken == s.taken && |s'.written| == |s.written| + if r.outcome == Ok then 1 else 0
  {
    if step.WriteEnter? {
      WriteLoopMeans(s.(writers := Entered(s.writers, step.t)), step.t, step.fails, step.wakes);
    } else {
      WriteLoopMeans(s.(writers := Resumed(s.writers, step.t)), step.t, step.fails, step.wakes);
    }
  }

  lemma WriteLoopMeans(s: State, t: Tid, fails: bool, wakes: set<Tid>)
    requires RingValid(s.ring) && t in s.samples && t !in s.writers.leaving && t !in s.writers.cond.waiters
    requires s.writers.cond.Valid()
    ensures var r := WriteLoop(s, t, fails, wakes); var s' := r.state; var full := s.ring.count == |s.ring.data|;
      && (r.outcome == Ok <==> !full) && (r.outcome == WaitFailed <==> full && fails)
      && (r.outcome == Pending <==> full && !fails)
      && (r.outcome == Pending <==> t in s'.writers.cond.Blocked())
      && (r.outcome != Pending <==> t in s'.writers.leaving)
      && s'.taken == s.taken && s'.written == s.written + if r.outcome == Ok then [s.samples[t]] else []
  {
  }

  /** A read takes the oldest value if and only if there is one. */
  lemma ReadResultIff(s: State, step: Step)
    requires Valid(s) && Enabled(s, step) && (step.ReadEnter? || step.ReadResume?)
    ensures var r := Apply(s, step); var s' := r.state; var t := step.t; var empty := Contents(s.ring) == [];
      && (r.outcome == Ok <==> !empty) && (r.outcome == WaitFailed <==> empty && step.fails)
      && (r.outcome == Pending <==> empty && !step.fails)
      && (r.outcome == Pending <==> t in s'.readers.cond.Blocked())
      && (r.outcome != Pending <==> t in s'.readers.leaving)
      && s'.written == s.written
      && s'.taken == s.taken + if r.outcome == Ok then [Contents(s.ring)[0]] else []
  {
    if step.ReadEnter? {
      ReadLoopMeans(s.(readers := Entered(s.readers, step.t)), step.t, step.fails, step.wakes);
    } else {
      ReadLoopMeans(s.(readers := Resumed(s.readers, step.t)), step.t, step.fails, step.wakes);
    }
  }

  lemma ReadLoopMeans(s: State, t: Tid, fails: bool, wakes: set<Tid>)
    requires RingValid(s.ring) && t !in s.readers.leaving && t !in s.readers.cond.waiters && s.readers.cond.Valid()
    ensures var r := ReadLoop(s, t, fails, wakes); var s' := r.state; var empty := s.ring.count == 0;
      && (r.outcome == Ok <==> !empty) && (r.outcome == WaitFailed <==> empty && fails)
      && (r.outcome == Pending <==> empty && !fails)
      && (r.outcome == Pending <==> t in s'.readers.cond.Blocked())
      && (r.outcome != Pending <==> t in s'.readers.leaving)
      && s'.written == s.written
      && s'.taken == s.taken + if r.outcome == Ok then [Contents(s.ring)[0]] else []
  {
  }

  /** The other steps move the thread, end a call with TimedOut after its deadline only, and leave the buffer. */
  lemma QuietStepMeans(s: State, step: Step)
    requires Valid(s) && Enabled(s, step)
    requires !(step.WriteEnter? || step.WriteResume? || step.ReadEnter? || step.ReadResume?)
    ensures var r := Apply(s, step); var s' := r.state;
      && (r.outcome == TimedOut <==> step.WriteGiveUp? || step.ReadGiveUp?) && r.outcome != Ok
      && s'.ring == s.ring && s'.written == s.written && s'.taken == s.taken
  {
  }

  lemma QuietStepMoves(s: State, step: Step)
    requires Valid(s) && Enabled(s, step)
    ensures var s' := Apply(s, step).state; var t := step.t;
      && (step.WriteGiveUp? ==> t in s'.writers.leaving) && (step.ReadGiveUp? ==> t in s'.readers.leaving)
      && (step.WriteExpire? ==> t in s'.writers.cond.expired) && (step.ReadExpire? ==> t in s'.readers.cond.expired)
      && (step.WriteSpurious? ==> t in s'.writers.cond.woken) && (step.ReadSpurious? ==> t in s'.readers.cond.woken)
      && (step.WriteLeave? ==> !s'.writers.InCall(t)) && (step.ReadLeave? ==> !s'.readers.InCall(t))
  {
  }

  /** The detector's slots change at the ends of a call only; the last step gives up the caller's own. */
  lemma SlotsChangeAtEnds(s: State, step: Step)
    requires Valid(s) && Enabled(s, step) && !step.WriteBegin? && !step.ReadBegin?
    ensures var slots := Apply(s, step).state.slots;
      && (!step.WriteLeave? && !step.ReadLeave? ==> slots == s.slots)
      && (step.WriteLeave? || step.ReadLeave? ==>
            forall u, i :: Detector.Holds(slots, u, i) <==> u != step.t && Detector.Holds(s.slots, u, i))
  {
  }

  /** Thread u is at the same place, but for a signal that may have woken it. */
  predicate SamePlace(side: Side, side': Side, u: Tid)
  {
    && (u in side'.entering <==> u in side.entering) && (u in side'.cond.waiters <==> u in side.cond.waiters)
    && (u in side'.cond.expired <==> u in side.cond.expired) && (u in side'.leaving <==> u in side.leaving)
  }

  /** No step moves another thread. */
  lemma OthersStay(s: State, step: Step, u: Tid)
    requires Valid(s) && Enabled(s, step) && u != step.t
    ensures SamePlace(s.writers, Apply(s, step).state.writers, u)
    ensures SamePlace(s.readers, Apply(s, step).state.readers, u)
  {
    if step.OfWriter() {
      OtherWritersStay(s, step, u);
    } else {
      OtherReadersStay(s, step, u);
    }
  }

  lemma OtherWritersStay(s: State, step: Step, u: Tid)
    requires Enabled(s, step) && step.OfWriter() && u != step.t
    ensures SamePlace(s.writers, Apply(s, step).state.writers, u)
    ensures SamePlace(s.readers, Apply(s, step).state.readers, u)
  {
  }

  lemma OtherReadersStay(s: State, step: Step, u: Tid)
    requires Enabled(s, step) && !step.OfWriter() && u != step.t
    ensures SamePlace(s.writers, Apply(s, step).state.writers, u)
    ensures SamePlace(s.readers, Apply(s, step).state.readers, u)
  {
  }

  // ---------------------------------------------------------------- what is stored

  /** The argument of the last write call that t has opened in a run. */
  function Argument(steps: seq<Step>, t: Tid): (r: Option<Sample>)
    decreases |steps|
  {
    if steps == [] then None
    else
      var last := |steps| - 1;
      if steps[last].WriteBegin? && steps[last].t == t then Some(steps[last].x) else Argument(steps[..last], t)
  }

  /** The arguments of the write calls of a run that were told Ok, in the order in which they were. */
  ghost function Stored(s: State, steps: seq<Step>): (r: seq<Option<Sample>>)
    requires Possible(s, steps)
    decreases |steps|
  {
    if steps == [] then []
    else
      var last := |steps| - 1;
      PossiblePrefix(s, steps);
      var step := steps[last];
      Stored(s, steps[..last]) +
      if (step.WriteEnter? || step.WriteResume?) && Apply(Run(s, steps[..last]), step).outcome == Ok
      then [Argument(steps[..last], step.t)] else []
  }

  lemma {:induction false} PossiblePrefix(s: State, steps: seq<Step>)
    requires Possible(s, steps) && steps != []
    ensures var last := |steps| - 1;
      && Possible(s, steps[..last]) && Enabled(Run(s, steps[..last]), steps[last])
      && Run(s, steps) == Apply(Run(s, steps[..last]), steps[last]).state
    decreases |steps|
  {
    var last := |steps| - 1;
    if last == 0 {
      assert steps[..last] == [] && steps[1..] == [];
    } else {
      PossiblePrefix(Apply(s, steps[0]).state, steps[1..]);
      assert steps[1..][..last - 1] == steps[..last][1..];
    }
  }

  /** What the calls in progress will store is what they were called with. */
  ghost predicate ArgumentsKept(s: State, steps: seq<Step>)
  {
    forall t :: s.writers.InCall(t) ==> t in s.samples && Argument(steps, t) == Some(s.samples[t])
  }

  lemma StepKeepsArguments(s: State, steps: seq<Step>, step: Step)
    requires Valid(s) && Enabled(s, step) && ArgumentsKept(s, steps)
    ensures ArgumentsKept(Apply(s, step).state, steps + [step])
  {
    assert (steps + [step])[..|steps|] == steps;
    var s' := Apply(s, step).state;
    forall t | s'.writers.InCall(t)
      ensures t in s'.samples && Argument(steps + [step], t) == Some(s'.samples[t])
    {
      if !step.WriteBegin? || step.t != t {
        StaysInCall(s, step, t);
      }
    }
  }

  /** Only the opening of a write call brings a thread into one, and nothing changes its argument. */
  lemma StaysInCall(s: State, step: Step, t: Tid)
    requires Valid(s) && Enabled(s, step) && Apply(s, step).state.writers.InCall(t)
    requires !step.WriteBegin? || step.t != t
    ensures s.writers.InCall(t) && t in s.samples
    ensures var s' := Apply(s, step).state; t in s'.samples && s'.samples[t] == s.samples[t]
  {
  }

  /** A call that is told Ok has stored the argument it was opened with. */
  lemma StoresArgument(s: State, steps: seq<Step>, step: Step)
    requires Valid(s) && Enabled(s, step) && ArgumentsKept(s, steps)
    requires step.WriteEnter? || step.WriteResume?
    ensures var r := Apply(s, step); var x := Argument(steps, step.t);
      && x.Some? && (r.outcome == Ok <==> r.state.written == s.written + [x.value])
      && (r.outcome != Ok <==> r.state.written == s.written)
  {
    assert s.writers.InCall(step.t);
  }

  /**
   Over every run: the values stored are exactly the arguments of the write calls that were told
   Ok, in that order; and so, with ReadsFollowWrites, are the values read.
   */
  lemma {:induction false} WritesStoreArguments(data: seq<Sample>, steps: seq<Step>)
    requires data != [] && Possible(Init(data), steps)
    ensures var s := Run(Init(data), steps);
      && Valid(s) && ArgumentsKept(s, steps)
      && |Stored(Init(data), steps)| == |s.written|
      && forall k :: 0 <= k < |s.written| ==> Stored(Init(data), steps)[k] == Some(s.written[k])
    decreases |steps|
  {
    hide Fifo, SlotsOwned, Apply, ArgumentsKept, Argument;
    if steps == [] {
      NothingStored(data);
    } else {
      var last := |steps| - 1;
      PossiblePrefix(Init(data), steps);
      WritesStoreArguments(data, steps[..last]);
      var s, step := Run(Init(data), steps[..last]), steps[last];
      assert steps == steps[..last] + [step];
      StepKeepsValid(s, step);
      StepKeepsArguments(s, steps[..last], step);
      StoredGrows(s, steps[..last], step);
    }
  }

  lemma NothingStored(data: seq<Sample>)
    requires data != []
    ensures Valid(Init(data)) && ArgumentsKept(Init(data), []) && Init(data).written == []
  {
    InitValid(data);
  }

  /** End to end: the k-th value read is the argument of the k-th write call that was told Ok. */
  lemma ReadsReturnArguments(data: seq<Sample>, steps: seq<Step>)
    requires data != [] && Possible(Init(data), steps)
    ensures var taken := Run(Init(data), steps).taken; var stored := Stored(Init(data), steps);
      |taken| <= |stored| && forall k :: 0 <= k < |taken| ==> stored[k] == Some(taken[k])
  {
    ReadsFollowWrites(data, steps);
    WritesStoreArguments(data, steps);
  }

  lemma StoredGrows(s: State, steps: seq<Step>, step: Step)
    requires Valid(s) && Enabled(s, step) && ArgumentsKept(s, steps)
    ensures var r := Apply(s, step);
      if (step.WriteEnter? || step.WriteResume?) && r.outcome == Ok
      then Argument(steps, step.t).Some? && r.state.written == s.written + [Argument(steps, step.t).value]
      else r.state.written == s.written
  {
    if step.WriteEnter? || step.WriteResume? {
      StoresArgument(s, steps, step);
    } else if step.ReadEnter? || step.ReadResume? {
      ReadResultIff(s, step);
    } else {
      QuietStepMeans(s, step);
    }
  }

  // ---------------------------------------------------------------- a run that loses a wakeup

  lemma {:induction false} RunExtends(s: State, steps: seq<Step>, step: Step)
    requires Possible(s, steps) && Enabled(Run(s, steps), step)
    ensures Possible(s, steps + [step]) && Run(s, steps + [step]) == Apply(Run(s, steps), step).state
    decreases |steps|
  {
    if steps == [] {
      assert Possible(Apply(s, step).state, []);
      assert [] + [step] == [step];
    } else {
      RunExtends(Apply(s, steps[0]).state, steps[1..], step);
      assert (steps + [step])[1..] == steps[1..] + [step];
    }
  }

  /** After the run, on a buffer of size one, all calls in progress are in their waits. */
  ghost predicate Waiting(init: State, steps: seq<Step>, count: int, rc: Cond, wc: Cond)
  {
    && Possible(init, steps)
    && var s := Run(init, steps);
    && Valid(s) && |s.ring.data| == 1 && s.ring.count == count
    && s.readers == Side({}, rc, {}) && s.writers == Side({}, wc, {})
  }

  /** One more step from a valid state. */
  lemma Extend(init: State, steps: seq<Step>, step: Step) returns (more: seq<Step>)
    requires Possible(init, steps) && Valid(Run(init, steps)) && Enabled(Run(init, steps), step)
    ensures Possible(init, more) && Valid(Run(init, more)) && Run(init, more) == Apply(Run(init, steps), step).state
  {
    RunExtends(init, steps, step);
    StepKeepsValid(Run(init, steps), step);
    more := steps + [step];
  }

  lemma ReadBlocks(init: State, steps: seq<Step>, rc: Cond, wc: Cond, t: Tid) returns (more: seq<Step>)
    requires Waiting(init, steps, 0, rc, wc) && t !in rc.waiters && t !in wc.waiters && wc.Blocked() == {}
    ensures Waiting(init, more, 0, rc.Wait(t), wc)
  {
    more := Extend(init, steps, ReadBegin(t, false));
    more := Extend(init, more, ReadEnter(t, false, {}));
  }

  lemma WriteBlocks(init: State, steps: seq<Step>, rc: Cond, wc: Cond, t: Tid, x: Sample) returns (more: seq<Step>)
    requires Waiting(init, steps, 1, rc, wc) && t !in rc.waiters && t !in wc.waiters && InRange(x)
    ensures Waiting(init, more, 1, rc, wc.Wait(t))
  {
    more := Extend(init, steps, WriteBegin(t, x, false));
    more := Extend(init, more, WriteEnter(t, false, rc.Blocked()));
  }

  lemma ReadTimesOut(init: State, steps: seq<Step>, rc: Cond, wc: Cond, t: Tid) returns (more: seq<Step>)
    requires Waiting(init, steps, 0, rc, wc) && t in rc.Blocked()
    ensures Waiting(init, more, 0, rc.Expire(t), wc)
  {
    more := Extend(init, steps, ReadExpire(t));
  }

  lemma SignalIsConsumed(init: State, steps: seq<Step>, rc: Cond, wc: Cond, t: Tid, x: Sample)
    returns (more: seq<Step>)
    requires Waiting(init, steps, 0, rc, wc) && rc.expired != {}
    requires t !in rc.waiters && t !in wc.waiters && InRange(x)
    ensures Waiting(init, more, 1, rc, wc)
  {
    more := Extend(init, steps, WriteBegin(t, x, false));
    more := Extend(init, more, WriteEnter(t, false, {}));
    assert rc.Wake({}) == rc;
    more := Extend(init, more, WriteLeave(t));
  }

  lemma ReadGivesUp(init: State, steps: seq<Step>, rc: Cond, wc: Cond, t: Tid) returns (more: seq<Step>)
    requires Waiting(init, steps, 1, rc, wc) && t in rc.expired
    ensures Waiting(init, more, 1, rc.Resume(t), wc)
  {
    more := Extend(init, steps, ReadGiveUp(t));
    more := Extend(init, more, ReadLeave(t));
  }

  /**
   A timed-out reader that consumes a signal strands both sides: reader 2 is blocked with an item
   in the buffer, writer 4 is blocked because it is full, and nobody else is in a call.
   */
  lemma ConsumedSignalStrandsBoth(x: Sample) returns (steps: seq<Step>)
    requires InRange(x)
    ensures Possible(Init([x]), steps)
    ensures var s := Run(Init([x]), steps);
      && s.ring.count == |s.ring.data| == 1
      && s.readers == Side({}, Cond({2}, {}, {}), {}) && s.writers == Side({}, Cond({4}, {}, {}), {})
  {
    hide Valid, Possible, Run, Init, InRange;
    var init := Init([x]);
    NobodyWaits(x);
    steps := ReadBlocks(init, [], NOBODY, NOBODY, 1);
    steps := ReadBlocks(init, steps, NOBODY.Wait(1), NOBODY, 2);
    var expired := TwoReadersOneExpired();
    steps := ReadTimesOut(init, steps, NOBODY.Wait(1).Wait(2), NOBODY, 1);
    steps := SignalIsConsumed(init, steps, expired, NOBODY, 3, x);
    steps := ReadGivesUp(init, steps, expired, NOBODY, 1);
    steps := WriteBlocks(init, steps, Cond({2}, {}, {}), NOBODY, 4, x);
  }

  lemma NobodyWaits(x: Sample)
    ensures Waiting(Init([x]), [], 0, NOBODY, NOBODY)
  {
    InitValid([x]);
  }

  lemma TwoReadersOneExpired() returns (c: Cond)
    ensures c == NOBODY.Wait(1).Wait(2).Expire(1) && 1 in c.expired && c.waiters == {1, 2}
    ensures 2 !in NOBODY.Wait(1).waiters && 1 in NOBODY.Wait(1).Wait(2).Blocked()
    ensures c.Resume(1) == Cond({2}, {}, {}) && NOBODY.Wait(4) == Cond({4}, {}, {})
  {
    c := NOBODY.Wait(1).Wait(2).Expire(1);
  }

  lemma {:induction false} RunKeepsSize(s: State, steps: seq<Step>)
    requires Possible(s, steps)
    ensures |Run(s, steps).ring.data| == |s.ring.data|
    decreases |steps|
  {
    if steps != [] {
      RunKeepsSize(Apply(s, steps[0]).state, steps[1..]);
    }
  }

  /**
   The scan never rejects a call of the monitor, since nobody calls it from inside a call; and the
   read-write lock inside the mutex is got at once, so the results the code ignores are successes.
   */
  lemma NestedLocksNeverRefuse(data: seq<Sample>, steps: seq<Step>, t: Tid)
    requires data != [] && Possible(Init(data), steps)
    ensures var s := Run(Init(data), steps);
      && (!s.writers.InCall(t) && !s.readers.InCall(t) ==>
            Detector.Lock(s.slots, t, 0, false).outcome == Detector.Lock(s.slots, t, 1, false).outcome == Detector.Ok)
      && RwLock.WriteLock(s.rwlock, t, false).outcome == RwLock.ReadLock(s.rwlock, t, false).outcome == RwLock.Ok
      && ((forall u :: !s.writers.InCall(u) && !s.readers.InCall(u)) ==> !s.slots[0].locked && !s.slots[1].locked)
  {
    InitValid(data);
    RunKeepsValid(Init(data), steps);
    var s := Run(Init(data), steps);
    if !s.writers.InCall(t) && !s.readers.InCall(t) {
      OutsiderPasses(s, t);
    }
    RwLock.UncontendedUse(t, false);
  }

  /** A thread outside all calls owns no slot. */
  lemma OutsiderPasses(s: State, t: Tid)
    requires SlotsOwned(s) && !s.writers.InCall(t) && !s.readers.InCall(t)
    ensures Detector.Lock(s.slots, t, 0, false).outcome == Detector.Lock(s.slots, t, 1, false).outcome == Detector.Ok
  {
  }

  // ---------------------------------------------------------------- the object

  /** struct bme680_monitor. The calls in progress and the history are ghost. */
  class MonitorObject {
    const data: array<Sample>
    var head: int
    var tail: int
    var count: int
    const rwlock: RwLock.RwLockObject
    const dd: Detector.DetectorObject
    ghost var writers: Side
    ghost var readers: Side
    ghost var samples: map<Tid, Sample>
    ghost var written: seq<Sample>
    ghost var taken: seq<Sample>

    ghost function Abs(): (r: State)
      reads this, data, rwlock, dd, dd.locks
    {
      State(Ring(data[..], head, tail, count), writers, readers, samples,
            rwlock.Abs(), dd.locks[..], written, taken)
    }

    constructor (size: nat)
      requires size > 0
      ensures Abs() == Init(data[..]) && data.Length == size && Valid(Abs())
      ensures fresh({data, rwlock, dd, dd.locks})
    {
      data := new Sample[size](_ => Sample(Finite(0.0), 0, 0));
      head, tail, count := 0, 0, 0;
      rwlock := new RwLock.RwLockObject();
      dd := new Detector.DetectorObject(2);
      writers, readers, samples, written, taken := NO_CALLS, NO_CALLS, map[], [], [];
      new;
      InitValid(data[..]);
    }

    /** bme680_monitor_write before its mutex: the range check and the detector. */
    method BeginWrite(t: Tid, x: Sample, busy: bool) returns (o: Outcome)
      modifies this, dd.locks
      ensures Result(Abs(), o) == WriteCall(old(Abs()), t, x, busy)
    {
      if x.temp.Below(-40.0) || x.temp.Above(85.0) || x.pressure < 30000 || x.pressure > 110000
         || x.humidity < 0 || x.humidity > 100 {
        return Invalid;
      }
      var d := dd.LockSlot(0, t, busy);
      if d != Detector.Ok {
        return Deadlock;
      }
      writers := writers.(entering := writers.entering + {t});
      samples := samples[t := x];
      return Pending;
    }

    /** The store under the read-write lock. */
    method Store(t: Tid, x: Sample, ghost wakes: set<Tid>)
      requires RingValid(Abs().ring)
      modifies this`tail, this`count, this`written, this`readers, data, rwlock
      ensures Abs().ring == Put(old(Abs()).ring, x) && written == old(written) + [x]
      ensures readers == old(readers).(cond := old(readers).cond.Wake(wakes))
      ensures rwlock.Abs() == RwLock.Unlock(RwLock.WriteLock(old(rwlock.Abs()), t, false).state, t, {}).state
    {
      hide RwLock.WriteLock, RwLock.Unlock;
      var locked := rwlock.WrLock(t, false);
      data[tail] := x;
      tail := (tail + 1) % data.Length;
      count := count + 1;
      written := written + [x];
      readers := readers.(cond := readers.cond.Wake(wakes));
      var unlocked := rwlock.Release(t, {});
    }

    /** The write loop up to its next wait, or through the store to the unlock. */
    method TryWrite(t: Tid, x: Sample, fails: bool, ghost wakes: set<Tid>) returns (o: Outcome)
      requires RingValid(Abs().ring) && t in samples && samples[t] == x
      modifies this, data, rwlock
      ensures Result(Abs(), o) == WriteLoop(old(Abs()), t, fails, wakes)
    {
      if count == data.Length {
        if fails {
          writers := writers.(leaving := writers.leaving + {t});
          return WaitFailed;
        }
        writers := writers.(cond := writers.cond.Wait(t));
        return Pending;
      }
      writers := writers.(leaving := writers.leaving + {t});
      if count < 0 || count > data.Length {
        return Invalid;
      }
      Store(t, x, wakes);
      return Ok;
    }

    method EnterWrite(t: Tid, x: Sample, fails: bool, ghost wakes: set<Tid>) returns (o: Outcome)
      requires Enabled(Abs(), WriteEnter(t, fails, wakes)) && samples[t] == x
      modifies this, data, rwlock
      ensures Result(Abs(), o) == Apply(old(Abs()), WriteEnter(t, fails, wakes))
    {
      writers := Entered(writers, t);
      o := TryWrite(t, x, fails, wakes);
    }

    method ResumeWrite(t: Tid, x: Sample, fails: bool, ghost wakes: set<Tid>) returns (o: Outcome)
      requires Enabled(Abs(), WriteResume(t, fails, wakes)) && samples[t] == x
      modifies this, data, rwlock
      ensures Result(Abs(), o) == Apply(old(Abs()), WriteResume(t, fails, wakes))
    {
      writers := Resumed(writers, t);
      o := TryWrite(t, x, fails, wakes);
    }

    /** The detector's unlock at the end of every write, after success and failure alike. */
    method EndWrite(t: Tid)
      requires Enabled(Abs(), WriteLeave(t))
      modifies this, dd.locks
      ensures Abs() == Apply(old(Abs()), WriteLeave(t)).state
    {
      writers := writers.(leaving := writers.leaving - {t});
      var o := dd.UnlockSlot(0, t);
    }

    method BeginRead(t: Tid, busy: bool) returns (o: Outcome)
      modifies this, dd.locks
      ensures Result(Abs(), o) == ReadCall(old(Abs()), t, busy)
    {
      var d := dd.LockSlot(1, t, busy);
      if d != Detector.Ok {
        return Deadlock;
      }
      readers := readers.(entering := readers.entering + {t});
      return Pending;
    }

    /** The load under the read-write lock. */
    method Load(t: Tid, ghost wakes: set<Tid>) returns (x: Sample)
      requires RingValid(Abs().ring)
      modifies this`head, this`count, this`taken, this`writers, rwlock
      ensures Abs().ring == Get(old(Abs()).ring) && x == data[old(head)] && taken == old(taken) + [x]
      ensures writers == old(writers).(cond := old(writers).cond.Wake(wakes))
      ensures rwlock.Abs() == RwLock.Unlock(RwLock.ReadLock(old(rwlock.Abs()), t, false).state, t, {}).state
    {
      hide RwLock.ReadLock, RwLock.Unlock;
      var locked := rwlock.RdLock(t, false);
      x := data[head];
      head := (head + 1) % data.Length;
      count := count - 1;
      taken := taken + [x];
      writers := writers.(cond := writers.cond.Wake(wakes));
      var unlocked := rwlock.Release(t, {});
    }

    /** The read loop up to its next wait, or through the load to the unlock. */
    method TryRead(t: Tid, fails: bool, ghost wakes: set<Tid>) returns (o: Outcome, x: Sample)
      requires RingValid(Abs().ring)
      modifies this, rwlock
      ensures Result(Abs(), o) == ReadLoop(old(Abs()), t, fails, wakes)
      ensures o == Ok ==> old(count) > 0 && x == old(Contents(Abs().ring))[0]
    {
      x := Sample(Finite(0.0), 0, 0);
      if count == 0 {
        if fails {
          readers := readers.(leaving := readers.leaving + {t});
          return WaitFailed, x;
        }
        readers := readers.(cond := readers.cond.Wait(t));
        return Pending, x;
      }
      readers := readers.(leaving := readers.leaving + {t});
      if count < 0 || count > data.Length {
        return Invalid, x;
      }
      x := Load(t, wakes);
      return Ok, x;
    }

    method EnterRead(t: Tid, fails: bool, ghost wakes: set<Tid>) returns (o: Outcome, x: Sample)
      requires Enabled(Abs(), ReadEnter(t, fails, wakes))
      modifies this, rwlock
      ensures Result(Abs(), o) == Apply(old(Abs()), ReadEnter(t, fails, wakes))
      ensures o == Ok ==> old(count) > 0 && x == old(Contents(Abs().ring))[0]
    {
      readers := Entered(readers, t);
      o, x := TryRead(t, fails, wakes);
    }

    method ResumeRead(t: Tid, fails: bool, ghost wakes: set<Tid>) returns (o: Outcome, x: Sample)
      requires Enabled(Abs(), ReadResume(t, fails, wakes))
      modifies this, rwlock
      ensures Result(Abs(), o) == Apply(old(Abs()), ReadResume(t, fails, wakes))
      ensures o == Ok ==> old(count) > 0 && x == old(Contents(Abs().ring))[0]
    {
      readers := Resumed(readers, t);
      o, x := TryRead(t, fails, wakes);
    }

    method EndRead(t: Tid)
      requires Enabled(Abs(), ReadLeave(t))
      modifies this, dd.locks
      ensures Abs() == Apply(old(Abs()), ReadLeave(t)).state
    {
      readers := readers.(leaving := readers.leaving - {t});
      var o := dd.UnlockSlot(1, t);
    }
  }
}
