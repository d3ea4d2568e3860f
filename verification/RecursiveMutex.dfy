/** The recursive mutex of recursive_mutex.c, with its unprotected owner test. */
module RecursiveMutex {
  import opened CondVar
  import opened Wrappers

  /**
   The accesses of recursive_mutex_lock and recursive_mutex_unlock to shared memory, one each;
   `count++` and `count--` are a load and a store of what was loaded.
   */
  datatype Pc =
    | Idle
    | LockTest | LoadUp | StoreUp(loaded: int) | Acquire | SetOwner | SetCount
    | UnlockTest | LoadDown | StoreDown(loaded: int) | ZeroTest | ClearOwner | Release

  datatype Call = LockCall | UnlockCall

  /**
   `inner` and `innerDepth` are the pthread mutex, of the recursive kind; `owner` and `count` are
   the fields beside it. `depth` is how many successful locks less unlocks a thread has made.
   */
  datatype State = State(inner: Option<Tid>, innerDepth: nat, owner: Option<Tid>, count: int,
                         pcs: map<Tid, Pc>, depths: map<Tid, nat>)
  {
    function PcOf(t: Tid): (r: Pc)
    {
      if t in pcs then pcs[t] else Idle
    }

    function Depth(t: Tid): (r: nat)
    {
      if t in depths then depths[t] else 0
    }

    function At(t: Tid, pc: Pc): (r: State)
    {
      this.(pcs := pcs[t := pc])
    }

    function Returned(t: Tid, depth: nat): (r: State)
    {
      this.(pcs := pcs[t := Idle], depths := depths[t := depth])
    }
  }

  const INIT := State(None, 0, None, 0, map[], map[])

  predicate Enabled(s: State, t: Tid)
  {
    s.PcOf(t) == Acquire ==> s.inner == None || s.inner == Some(t)
  }

  /** Thread t makes its next access; an idle thread makes the call `call`. */
  function Step(s: State, t: Tid, call: Call): (r: State)
  {
    match s.PcOf(t)
    case Idle => s.At(t, if call == LockCall then LockTest else UnlockTest)
    case LockTest => s.At(t, if s.owner == Some(t) then LoadUp else Acquire)
    case LoadUp => s.At(t, StoreUp(s.count))
    case StoreUp(loaded) => s.(count := loaded + 1).Returned(t, s.Depth(t) + 1)
    case Acquire => s.(inner := Some(t), innerDepth := s.innerDepth + 1).At(t, SetOwner)
    case SetOwner => s.(owner := Some(t)).At(t, SetCount)
    case SetCount => s.(count := 1).Returned(t, s.Depth(t) + 1)
    case UnlockTest => s.At(t, if s.owner == Some(t) then LoadDown else Idle)
    case LoadDown => s.At(t, StoreDown(s.count))
    case StoreDown(loaded) => s.(count := loaded - 1).At(t, ZeroTest)
    case ZeroTest =>
      if s.count == 0 then s.At(t, ClearOwner)
      else s.Returned(t, if s.Depth(t) > 0 then s.Depth(t) - 1 else 0)
    case ClearOwner => s.(owner := None).At(t, Release)
    case Release =>
      var left := if s.innerDepth > 0 then s.innerDepth - 1 else 0;
      s.(innerDepth := left, inner := if left == 0 then None else s.inner)
       .Returned(t, if s.Depth(t) > 0 then s.Depth(t) - 1 else 0)
  }

  // ---------------------------------------------------------------- the invariant

  /** Thread t is inside the mutex, or on its way into or out of it. */
  predicate Inside(s: State, t: Tid)
  {
    s.Depth(t) > 0 || s.PcOf(t) == SetOwner || s.PcOf(t) == SetCount || s.PcOf(t) == Release
  }

  /** What the shared fields mean for thread t, wherever it is. */
  ghost predicate Consistent(s: State, t: Tid)
  {
    var pc, depth := s.PcOf(t), s.Depth(t);
    && (s.inner == Some(t) <==> Inside(s, t))
    && (s.owner == Some(t) <==> Inside(s, t) && pc != SetOwner && pc != Release)
    && (pc == Acquire || pc == SetOwner || pc == SetCount ==> depth == 0)
    && (pc == LoadUp || pc == LoadDown || pc == ZeroTest ==> depth > 0)
    && (pc.StoreUp? || pc.StoreDown? ==> depth > 0 && pc.loaded == depth)
    && (pc == ClearOwner || pc == Release ==> depth == 1)
    && (s.owner == Some(t) && pc != SetCount ==>
          s.count == if pc == ZeroTest || pc == ClearOwner then depth - 1 else depth)
  }

  ghost predicate Valid(s: State)
  {
    && s.innerDepth == (if s.inner == None then 0 else 1)
    && forall t :: Consistent(s, t)
  }

  lemma StepKeepsOwn(s: State, t: Tid, call: Call)
    requires Valid(s) && Enabled(s, t)
    ensures var s' := Step(s, t, call);
      Consistent(s', t) && s'.innerDepth == (if s'.inner == None then 0 else 1)
  {
    assert Consistent(s, t);
  }

  lemma StepKeepsOther(s: State, t: Tid, call: Call, u: Tid)
    requires Enabled(s, t) && Consistent(s, t) && Consistent(s, u) && u != t
    ensures Consistent(Step(s, t, call), u)
  {
  }

  lemma StepKeepsValid(s: State, t: Tid, call: Call)
    requires Valid(s) && Enabled(s, t)
    ensures Valid(Step(s, t, call))
  {
    StepKeepsOwn(s, t, call);
    forall u
      ensures Consistent(Step(s, t, call), u)
    {
      assert Consistent(s, t) && Consistent(s, u);
      if u != t {
        StepKeepsOther(s, t, call, u);
      }
    }
  }

  datatype Move = Move(t: Tid, call: Call)

  ghost predicate Possible(s: State, moves: seq<Move>)
    decreases |moves|
  {
    moves == [] || (Enabled(s, moves[0].t) && Possible(Step(s, moves[0].t, moves[0].call), moves[1..]))
  }

  ghost function Run(s: State, moves: seq<Move>): (r: State)
    decreases |moves|
  {
    if moves == [] then s else Run(Step(s, moves[0].t, moves[0].call), moves[1..])
  }

  lemma {:induction false} RunKeepsValid(s: State, moves: seq<Move>)
    requires Valid(s) && Possible(s, moves)
    ensures Valid(Run(s, moves))
    decreases |moves|
  {
    if moves != [] {
      StepKeepsValid(s, moves[0].t, moves[0].call);
      RunKeepsValid(Step(s, moves[0].t, moves[0].call), moves[1..]);
    }
  }

  // ---------------------------------------------------------------- what it is for

  /**
   Under every interleaving: at most one thread is inside; between its calls the owner's count is
   its locks less its unlocks; and a thread about to lock the inner mutex never has it already.
   */
  lemma MutualExclusion(moves: seq<Move>, t: Tid, u: Tid)
    requires Possible(INIT, moves)
    ensures var s := Run(INIT, moves);
      && (s.Depth(t) > 0 && s.Depth(u) > 0 ==> t == u)
      && (s.PcOf(t) == Idle && s.Depth(t) > 0 ==> s.owner == s.inner == Some(t) && s.count == s.Depth(t))
      && (s.PcOf(t) == Acquire ==> s.inner != Some(t) && s.Depth(t) == 0)
      && s.innerDepth <= 1
  {
    RunKeepsValid(INIT, moves);
    assert Consistent(Run(INIT, moves), t) && Consistent(Run(INIT, moves), u);
  }

  /** The unprotected test `owner == self` cannot be changed by any other thread's step. */
  lemma OwnerTestIsStable(s: State, t: Tid, u: Tid, call: Call)
    requires Valid(s) && Enabled(s, u) && u != t
    ensures Step(s, u, call).owner == Some(t) <==> s.owner == Some(t)
    ensures s.owner == Some(t) ==> Step(s, u, call).count == s.count
  {
    assert Consistent(s, t) && Consistent(s, u);
  }

  /** Both tests decide as the depth says: re-entry iff inside, EPERM iff not inside. */
  lemma TestsDecideByDepth(s: State, t: Tid, call: Call)
    requires Valid(s)
    ensures s.PcOf(t) == LockTest ==> (Step(s, t, call).PcOf(t) == LoadUp <==> s.Depth(t) > 0)
    ensures s.PcOf(t) == UnlockTest ==> (Step(s, t, call).PcOf(t) == Idle <==> s.Depth(t) == 0)
    ensures s.PcOf(t) == ZeroTest ==> (Step(s, t, call).PcOf(t) == ClearOwner <==> s.Depth(t) == 1)
  {
    assert Consistent(s, t);
  }

  /** A thread is only ever held up by another thread that is inside and can itself move. */
  lemma BlockedByAMover(s: State, t: Tid)
    requires Valid(s) && !Enabled(s, t)
    ensures s.inner.Some? && s.inner.value != t && Inside(s, s.inner.value) && Enabled(s, s.inner.value)
  {
    assert Consistent(s, t) && Consistent(s, s.inner.value);
  }

  // ---------------------------------------------------------------- the object

  /**
   struct recursive_mutex and the pthread mutex in it. `pcs` is no field of it: it stands for the
   threads' program counters, with the register that a loaded count is in.
   */
  class RecursiveMutexObject {
    var inner: Option<Tid>
    var innerDepth: nat
    var owner: Option<Tid>
    var count: int
    var pcs: map<Tid, Pc>
    ghost var depths: map<Tid, nat>

    ghost function Abs(): (r: State)
      reads this
    {
      State(inner, innerDepth, owner, count, pcs, depths)
    }

    constructor ()
      ensures Abs() == INIT && Valid(Abs())
    {
      inner, innerDepth, owner, count, pcs, depths := None, 0, None, 0, map[], map[];
    }

    function PcOf(t: Tid): (r: Pc)
      reads this
      ensures r == Abs().PcOf(t)
    {
      if t in pcs then pcs[t] else Idle
    }

    method Return(t: Tid, change: int)
      requires Abs().Depth(t) + change >= 0
      modifies this
      ensures Abs() == old(Abs()).Returned(t, old(Abs()).Depth(t) + change)
    {
      depths := depths[t := (if t in depths then depths[t] else 0) + change];
      pcs := pcs[t := Idle];
    }

    /** One access of thread t, as the C statements make it. */
    method Access(t: Tid, call: Call)
      requires Valid(Abs()) && Enabled(Abs(), t)
      modifies this
      ensures Valid(Abs()) && Abs() == Step(old(Abs()), t, call)
    {
      StepKeepsValid(Abs(), t, call);
      match PcOf(t)
      case Idle => pcs := pcs[t := if call == LockCall then LockTest else UnlockTest];
      case LockTest => pcs := pcs[t := if owner == Some(t) then LoadUp else Acquire];
      case UnlockTest => pcs := pcs[t := if owner == Some(t) then LoadDown else Idle];
      case LoadUp => AccessInLock(t, call);
      case StoreUp(_) => AccessInLock(t, call);
      case Acquire => AccessInLock(t, call);
      case SetOwner => AccessInLock(t, call);
      case SetCount => AccessInLock(t, call);
      case _ => AccessInUnlock(t, call);
    }

    method AccessInLock(t: Tid, ghost call: Call)
      requires Enabled(Abs(), t)
      requires PcOf(t) in {LoadUp, Acquire, SetOwner, SetCount} || PcOf(t).StoreUp?
      modifies this
      ensures Abs() == Step(old(Abs()), t, call)
    {
      match PcOf(t)
      case LoadUp => pcs := pcs[t := StoreUp(count)];
      case StoreUp(loaded) => count := loaded + 1; Return(t, 1);
      case Acquire => inner, innerDepth := Some(t), innerDepth + 1; pcs := pcs[t := SetOwner];
      case SetOwner => owner := Some(t); pcs := pcs[t := SetCount];
      case SetCount => count := 1; Return(t, 1);
    }

    method AccessInUnlock(t: Tid, ghost call: Call)
      requires Valid(Abs())
      requires PcOf(t) in {LoadDown, ZeroTest, ClearOwner, Release} || PcOf(t).StoreDown?
      modifies this
      ensures Abs() == Step(old(Abs()), t, call)
    {
      assert Consistent(Abs(), t);
      match PcOf(t)
      case LoadDown => pcs := pcs[t := StoreDown(count)];
      case StoreDown(loaded) => count := loaded - 1; pcs := pcs[t := ZeroTest];
      case ZeroTest =>
        if count == 0 {
          pcs := pcs[t := ClearOwner];
        } else {
          Return(t, -1);
        }
      case ClearOwner => owner := None; pcs := pcs[t := Release];
      case Release =>
        innerDepth := innerDepth - 1;
        inner := if innerDepth == 0 then None else inner;
        Return(t, -1);
    }

    /** A whole recursive_mutex_lock that nobody interrupts. */
    method Lock(t: Tid)
      requires Valid(Abs()) && PcOf(t) == Idle && (inner == None || inner == Some(t))
      modifies this
      ensures Valid(Abs()) && PcOf(t) == Idle && owner == inner == Some(t)
      ensures Abs().Depth(t) == old(Abs().Depth(t)) + 1 == count
      ensures forall u :: u != t ==> Abs().Depth(u) == old(Abs().Depth(u)) && PcOf(u) == old(PcOf(u))
    {
      assert Consistent(Abs(), t);
      Access(t, LockCall);
      Access(t, LockCall);
      FinishLock(t);
    }

    /** The rest of a lock after its owner test. */
    method FinishLock(t: Tid)
      requires Valid(Abs()) && (PcOf(t) == LoadUp || (PcOf(t) == Acquire && inner == None))
      modifies this
      ensures Valid(Abs()) && PcOf(t) == Idle && owner == inner == Some(t)
      ensures Abs().Depth(t) == old(Abs().Depth(t)) + 1 == count
      ensures forall u :: u != t ==> Abs().Depth(u) == old(Abs().Depth(u)) && PcOf(u) == old(PcOf(u))
    {
      assert Consistent(Abs(), t);
      Access(t, LockCall);
      Access(t, LockCall);
      if PcOf(t) != Idle {
        Access(t, LockCall);
      }
      assert Consistent(Abs(), t);
    }

    /** The rest of an unlock that passed its owner test. */
    method FinishUnlock(t: Tid)
      requires Valid(Abs()) && PcOf(t) == LoadDown
      modifies this
      ensures Valid(Abs()) && PcOf(t) == Idle
      ensures Abs().Depth(t) == old(Abs().Depth(t)) - 1 == count
      ensures count == 0 ==> owner == inner == None
      ensures forall u :: u != t ==> Abs().Depth(u) == old(Abs().Depth(u)) && PcOf(u) == old(PcOf(u))
    {
      CountDown(t);
      assert Consistent(Abs(), t);
      Access(t, UnlockCall);
      assert Consistent(Abs(), t);
      if PcOf(t) != Idle {
        GiveUpOwnership(t);
      }
    }

    /** The load and the store of `count--`. */
    method CountDown(t: Tid)
      requires Valid(Abs()) && PcOf(t) == LoadDown
      modifies this
      ensures Valid(Abs()) && PcOf(t) == ZeroTest && Abs().Depth(t) == old(Abs().Depth(t))
      ensures forall u :: u != t ==> Abs().Depth(u) == old(Abs().Depth(u)) && PcOf(u) == old(PcOf(u))
    {
      Access(t, UnlockCall);
      Access(t, UnlockCall);
    }

    /** The end of an unlock that found the count at zero. */
    method GiveUpOwnership(t: Tid)
      requires Valid(Abs()) && PcOf(t) == ClearOwner
      modifies this
      ensures Valid(Abs()) && PcOf(t) == Idle && owner == inner == None && count == old(count)
      ensures Abs().Depth(t) == old(Abs().Depth(t)) - 1 == count == 0
      ensures forall u :: u != t ==> Abs().Depth(u) == old(Abs().Depth(u)) && PcOf(u) == old(PcOf(u))
    {
      assert Consistent(Abs(), t);
      Access(t, UnlockCall);
      Access(t, UnlockCall);
    }

    /** A whole recursive_mutex_unlock that nobody interrupts; false stands for EPERM. */
    method Unlock(t: Tid) returns (ok: bool)
      requires Valid(Abs()) && PcOf(t) == Idle
      modifies this
      ensures Valid(Abs()) && PcOf(t) == Idle
      ensures ok <==> old(Abs().Depth(t)) > 0
      ensures !ok ==> Abs() == old(Abs()).At(t, Idle)
      ensures ok ==> Abs().Depth(t) == old(Abs().Depth(t)) - 1 == count
      ensures ok && count == 0 ==> owner == inner == None
      ensures forall u :: u != t ==> Abs().Depth(u) == old(Abs().Depth(u)) && PcOf(u) == old(PcOf(u))
    {
      assert Consistent(Abs(), t);
      ghost var s := Abs();
      Access(t, UnlockCall);
      Access(t, UnlockCall);
      ok := PcOf(t) != Idle;
      if ok {
        FinishUnlock(t);
      } else {
        assert pcs == s.pcs[t := Idle];
      }
    }
  }
}
