/** The ownership table and the scan of deadlock_detector.c. */
module Detector {
  import opened CondVar

  /** struct lock_info. */
  datatype Slot = Slot(owner: Tid, locked: bool)

  const FREE := Slot(0, false)

  datatype Outcome = Ok | Invalid | TimedOut | Deadlock | NotPermitted

  datatype Result = Result(locks: seq<Slot>, outcome: Outcome)

  predicate Holds(locks: seq<Slot>, t: Tid, i: int)
  {
    0 <= i < |locks| && locks[i].locked && locks[i].owner == t
  }

  predicate OtherHolds(locks: seq<Slot>, t: Tid, i: int)
  {
    0 <= i < |locks| && locks[i].locked && locks[i].owner != t
  }

  /** The caller holds a slot above one that somebody else holds. */
  ghost predicate OutOfOrder(locks: seq<Slot>, t: Tid)
  {
    exists i, j :: i < j && OtherHolds(locks, t, i) && Holds(locks, t, j)
  }

  /** deadlock_detector_lock; `busy` says that the table's own mutex timed out. */
  ghost function Lock(locks: seq<Slot>, t: Tid, id: int, busy: bool): (r: Result)
  {
    if id < 0 || id >= |locks| then Result(locks, Invalid)
    else if busy then Result(locks, TimedOut)
    else if OutOfOrder(locks, t) then Result(locks, Deadlock)
    else Result(locks[id := Slot(t, true)], Ok)
  }

  /** deadlock_detector_unlock. */
  function Unlock(locks: seq<Slot>, t: Tid, id: int): (r: Result)
  {
    if id < 0 || id >= |locks| then Result(locks, Invalid)
    else if !locks[id].locked || locks[id].owner != t then Result(locks, NotPermitted)
    else Result(locks[id := FREE], Ok)
  }

  /** When each call succeeds, and which code it returns otherwise. */
  lemma OutcomeIff(locks: seq<Slot>, t: Tid, id: int, busy: bool)
    ensures var inside := 0 <= id < |locks|;
      && (Unlock(locks, t, id).outcome == Invalid <==> !inside)
      && (Lock(locks, t, id, busy).outcome == Invalid <==> !inside)
      && (Unlock(locks, t, id).outcome == Ok <==> Holds(locks, t, id))
      && (Unlock(locks, t, id).outcome == NotPermitted <==> inside && !Holds(locks, t, id))
      && (Lock(locks, t, id, busy).outcome == Ok <==> inside && !busy && !OutOfOrder(locks, t))
      && (Lock(locks, t, id, busy).outcome == TimedOut <==> inside && busy)
      && (Lock(locks, t, id, busy).outcome == Deadlock <==> inside && !busy && OutOfOrder(locks, t))
  {
  }

  /** A call that succeeds gives or takes one hold of the caller's, and only that; one that fails changes nothing. */
  lemma OnlyOwnSlotChanges(locks: seq<Slot>, c: Call)
    ensures var r := Make(locks, c);
      && |r.locks| == |locks|
      && (r.outcome != Ok ==> r.locks == locks)
      && (r.outcome == Ok ==>
            && (forall i :: 0 <= i < |locks| && i != c.id ==> r.locks[i] == locks[i])
            && (forall u :: Holds(r.locks, u, c.id) <==> c.LockCall? && u == c.t))
  {
  }

  /** Of two threads that hold slots, at most one passes the scan in any one state of the table. */
  lemma OnlyOneHolderPasses(locks: seq<Slot>, t: Tid, u: Tid, i: int, j: int)
    requires t != u && Holds(locks, t, i) && Holds(locks, u, j)
    ensures OutOfOrder(locks, t) || OutOfOrder(locks, u)
  {
    if i < j {
      assert OtherHolds(locks, u, i);
    } else {
      assert OtherHolds(locks, t, j);
    }
  }

  /** Whoever passes holds only slots below all slots of others, so a thread with no slot passes. */
  lemma PassesIff(locks: seq<Slot>, t: Tid, id: int)
    requires 0 <= id < |locks|
    ensures Lock(locks, t, id, false).outcome == Ok <==>
      forall i, j :: OtherHolds(locks, t, i) && Holds(locks, t, j) ==> j < i
    ensures Lock(locks, t, id, false).outcome == Ok || Lock(locks, t, id, false) == Result(locks, Deadlock)
  {
    if forall i, j :: OtherHolds(locks, t, i) && Holds(locks, t, j) ==> j < i {
    } else {
      var i, j :| OtherHolds(locks, t, i) && Holds(locks, t, j) && !(j < i);
      assert i != j;
    }
  }

  /** An unlock undoes the lock of a free slot, and an accepted lock takes the slot from its holder. */
  lemma LockThenUnlock(locks: seq<Slot>, t: Tid, u: Tid, id: int)
    requires Lock(locks, t, id, false).outcome == Ok && t != u
    ensures var after := Lock(locks, t, id, false).locks;
      && Unlock(after, t, id) == Result(locks[id := FREE], Ok)
      && (Holds(locks, u, id) ==> Unlock(locks, u, id).outcome == Ok)
      && Unlock(after, u, id) == Result(after, NotPermitted)
  {
    assert locks[id := Slot(t, true)][id := FREE] == locks[id := FREE];
  }

  datatype Call = LockCall(t: Tid, id: int, busy: bool) | UnlockCall(t: Tid, id: int)

  ghost function Make(locks: seq<Slot>, c: Call): (r: Result)
  {
    match c
    case LockCall(t, id, busy) => Lock(locks, t, id, busy)
    case UnlockCall(t, id) => Unlock(locks, t, id)
  }

  /** The table after a run of calls by any threads. */
  ghost function Run(locks: seq<Slot>, calls: seq<Call>): (r: seq<Slot>)
    decreases |calls|
  {
    if calls == [] then locks
    else Make(Run(locks, calls[..|calls| - 1]), calls[|calls| - 1]).locks
  }

  /** Call k of the run is for slot i and is accepted. */
  ghost predicate Touches(locks: seq<Slot>, calls: seq<Call>, i: int, k: int)
    requires 0 <= k < |calls|
  {
    calls[k].id == i && Make(Run(locks, calls[..k]), calls[k]).outcome == Ok
  }

  /** Call k is an accepted lock of slot i by u; -1 stands for a lock before the run. */
  ghost predicate Takes(locks: seq<Slot>, calls: seq<Call>, u: Tid, i: int, k: int)
    requires -1 <= k < |calls|
  {
    if k == -1 then Holds(locks, u, i)
    else calls[k].LockCall? && calls[k].t == u && Touches(locks, calls, i, k)
  }

  ghost predicate TakesLast(locks: seq<Slot>, calls: seq<Call>, u: Tid, i: int, k: int)
  {
    -1 <= k < |calls| && Takes(locks, calls, u, i, k) &&
    forall m :: k < m < |calls| ==> !Touches(locks, calls, i, m)
  }

  lemma TakesLastExtends(locks: seq<Slot>, calls: seq<Call>, u: Tid, i: int, k: int)
    requires calls != [] && k < |calls| - 1
    ensures TakesLast(locks, calls, u, i, k) <==>
      TakesLast(locks, calls[..|calls| - 1], u, i, k) && !Touches(locks, calls, i, |calls| - 1)
  {
    var c := calls[..|calls| - 1];
    forall m | 0 <= m < |c|
      ensures Touches(locks, c, i, m) == Touches(locks, calls, i, m)
    {
      assert c[..m] == calls[..m];
    }
  }

  /** The last call gives u the slot, takes it or leaves it. */
  lemma LastCallDecides(locks: seq<Slot>, calls: seq<Call>, u: Tid, i: int)
    requires calls != []
    ensures var last := |calls| - 1;
      && (Touches(locks, calls, i, last) ==>
            (Holds(Run(locks, calls), u, i) <==> TakesLast(locks, calls, u, i, last)))
      && (!Touches(locks, calls, i, last) ==>
            && !TakesLast(locks, calls, u, i, last)
            && (Holds(Run(locks, calls), u, i) <==> Holds(Run(locks, calls[..last]), u, i)))
  {
  }

  /**
   What the table remembers after any run of calls: u is known to hold a slot if and only if the
   last accepted call for that slot is a lock by u. So a later lock of it by another thread makes
   the table forget u, although u has not unlocked.
   */
  lemma {:induction false} HoldSurvivesIff(locks: seq<Slot>, calls: seq<Call>, u: Tid, i: int)
    ensures Holds(Run(locks, calls), u, i) <==> exists k :: TakesLast(locks, calls, u, i, k)
    decreases |calls|
  {
    if calls == [] {
      assert TakesLast(locks, calls, u, i, -1) == Holds(locks, u, i);
    } else {
      var last := |calls| - 1;
      HoldSurvivesIff(locks, calls[..last], u, i);
      forall k | k < last
        ensures TakesLast(locks, calls, u, i, k) <==>
          TakesLast(locks, calls[..last], u, i, k) && !Touches(locks, calls, i, last)
      {
        TakesLastExtends(locks, calls, u, i, k);
      }
      LastCallDecides(locks, calls, u, i);
    }
  }

  /** Apart from slot id, u holds b, which lies above a, and a is id or a slot of another thread. */
  ghost predicate Crosses(locks: seq<Slot>, u: Tid, id: int, a: int, b: int)
  {
    a < b && b != id && Holds(locks, u, b) && (a == id || OtherHolds(locks, u, a))
  }

  /**
   Whatever u and others hold, after t is let through with slot `id` the next lock of u is stopped
   if and only if u holds, apart from `id`, a slot above `id` or above a slot of another thread.
   */
  lemma CrossedOrderCaughtIff(locks: seq<Slot>, t: Tid, u: Tid, id: int)
    requires t != u && Lock(locks, t, id, false).outcome == Ok
    ensures OutOfOrder(Lock(locks, t, id, false).locks, u) <==> exists a, b :: Crosses(locks, u, id, a, b)
  {
    var after := locks[id := Slot(t, true)];
    forall a, b
      ensures a < b && OtherHolds(after, u, a) && Holds(after, u, b) <==> Crosses(locks, u, id, a, b)
    {
    }
  }

  /**
   Locking a slot that is held overwrites its owner, so the classic crossed order goes undetected:
   thread 1 locks 0, thread 2 locks 1, thread 1 locks 1, thread 2 locks 0, and every call passes.
   */
  lemma CrossedOrderPasses()
    ensures var l1 := Lock([FREE, FREE], 1, 0, false); var l2 := Lock(l1.locks, 2, 1, false);
      var l3 := Lock(l2.locks, 1, 1, false); var l4 := Lock(l3.locks, 2, 0, false);
      l1.outcome == l2.outcome == l3.outcome == l4.outcome == Ok
  {
  }

  /** struct deadlock_detector. */
  class DetectorObject {
    const locks: array<Slot>

    constructor (n: nat)
      ensures fresh(locks) && locks[..] == seq(n, _ => FREE)
    {
      locks := new Slot[n](_ => FREE);
    }

    /** The nested scan: true exactly if the caller is out of order. */
    method Scan(current: Tid) returns (found: bool)
      ensures found <==> OutOfOrder(locks[..], current)
    {
      for i := 0 to locks.Length
        invariant forall a, b :: 0 <= a < i && a < b && OtherHolds(locks[..], current, a) ==>
          !Holds(locks[..], current, b)
      {
        if locks[i].locked && locks[i].owner != current {
          for j := 0 to locks.Length
            invariant forall b :: i < b < j ==> !Holds(locks[..], current, b)
          {
            if locks[j].locked && locks[j].owner == current && j > i {
              assert OtherHolds(locks[..], current, i) && Holds(locks[..], current, j);
              return true;
            }
          }
        }
      }
      return false;
    }

    method LockSlot(id: int, current: Tid, busy: bool) returns (o: Outcome)
      modifies locks
      ensures Result(locks[..], o) == Lock(old(locks[..]), current, id, busy)
    {
      if id < 0 || id >= locks.Length {
        return Invalid;
      }
      if busy {
        return TimedOut;
      }
      var found := Scan(current);
      if found {
        return Deadlock;
      }
      locks[id] := Slot(current, true);
      return Ok;
    }

    method UnlockSlot(id: int, current: Tid) returns (o: Outcome)
      modifies locks
      ensures Result(locks[..], o) == Unlock(old(locks[..]), current, id)
    {
      if id < 0 || id >= locks.Length {
        return Invalid;
      }
      if !locks[id].locked || locks[id].owner != current {
        return NotPermitted;
      }
      locks[id] := FREE;
      return Ok;
    }
  }
}
