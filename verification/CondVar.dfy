/**
 Condition variables as pthread_cond_wait, pthread_cond_timedwait, pthread_cond_signal and
 pthread_cond_broadcast define them (System Interfaces volume of IEEE Std 1003.1-2017).
 A waiter is blocked until it is woken or its deadline passes. A `woken` or `expired` waiter
 still has to get the mutex back before it runs; other threads may run in between. In that time
 an expired waiter may consume a signal, which then wakes nobody; how many it consumes is left open.
 */
module CondVar {
  import opened FiniteSets

  type Tid = nat

  /** The threads inside a wait call on the variable, and which of them are no longer blocked. */
  datatype Cond = Cond(waiters: set<Tid>, woken: set<Tid>, expired: set<Tid>)
  {
    predicate Valid()
    {
      woken <= waiters && expired <= waiters && woken !! expired
    }

    function Blocked(): (r: set<Tid>)
    {
      waiters - woken - expired
    }

    /** The threads a signal may unblock: at least one if any is blocked, unless an expired waiter consumes it. */
    predicate SignalMayWake(wakes: set<Tid>)
    {
      wakes <= Blocked() && (wakes == {} ==> Blocked() == {} || expired != {})
    }

    /** A signal that wakes `wakes` is lost on the blocked threads. */
    predicate SignalConsumed(wakes: set<Tid>)
    {
      wakes == {} && Blocked() != {}
    }

    function Wait(t: Tid): (r: Cond)
      ensures Valid() && t !in waiters ==> r.Valid() && r.Blocked() == Blocked() + {t}
    {
      this.(waiters := waiters + {t})
    }

    /** A signal, or a spurious wakeup, unblocks `wakes`. */
    function Wake(wakes: set<Tid>): (r: Cond)
      ensures Valid() && wakes <= Blocked() ==> r.Valid() && r.Blocked() == Blocked() - wakes
    {
      this.(woken := woken + wakes)
    }

    /** As many threads are woken as there is for them to take, or nobody is blocked. */
    ghost predicate Enough(n: int)
    {
      Blocked() != {} ==> n <= |woken|
    }

    /** One thing more to take: its signal is lost iff it is consumed when all the woken threads have theirs. */
    lemma SignalKeepsEnough(wakes: set<Tid>, n: int)
      requires Valid() && SignalMayWake(wakes) && Enough(n)
      ensures Wake(wakes).Enough(n + 1) <==> !(SignalConsumed(wakes) && |woken| == n)
    {
      DisjointUnionSize(woken, wakes);
      if wakes == {} {
        assert woken + wakes == woken;
      }
    }

    /** A woken thread may go when it has taken one thing. */
    lemma ResumeKeepsEnough(t: Tid, n: int)
      requires Valid() && t in woken && Enough(n)
      ensures Resume(t).Enough(n - 1)
    {
      assert Resume(t).Blocked() == Blocked();
    }

    /** Spurious wakeups and timeouts lose nothing by themselves. */
    lemma QuietMovesKeepEnough(t: Tid, n: int)
      requires Valid() && Enough(n)
      ensures t in Blocked() ==> Wake({t}).Enough(n) && Expire(t).Enough(n)
      ensures t in expired ==> Resume(t).Enough(n)
    {
      SubsetSize(woken, woken + {t});
      assert t in expired ==> Resume(t).woken == woken;
    }

    function Broadcast(): (r: Cond)
      ensures Valid() ==> r.Valid() && r.Blocked() == {}
    {
      Wake(Blocked())
    }

    /** The deadline of a blocked thread passes. */
    function Expire(t: Tid): (r: Cond)
      ensures Valid() && t in Blocked() ==> r.Valid() && r.Blocked() == Blocked() - {t}
    {
      this.(expired := expired + {t})
    }

    /** A woken or expired thread has the mutex again and leaves the wait call. */
    function Resume(t: Tid): (r: Cond)
      ensures Valid() && t in waiters && t !in Blocked() ==> r.Valid() && r.Blocked() == Blocked()
    {
      Cond(waiters - {t}, woken - {t}, expired - {t})
    }
  }

  const NOBODY := Cond({}, {}, {})
}
