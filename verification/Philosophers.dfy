/** The parity-ordered fork protocol of dining_philosophers.c. */
module Philosophers {
  import opened FiniteSets
  import opened Wrappers

  /** Where a philosopher is between, or inside, the eat and done calls. */
  datatype Phase = Away | WantFirst | WantSecond | Eating | HalfDone

  /** The fork mutexes with their holders, and for each philosopher a phase and the meals begun. */
  datatype Table = Table(phase: seq<Phase>, forks: seq<Option<nat>>, meals: seq<nat>)

  function Init(n: nat): (r: Table)
    ensures n >= 2 ==> Sized(r) && |r.phase| == n
  {
    Table(seq(n, _ => Away), seq(n, _ => None), seq(n, _ => 0))
  }

  /** The fork shared with the next philosopher around the ring. */
  function Right(n: nat, i: nat): (r: nat)
    requires i < n
    ensures r < n
  {
    if i + 1 == n then 0 else i + 1
  }

  /** The index as the C code computes it. */
  lemma RightIsModulo(n: nat, i: nat)
    requires i < n
    ensures (i + 1) % n == Right(n, i)
  {
  }

  function First(n: nat, i: nat): (r: nat)
    requires i < n
    ensures r < n
  {
    if i % 2 == 0 then i else Right(n, i)
  }

  function Second(n: nat, i: nat): (r: nat)
    requires i < n
    ensures r < n
  {
    if i % 2 == 0 then Right(n, i) else i
  }

  predicate Sized(t: Table)
  {
    |t.phase| == |t.forks| == |t.meals| >= 2
  }

  /** The fork whose mutex the philosopher must lock to go on, if any. */
  function Wanted(t: Table, i: nat): (r: Option<nat>)
    requires Sized(t) && i < |t.phase|
    ensures r.Some? ==> r.value < |t.phase|
  {
    match t.phase[i]
    case WantFirst => Some(First(|t.phase|, i))
    case WantSecond => Some(Second(|t.phase|, i))
    case _ => None
  }

  /** pthread_mutex_lock lets the philosopher go on exactly when the mutex is free. */
  predicate Enabled(t: Table, i: nat)
    requires Sized(t)
  {
    i < |t.phase| && (Wanted(t, i).Some? ==> t.forks[Wanted(t, i).value].None?)
  }

  /**
   One step of philosopher i: ask for a meal, lock the first fork, lock the second fork,
   unlock the left fork, unlock the right fork.
   */
  function Step(t: Table, i: nat): (r: Table)
    requires Sized(t) && Enabled(t, i)
    ensures Sized(r) && |r.phase| == |t.phase|
  {
    var n := |t.phase|;
    match t.phase[i]
    case Away => t.(phase := t.phase[i := WantFirst])
    case WantFirst => t.(phase := t.phase[i := WantSecond], forks := t.forks[First(n, i) := Some(i)])
    case WantSecond => t.(phase := t.phase[i := Eating], forks := t.forks[Second(n, i) := Some(i)],
                          meals := t.meals[i := t.meals[i] + 1])
    case Eating => t.(phase := t.phase[i := HalfDone], forks := t.forks[i := None])
    case HalfDone => t.(phase := t.phase[i := Away], forks := t.forks[Right(n, i) := None])
  }

  /** What philosopher i has locked and not yet unlocked, by its place in the program. */
  predicate Holds(t: Table, i: nat, f: nat)
    requires Sized(t) && i < |t.phase|
  {
    var n := |t.phase|;
    match t.phase[i]
    case Away => false
    case WantFirst => false
    case WantSecond => f == First(n, i)
    case Eating => f == i || f == Right(n, i)
    case HalfDone => f == Right(n, i)
  }

  /** The mutexes and the program counters agree; so a fork never has two holders. */
  ghost predicate Valid(t: Table)
  {
    && Sized(t)
    && (forall f: nat :: f < |t.forks| && t.forks[f].Some? ==>
          t.forks[f].value < |t.phase| && Holds(t, t.forks[f].value, f))
    && (forall i: nat, f: nat :: i < |t.phase| && f < |t.forks| && Holds(t, i, f) ==> t.forks[f] == Some(i))
  }

  /** Between its two locks an even philosopher has the fork of its own number, an odd one the next. */
  lemma FirstForkByParity(t: Table, i: nat)
    requires Valid(t) && i < |t.phase| && t.phase[i] == WantSecond
    ensures var own := i; var next := (i + 1) % |t.phase|;
      && (i % 2 == 0 ==> t.forks[own] == Some(i) && t.forks[next] != Some(i))
      && (i % 2 == 1 ==> t.forks[next] == Some(i) && t.forks[own] != Some(i))
  {
    RightIsModulo(|t.phase|, i);
    assert Holds(t, i, First(|t.phase|, i));
  }

  lemma InitValid(n: nat)
    requires n >= 2
    ensures Valid(Init(n))
  {
  }

  lemma LockKeepsValid(t: Table, i: nat)
    requires Valid(t) && Enabled(t, i) && Wanted(t, i).Some?
    ensures Valid(Step(t, i))
  {
    var t', n := Step(t, i), |t.phase|;
    forall j: nat, f: nat | j < n && f < n && Holds(t', j, f)
      ensures t'.forks[f] == Some(j)
    {
      assert j != i ==> Holds(t, j, f);
      assert j == i && f != Wanted(t, i).value ==> Holds(t, j, f);
    }
  }

  lemma UnlockKeepsValid(t: Table, i: nat)
    requires Valid(t) && i < |t.phase| && Wanted(t, i).None?
    ensures Valid(Step(t, i))
  {
    var t', n := Step(t, i), |t.phase|;
    assert t.phase[i] == Eating ==> Holds(t, i, i);
    assert t.phase[i] == HalfDone ==> Holds(t, i, Right(n, i));
    forall j: nat, f: nat | j < n && f < n && Holds(t', j, f)
      ensures t'.forks[f] == Some(j)
    {
      assert Holds(t, j, f);
    }
  }

  lemma StepKeepsValid(t: Table, i: nat)
    requires Valid(t) && Enabled(t, i)
    ensures Valid(Step(t, i))
  {
    if Wanted(t, i).Some? {
      LockKeepsValid(t, i);
    } else {
      UnlockKeepsValid(t, i);
    }
  }

  /** A schedule names the philosopher that moves at each step. */
  ghost predicate Possible(t: Table, schedule: seq<nat>)
    requires Sized(t)
    decreases |schedule|
  {
    schedule == [] || (Enabled(t, schedule[0]) && Possible(Step(t, schedule[0]), schedule[1..]))
  }

  ghost function Run(t: Table, schedule: seq<nat>): (r: Table)
    requires Sized(t) && Possible(t, schedule)
    ensures Sized(r) && |r.phase| == |t.phase|
    decreases |schedule|
  {
    if schedule == [] then t else Run(Step(t, schedule[0]), schedule[1..])
  }

  lemma {:induction false} RunKeepsValid(t: Table, schedule: seq<nat>)
    requires Valid(t) && Possible(t, schedule)
    ensures Valid(Run(t, schedule))
    decreases |schedule|
  {
    if schedule != [] {
      StepKeepsValid(t, schedule[0]);
      RunKeepsValid(Step(t, schedule[0]), schedule[1..]);
    }
  }

  // ---------------------------------------------------------------- exclusion

  /** Philosophers next to each other on the ring never eat together. */
  lemma NeighboursExclude(t: Table, i: nat)
    requires Valid(t) && i < |t.phase|
    ensures i != Right(|t.phase|, i)
    ensures !(t.phase[i] == Eating && t.phase[Right(|t.phase|, i)] == Eating)
  {
    var r := Right(|t.phase|, i);
    assert t.phase[i] == Eating ==> Holds(t, i, r);
    assert t.phase[r] == Eating ==> Holds(t, r, r);
  }

  ghost function Eaters(t: Table): (r: set<nat>)
  {
    set i: nat | i < |t.phase| && t.phase[i] == Eating
  }

  /** The right forks of a set of philosophers are as many as the philosophers. */
  lemma {:induction false} RightForksSize(n: nat, s: set<nat>) returns (r: set<nat>)
    requires s <= Below(n)
    ensures r <= Below(n) && |r| == |s|
    ensures forall f: nat :: f in r <==> exists i: nat :: i in s && f == Right(n, i)
  {
    if s == {} {
      r := {};
    } else {
      var i :| i in s;
      r := RightForksSize(n, s - {i});
      assert Right(n, i) !in r;
      r := r + {Right(n, i)};
    }
  }

  /** Each eater has two forks to itself, so at most half of the philosophers eat. */
  lemma AtMostHalfEat(t: Table)
    requires Valid(t)
    ensures 2 * |Eaters(t)| <= |t.phase|
    ensures forall i: nat :: i in Eaters(t) ==>
      i != Right(|t.phase|, i) && t.forks[i] == t.forks[Right(|t.phase|, i)] == Some(i)
  {
    var n := |t.phase|;
    var e := Eaters(t);
    forall i: nat | i in e
      ensures i != Right(n, i) && t.forks[i] == t.forks[Right(n, i)] == Some(i)
    {
      assert Holds(t, i, i) && Holds(t, i, Right(n, i));
    }
    var r := RightForksSize(n, e);
    forall f: nat | f in r
      ensures f !in e
    {
      var i: nat :| i in e && f == Right(n, i);
      NeighboursExclude(t, i);
    }
    DisjointUnionSize(e, r);
    BelowSize(n);
    SubsetSize(e + r, Below(n));
  }

  // ---------------------------------------------------------------- waiting

  /** Philosopher i is blocked on a fork that j holds. */
  ghost predicate WaitsFor(t: Table, i: nat, j: nat)
    requires Sized(t)
  {
    i < |t.phase| && Wanted(t, i).Some? && t.forks[Wanted(t, i).value] == Some(j)
  }

  /** How many hops a wait-for chain from philosopher i can still make. */
  ghost function Rank(t: Table, i: nat): (r: nat)
    requires Sized(t) && i < |t.phase|
    ensures r <= 3
  {
    match t.phase[i]
    case WantFirst => 3
    case WantSecond => if i % 2 == 0 && i + 1 == |t.phase| then 2 else 1
    case _ => 0
  }

  /**
   Every hop of the wait-for relation lowers the rank. For odd n the philosophers n-1 and 0 are
   both even, and n-1 may hold its first fork and wait for the first fork of 0: that is rank 2.
   */
  lemma WaitingLowersRank(t: Table, i: nat, j: nat)
    requires Valid(t) && WaitsFor(t, i, j)
    ensures j < |t.phase| && Rank(t, j) < Rank(t, i)
  {
    var f := Wanted(t, i).value;
    assert Holds(t, j, f);
    if t.phase[j] == WantSecond {
      assert f == First(|t.phase|, j);
    }
  }

  ghost predicate WaitPath(t: Table, p: seq<nat>)
    requires Sized(t)
  {
    && p != []
    && (forall k :: 0 <= k < |p| ==> p[k] < |t.phase|)
    && (forall k :: 0 <= k < |p| - 1 ==> WaitsFor(t, p[k], p[k + 1]))
  }

  /** The wait-for relation has no cycle, and no chain of more than three hops. */
  lemma {:induction false} WaitPathsAreShort(t: Table, p: seq<nat>)
    requires Valid(t) && WaitPath(t, p)
    ensures |p| <= 4
    ensures Rank(t, p[|p| - 1]) + |p| - 1 <= Rank(t, p[0])
    ensures |p| > 1 ==> p[0] != p[|p| - 1]
    decreases |p|
  {
    if |p| > 1 {
      WaitingLowersRank(t, p[0], p[1]);
      var q := p[1..];
      forall k | 0 <= k < |q| - 1
        ensures WaitsFor(t, q[k], q[k + 1])
      {
        assert WaitsFor(t, p[k + 1], p[k + 2]);
      }
      WaitPathsAreShort(t, q);
    }
  }

  /**
   From any philosopher the chain of holders reaches, in at most three hops, one that can move;
   if there is any hop at all, that one holds a fork and is inside eat or done.
   */
  lemma {:induction false} ChainReachesAMover(t: Table, i: nat) returns (p: seq<nat>)
    requires Valid(t) && i < |t.phase|
    ensures WaitPath(t, p) && |p| <= 4 && p[0] == i
    ensures Enabled(t, p[|p| - 1])
    ensures |p| > 1 ==> t.phase[p[|p| - 1]] in {WantSecond, Eating, HalfDone}
    decreases Rank(t, i)
  {
    if Enabled(t, i) {
      p := [i];
    } else {
      var f := Wanted(t, i).value;
      var j := t.forks[f].value;
      WaitingLowersRank(t, i, j);
      assert Holds(t, j, f);
      var q := ChainReachesAMover(t, j);
      p := [i] + q;
      WaitPathsAreShort(t, p);
    }
  }

  lemma RunTwice(t: Table, i: nat, j: nat, rest: seq<nat>)
    requires Sized(t) && Enabled(t, i) && Enabled(Step(t, i), j) && Possible(Step(Step(t, i), j), rest)
    ensures Possible(t, [i, j] + rest) && Run(t, [i, j] + rest) == Run(Step(Step(t, i), j), rest)
  {
    assert ([i, j] + rest)[1..] == [j] + rest && ([j] + rest)[1..] == rest;
  }

  /**
   In every reachable state: a fork is held by whom the program says and nobody else, neighbours
   do not both eat, at most half eat, and from philosopher i at most three hops lead to a mover.
   */
  lemma ReachableTable(n: nat, schedule: seq<nat>, i: nat) returns (p: seq<nat>)
    requires n >= 2 && i < n && Possible(Init(n), schedule)
    ensures var t := Run(Init(n), schedule);
      && (forall f: nat :: f < n ==> (Holds(t, i, f) <==> t.forks[f] == Some(i)))
      && !(t.phase[i] == Eating && t.phase[Right(n, i)] == Eating)
      && 2 * |Eaters(t)| <= n
      && WaitPath(t, p) && p[0] == i && |p| <= 4 && Enabled(t, p[|p| - 1])
  {
    InitValid(n);
    RunKeepsValid(Init(n), schedule);
    var t := Run(Init(n), schedule);
    NeighboursExclude(t, i);
    AtMostHalfEat(t);
    p := ChainReachesAMover(t, i);
  }

  /** Five philosophers: 1 eats with forks 2 and 1, 0 and 4 have their first forks, 3 asks for fork 4. */
  const T0 := Table([Away, Away, Away, Away, Away],
                    [None, None, None, None, None],
                    [0, 0, 0, 0, 0])
  const T2 := Table([WantFirst, WantFirst, Away, Away, Away],
                    [None, None, None, None, None],
                    [0, 0, 0, 0, 0])
  const T4 := Table([WantFirst, Eating, Away, Away, Away],
                    [None, Some(1), Some(1), None, None],
                    [0, 1, 0, 0, 0])
  const T6 := Table([WantSecond, Eating, Away, Away, WantFirst],
                    [Some(0), Some(1), Some(1), None, None],
                    [0, 1, 0, 0, 0])
  const T8 := Table([WantSecond, Eating, Away, WantFirst, WantSecond],
                    [Some(0), Some(1), Some(1), None, Some(4)],
                    [0, 1, 0, 0, 0])

  lemma FirstFourSteps()
    ensures T0 == Init(5) && Enabled(Step(T0, 0), 1) && Step(Step(T0, 0), 1) == T2
    ensures Enabled(Step(T2, 1), 1) && Step(Step(T2, 1), 1) == T4
  {
  }

  lemma LastFourSteps()
    ensures Enabled(T4, 0) && Enabled(Step(T4, 0), 4) && Step(Step(T4, 0), 4) == T6
    ensures Enabled(T6, 4) && Enabled(Step(T6, 4), 3) && Step(Step(T6, 4), 3) == T8
  {
  }

  lemma ThreeHops()
    ensures WaitPath(T8, [3, 4, 0, 1])
  {
  }

  /** The bound of three hops is met, from an empty table. */
  lemma ThreeHopsHappen() returns (schedule: seq<nat>)
    ensures Possible(Init(5), schedule) && WaitPath(Run(Init(5), schedule), [3, 4, 0, 1])
  {
    hide Step;
    FirstFourSteps();
    LastFourSteps();
    ThreeHops();
    var tail := [4, 3] + [];
    RunTwice(T6, 4, 3, []);
    RunTwice(T4, 0, 4, tail);
    RunTwice(T2, 1, 1, [0, 4] + tail);
    RunTwice(T0, 0, 1, [1, 1] + ([0, 4] + tail));
    schedule := [0, 1] + ([1, 1] + ([0, 4] + tail));
  }

  // ---------------------------------------------------------------- the object

  /**
   struct dining_philosophers: an array of fork mutexes, each free or locked by a philosopher.
   `phase` is where each caller stands between the lock and unlock calls.
   */
  class ForkTable {
    const forks: array<Option<nat>>
    var phase: seq<Phase>
    ghost var meals: seq<nat>

    ghost function Abs(): (r: Table)
      reads this, forks
    {
      Table(phase, forks[..], meals)
    }

    constructor (n: nat)
      requires n >= 2
      ensures Abs() == Init(n) && fresh(forks)
    {
      forks := new Option<nat>[n](_ => None);
      phase := seq(n, _ => Away);
      meals := Init(n).meals;
    }

    method Think(id: nat)
      requires Valid(Abs()) && id < forks.Length && phase[id] == Away
      modifies this
      ensures Abs() == Step(old(Abs()), id)
    {
      phase := phase[id := WantFirst];
    }

    /** The first lock of dining_philosophers_eat, once the mutex is free. */
    method LockFirst(id: nat)
      requires Valid(Abs()) && Enabled(Abs(), id) && phase[id] == WantFirst
      modifies this, forks
      ensures Abs() == Step(old(Abs()), id)
    {
      RightIsModulo(forks.Length, id);
      if id % 2 == 0 {
        forks[id] := Some(id);
      } else {
        forks[(id + 1) % forks.Length] := Some(id);
      }
      phase := phase[id := WantSecond];
    }

    /** The second lock of dining_philosophers_eat, once the mutex is free. */
    method LockSecond(id: nat)
      requires Valid(Abs()) && Enabled(Abs(), id) && phase[id] == WantSecond
      modifies this, forks
      ensures Abs() == Step(old(Abs()), id)
    {
      RightIsModulo(forks.Length, id);
      if id % 2 == 0 {
        forks[(id + 1) % forks.Length] := Some(id);
      } else {
        forks[id] := Some(id);
      }
      phase := phase[id := Eating];
      meals := meals[id := meals[id] + 1];
    }

    /** The first unlock of dining_philosophers_done. */
    method UnlockLeft(id: nat)
      requires Valid(Abs()) && id < forks.Length && phase[id] == Eating
      modifies this, forks
      ensures Abs() == Step(old(Abs()), id)
    {
      forks[id] := None;
      phase := phase[id := HalfDone];
    }

    /** The second unlock of dining_philosophers_done. */
    method UnlockRight(id: nat)
      requires Valid(Abs()) && id < forks.Length && phase[id] == HalfDone
      modifies this, forks
      ensures Abs() == Step(old(Abs()), id)
    {
      RightIsModulo(forks.Length, id);
      forks[(id + 1) % forks.Length] := None;
      phase := phase[id := Away];
    }
  }
}
