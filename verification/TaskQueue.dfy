/** The linked task queue of thread_pool.c. */
module TaskQueue {
  import opened Wrappers

  /** The function pointer and argument of a task. */
  datatype Work = Work(func: nat, arg: int)

  class Task {
    const work: Work
    var next: Task?

    constructor (work: Work)
      ensures this.work == work && next == null
    {
      this.work := work;
      next := null;
    }
  }

  /** What the tasks of a list will run, in order. */
  ghost function Works(tasks: seq<Task>): (r: seq<Work>)
    ensures |r| == |tasks|
  {
    seq(|tasks|, i requires 0 <= i < |tasks| => tasks[i].work)
  }

  datatype Outcome = Ok | Invalid | NoMemory

  /** The queue fields of struct thread_pool. `spine` is the list from head to tail. */
  class Queue {
    var head: Task?
    var tail: Task?
    ghost var spine: seq<Task>
    ghost var enqueued: seq<Work>
    ghost var taken: seq<Work>

    /**
     The links spell out the spine, which has no task twice, and tail is its last task. What
     workers took, followed by what is linked, is what was enqueued, in order.
     */
    ghost predicate Valid()
      reads this, spine
    {
      && (head == null <==> spine == []) && (tail == null <==> spine == [])
      && (spine != [] ==> head == spine[0] && tail == spine[|spine| - 1] && tail.next == null)
      && (forall i :: 0 <= i < |spine| - 1 ==> spine[i].next == spine[i + 1])
      && (forall i, j :: 0 <= i < j < |spine| ==> spine[i] != spine[j])
      && enqueued == taken + Works(spine)
    }

    constructor ()
      ensures Valid() && enqueued == taken == [] && spine == []
    {
      head, tail, spine, enqueued, taken := null, null, [], [], [];
    }

    /** thread_pool_enqueue. */
    method Enqueue(func: Option<nat>, arg: int, exhausted: bool) returns (o: Outcome)
      requires Valid()
      modifies this, spine
      ensures Valid() && taken == old(taken)
      ensures o == if func.None? then Invalid else if exhausted then NoMemory else Ok
      ensures o == Ok ==> enqueued == old(enqueued) + [Work(func.value, arg)]
      ensures o == Ok ==> |spine| == |old(spine)| + 1 && spine[..|old(spine)|] == old(spine) && fresh(tail)
      ensures o != Ok ==> enqueued == old(enqueued) && spine == old(spine)
    {
      if func.None? {
        return Invalid;
      }
      if exhausted {
        return NoMemory;
      }
      var task := new Task(Work(func.value, arg));
      if head == null {
        head := task;
        tail := task;
      } else {
        tail.next := task;
        tail := task;
      }
      assert Works(spine + [task]) == Works(spine) + [task.work];
      assert taken + (Works(spine) + [task.work]) == taken + Works(spine) + [task.work];
      spine, enqueued := spine + [task], enqueued + [task.work];
      return Ok;
    }

    /** What a worker does under the mutex: unlink the first task, if there is one. */
    method Take() returns (task: Task?)
      requires Valid()
      modifies this
      ensures Valid() && enqueued == old(enqueued)
      ensures task == null <==> old(spine) == []
      ensures task == null ==> taken == old(taken) && spine == old(spine)
      ensures task != null ==>
        task == old(spine[0]) && spine == old(spine[1..]) && taken == old(taken) + [task.work] && task !in spine
    {
      task := head;
      if task != null {
        assert spine[1..] != [] ==> task.next == spine[1];
        head := task.next;
        if head == null {
          tail := null;
        }
        assert Works(spine) == [task.work] + Works(spine[1..]);
        assert taken + ([task.work] + Works(spine[1..])) == taken + [task.work] + Works(spine[1..]);
        spine, taken := spine[1..], taken + [task.work];
      }
    }

    /**
     The loop of thread_pool_destroy: it ends, frees each remaining task once, in order, and never
     looks at a task it has freed.
     */
    method Drain() returns (freed: seq<Task>)
      requires Valid()
      ensures freed == spine
      ensures forall i, j :: 0 <= i < j < |freed| ==> freed[i] != freed[j]
    {
      var task := head;
      freed := [];
      while task != null
        invariant |freed| <= |spine| && freed == spine[..|freed|]
        invariant if |freed| == |spine| then task == null else task == spine[|freed|]
        decreases |spine| - |freed|
      {
        assert task !in freed;
        var next := task.next;
        freed := freed + [task];
        task := next;
      }
    }

    /** The k-th task taken is the k-th enqueued, and a non-empty queue hands out the oldest task left. */
    lemma TakenInOrder()
      requires Valid()
      ensures |taken| + |spine| == |enqueued|
      ensures forall k :: 0 <= k < |taken| ==> taken[k] == enqueued[k]
      ensures spine != [] ==> head.work == enqueued[|taken|]
    {
      assert forall k :: 0 <= k < |taken| ==> (taken + Works(spine))[k] == taken[k];
    }
  }
}
