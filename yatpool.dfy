/**
 * The thread-pool engine of YATPool as a sequential model: the bounded task
 * queue (an array shifted in place), task construction, and the pool's
 * bookkeeping (result slots, completion counter, done flag), each locked
 * section of the C code taken as one atomic step.
 */
module YatPool {

  /** A nullable pointer: None stands for NULL. */
  datatype Option<T> = None | Some(value: T)

  /** Capacity of every pool's task queue (MAX_QUEUE_SIZE). */
  const MAX_QUEUE_SIZE: nat := 100

  /*************************************************************************/
  /* Task queue                                                            */
  /*************************************************************************/

  /** One more slot of the left shift in taskqueue_pop: slot i takes slot i + 1's value. */
  lemma ShiftStep<T>(orig: seq<T>, i: nat)
    requires i + 1 < |orig|
    ensures (orig[1..i + 1] + orig[i..])[i + 1] == orig[i + 1]
    ensures (orig[1..i + 1] + orig[i..])[i := orig[i + 1]] == orig[1..i + 2] + orig[i + 1..]
  {
    var s := orig[1..i + 1] + orig[i..];
    assert s[i + 1] == orig[i + 1];
    assert s[i := orig[i + 1]] == orig[1..i + 2] + orig[i + 1..];
  }

  /** A fixed-capacity FIFO over an array; the head is always slot 0. */
  class TaskQueue<T> {
    const length: nat
    const data: array<Option<T>>
    var currSize: nat

    ghost predicate Valid()
      reads this, data
    {
      && data.Length == length
      && 0 < length
      && currSize <= length
      && forall k :: 0 <= k < currSize ==> data[k].Some?
    }

    /** The pending values, oldest first. */
    ghost function Contents(): seq<Option<T>>
      reads this, data
      requires Valid()
    {
      data[..currSize]
    }

    /** taskqueue_init: `length` zeroed slots, nothing pending. */
    constructor (length: nat)
      requires length > 0
      ensures Valid() && fresh(data)
      ensures this.length == length && currSize == 0 && Contents() == []
      ensures forall k :: 0 <= k < length ==> data[k] == None
    {
      this.length := length;
      data := new Option<T>[length](_ => None);
      currSize := 0;
    }

    /** taskqueue_put: append at the tail unless the value is NULL or the queue is full. */
    method Put(value: Option<T>) returns (ok: bool)
      requires Valid()
      modifies this, data
      ensures Valid()
      ensures ok <==> value.Some? && old(currSize) + 1 <= length
      ensures ok ==> currSize == old(currSize) + 1 && data[..] == old(data[..])[old(currSize) := value]
      ensures ok ==> Contents() == old(Contents()) + [value]
      ensures value.Some? ==> Contents() == QueuePut(old(Contents()), length, value)
      ensures !ok ==> currSize == old(currSize) && data[..] == old(data[..])
    {
      if value.None? {
        return false;
      }
      if currSize + 1 > length {
        return false;
      }
      data[currSize] := value;
      currSize := currSize + 1;
      ok := true;
    }

    /** taskqueue_size */
    function Size(): (n: nat)
      reads this, data
      requires Valid()
      ensures n == |Contents()| && n <= length
    {
      currSize
    }

    /** taskqueue_get: the head, NULL when empty; nothing changes. */
    function Get(): (r: Option<T>)
      reads this, data
      requires Valid()
      ensures Contents() == [] ==> r == None
      ensures Contents() != [] ==> r.Some? && r == Contents()[0]
    {
      if currSize == 0 then None else data[0]
    }

    /** taskqueue_pop: remove the head, shifting the other slots one place left. */
    method Pop() returns (r: Option<T>)
      requires Valid()
      modifies this, data
      ensures Valid()
      ensures r == old(Get())
      ensures old(currSize) == 0 ==> currSize == 0 && data[..] == old(data[..])
      ensures old(currSize) > 0 ==>
        && r.Some?
        && currSize == old(currSize) - 1
        && data[..] == old(data[1..currSize]) + old(data[currSize - 1..])
        && Contents() == old(Contents())[1..]
    {
      if currSize == 0 {
        return None;
      }
      r := data[0];
      ghost var orig := data[..];
      var i := 0;
      assert orig[1..1] + orig[0..] == orig;
      while i < currSize - 1
        invariant currSize == old(currSize) <= data.Length
        invariant 0 <= i <= currSize - 1
        invariant data[..] == orig[1..i + 1] + orig[i..]
      {
        ShiftStep(orig, i);
        data[i] := data[i + 1];
        i := i + 1;
      }
      currSize := currSize - 1;
    }

    /** taskqueue_empty */
    function Empty(): (b: bool)
      reads this, data
      requires Valid()
      ensures b <==> Contents() == []
    {
      currSize == 0
    }

    /** taskqueue_full */
    function Full(): (b: bool)
      reads this, data
      requires Valid()
      ensures b <==> |Contents()| == length
    {
      currSize == length
    }

    /** taskqueue_clear: forget every pending value (the slots themselves are not touched). */
    method Clear()
      requires Valid()
      modifies this
      ensures Valid() && currSize == 0 && Contents() == []
    {
      currSize := 0;
    }
  }

  /*************************************************************************/
  /* Queue behaviour as values: FIFO order and the size bound              */
  /*************************************************************************/

  /** The queue's contents after a put, as TaskQueue.Put specifies it. */
  function QueuePut<T>(q: seq<T>, capacity: nat, v: T): seq<T>
  {
    if |q| + 1 > capacity then q else q + [v]
  }

  /** Put every value of `vs` in order. */
  function PutAll<T>(q: seq<T>, capacity: nat, vs: seq<T>): seq<T>
    decreases |vs|
  {
    if vs == [] then q else PutAll(QueuePut(q, capacity, vs[0]), capacity, vs[1..])
  }

  /** The values popped, in order, by `n` pops (as TaskQueue.Pop specifies them). */
  function PopN<T>(q: seq<T>, n: nat): seq<T>
  {
    if n == 0 || q == [] then [] else [q[0]] + PopN(q[1..], n - 1)
  }

  /** The size bound: no put ever takes the queue past its capacity. */
  lemma {:induction false} PutAllBounded<T>(q: seq<T>, capacity: nat, vs: seq<T>)
    requires |q| <= capacity
    ensures |PutAll(q, capacity, vs)| <= capacity
    decreases |vs|
  {
    if vs != [] {
      PutAllBounded(QueuePut(q, capacity, vs[0]), capacity, vs[1..]);
    }
  }

  /** Puts within capacity append their values in order. */
  lemma {:induction false} PutAllAppends<T>(q: seq<T>, capacity: nat, vs: seq<T>)
    requires |q| + |vs| <= capacity
    ensures PutAll(q, capacity, vs) == q + vs
    decreases |vs|
  {
    if vs != [] {
      assert QueuePut(q, capacity, vs[0]) == q + [vs[0]];
      PutAllAppends(q + [vs[0]], capacity, vs[1..]);
      assert q + [vs[0]] + vs[1..] == q + vs;
    }
  }

  /** Popping a whole queue yields its values oldest first. */
  lemma {:induction false} PopAllInOrder<T>(q: seq<T>)
    ensures PopN(q, |q|) == q
  {
    if q != [] {
      PopAllInOrder(q[1..]);
    }
  }

  /** FIFO: values put into an empty queue within its capacity come out in the order they went in. */
  lemma Fifo<T>(capacity: nat, vs: seq<T>)
    requires |vs| <= capacity
    ensures PopN(PutAll([], capacity, vs), |vs|) == vs
  {
    PutAllAppends([], capacity, vs);
    assert [] + vs == vs;
    PopAllInOrder(vs);
  }

  /*************************************************************************/
  /* Tasks                                                                 */
  /*************************************************************************/

  /** An opaque address: a function pointer or a user pointer. */
  type Addr = nat

  /** A task: the work function, its argument and an optional argument destructor. */
  datatype Task = Task(taskfunc: Addr, arg: Option<Addr>, argdestructor: Option<Addr>)

  /** task_init: rejected (nothing built) when the work function is NULL. */
  function TaskInit(taskfunc: Option<Addr>, arg: Option<Addr>, argdestructor: Option<Addr>): (t: Option<Task>)
    ensures t.Some? <==> taskfunc.Some?
    ensures t.Some? ==>
      t.value.taskfunc == taskfunc.value && t.value.arg == arg && t.value.argdestructor == argdestructor
  {
    match taskfunc
    case None => None
    case Some(f) => Some(Task(f, arg, argdestructor))
  }

  /*************************************************************************/
  /* Pool bookkeeping as values                                            */
  /*************************************************************************/

  /** The bookkeeping half of a pool: result slots, completion counter, declared
      task count and done flag. */
  datatype Batch = Batch(results: seq<Option<Addr>>, completed: nat, totalTasks: nat, done: bool)
  {
    /** The slots fit the batch, the counter stays within it, and done means
        "all declared tasks completed". */
    predicate Consistent()
    {
      && |results| == totalTasks
      && 1 <= totalTasks
      && completed <= totalTasks
      && (done <==> completed >= totalTasks)
    }
  }

  /** The batch yatpool_init sets up: `numTasks` NULL slots, nothing completed. */
  function InitBatch(numTasks: nat): (b: Batch)
    ensures |b.results| == numTasks && b.completed == 0 && b.totalTasks == numTasks && !b.done
    ensures forall k :: 0 <= k < numTasks ==> b.results[k] == None
    ensures numTasks >= 1 ==> b.Consistent()
  {
    Batch(seq(numTasks, _ => None), 0, numTasks, false)
  }

  /** One completion (_yatpool_execute, under the mutex): store the result at
      index `completed`, count it, and set done once the declared count is reached. */
  function Record(b: Batch, result: Option<Addr>): (r: Batch)
    requires b.completed < |b.results|
    ensures b.Consistent() ==> r.Consistent()
  {
    var c := b.completed + 1;
    Batch(b.results[b.completed := result], c, b.totalTasks, b.done || c >= b.totalTasks)
  }

  /** A run of completions, in completion order. */
  function RecordAll(b: Batch, rs: seq<Option<Addr>>): Batch
    requires b.completed + |rs| <= |b.results|
    decreases |rs|
  {
    if rs == [] then b else RecordAll(Record(b, rs[0]), rs[1..])
  }

  /** From a fresh batch of T tasks, k <= T completions fill slots 0..k-1 with
      the results in completion order, each slot once, leave the other slots
      NULL, and set done exactly when k reaches T. */
  lemma {:induction false} RecordAllFromFresh(t: nat, rs: seq<Option<Addr>>)
    requires 1 <= t && |rs| <= t
    ensures var b := RecordAll(InitBatch(t), rs);
      && b.Consistent()
      && b.completed == |rs|
      && b.results == rs + seq(t - |rs|, _ => None)
      && (b.done <==> |rs| == t)
  {
    RecordAllFrom(InitBatch(t), [], rs);
    assert [] + rs == rs;
  }

  /** The inductive core of RecordAllFromFresh: `done` results already recorded. */
  lemma {:induction false} RecordAllFrom(b: Batch, done: seq<Option<Addr>>, rs: seq<Option<Addr>>)
    requires b.Consistent()
    requires b.completed == |done| && |done| + |rs| <= b.totalTasks
    requires b.results == done + seq(b.totalTasks - |done|, _ => None)
    ensures var r := RecordAll(b, rs);
      && r.Consistent()
      && r.completed == |done| + |rs|
      && r.totalTasks == b.totalTasks
      && r.results == done + rs + seq(b.totalTasks - |done| - |rs|, _ => None)
      && (r.done <==> |done| + |rs| == b.totalTasks)
    decreases |rs|
  {
    if rs == [] {
      assert done + rs == done;
    } else {
      var b1 := Record(b, rs[0]);
      var t := b.totalTasks;
      assert b1.results == done + [rs[0]] + seq(t - |done| - 1, _ => None) by {
        var lhs := b1.results;
        var rhs := done + [rs[0]] + seq(t - |done| - 1, _ => None);
        assert |lhs| == |rhs|;
        forall k | 0 <= k < |lhs| ensures lhs[k] == rhs[k] {
          if k < |done| {
          } else if k == |done| {
          } else {
            assert lhs[k] == b.results[k];
          }
        }
      }
      RecordAllFrom(b1, done + [rs[0]], rs[1..]);
      assert done + [rs[0]] + rs[1..] == done + rs;
    }
  }

  /** yatpool_reset AS WRITTEN: the declared count changes but the result
      slots keep the size yatpool_init gave them. */
  function ResetAsWritten(b: Batch, numTasks: nat): (r: Batch)
    ensures r.results == b.results && r.completed == 0 && r.totalTasks == numTasks && !r.done
  {
    Batch(b.results, 0, numTasks, false)
  }

  /** A pool initialised for one task, run to completion and reset to two tasks
      by ResetAsWritten: after one more completion the pool is not done, so a
      worker will run and record a second task, yet its slot index 1 is past
      the end of the one-slot results array. */
  lemma ResetAsWrittenOverrunsResults()
    ensures var b := Record(ResetAsWritten(Record(InitBatch(1), None), 2), None);
      && !b.done
      && b.completed == |b.results|
      && !b.Consistent()
  {
  }

  /** yatpool_reset as intended: a fresh results container sized to the new
      declared count (the corrected definition, used by Pool.Reset). */
  function ResetBatch(b: Batch, numTasks: nat): (r: Batch)
    requires numTasks >= 1
    ensures r.Consistent()
    ensures r.completed == 0 && r.totalTasks == numTasks && !r.done
  {
    InitBatch(numTasks)
  }

  /** With the corrected reset, in a consistent batch that is not done, the
      next completion writes inside the results array. */
  lemma ConsistentCompletionInBounds(b: Batch)
    requires b.Consistent() && !b.done
    ensures b.completed < |b.results|
  {
  }

  /*************************************************************************/
  /* The pool                                                              */
  /*************************************************************************/

  /** What a worker does at one turn of its loop (_yatpool_start_thread). */
  datatype WorkerAction =
    | Exit                                      // done observed: the thread ends
    | Wait                                      // queue empty, not done: wait on cond_queue
    | Run(task: Task, signalSlotAvailable: bool) // popped `task`; signal a producer?

  /** Why yatpool_reset refuses (in the C code, by terminating the process). */
  datatype ResetStatus = ResetOk | ZeroTasks | NotCompleted

  class Pool {
    const poolSize: nat
    const taskQueue: TaskQueue<Task>
    var retvalarr: array<Option<Addr>>
    var done: bool
    var completed: nat
    var totalTasks: nat

    ghost predicate Valid()
      reads this, taskQueue, taskQueue.data, retvalarr
    {
      && taskQueue.Valid()
      && taskQueue.length == MAX_QUEUE_SIZE
      && poolSize > 0
      && State().Consistent()
    }

    /** The bookkeeping fields as a value. */
    ghost function State(): Batch
      reads this, retvalarr
    {
      Batch(retvalarr[..], completed, totalTasks, done)
    }

    /** yatpool_init (thread creation aside): both counts must be non-zero,
        otherwise the C code terminates the process. */
    constructor (numThreads: nat, numTasks: nat)
      requires numThreads > 0 && numTasks > 0
      ensures Valid() && fresh(taskQueue) && fresh(taskQueue.data) && fresh(retvalarr)
      ensures poolSize == numThreads
      ensures taskQueue.Contents() == []
      ensures State() == InitBatch(numTasks)
    {
      poolSize := numThreads;
      taskQueue := new TaskQueue<Task>(MAX_QUEUE_SIZE);
      retvalarr := new Option<Addr>[numTasks](_ => None);
      totalTasks := numTasks;
      done := false;
      completed := 0;
    }

    /** yatpool_pool_size */
    function PoolSize(): (n: nat)
      reads this, taskQueue, taskQueue.data, retvalarr
      requires Valid()
      ensures n > 0 && n == poolSize
    {
      poolSize
    }

    /** The locked bookkeeping of _yatpool_execute once the task's function
        returned `result`. The C code writes retvalarr[completed] unchecked,
        so the slot must exist. */
    method Complete(result: Option<Addr>)
      requires Valid()
      requires completed < retvalarr.Length
      modifies this, retvalarr
      ensures Valid()
      ensures retvalarr == old(retvalarr)
      ensures State() == Record(old(State()), result)
    {
      retvalarr[completed] := result;
      completed := completed + 1;
      if completed >= totalTasks {
        done := true;
      }
    }

    /** One turn of the worker loop under the mutex: exit once done; wait while
        the queue is empty; otherwise pop the head and signal slot-available
        only when that pop emptied the queue. */
    method WorkerStep() returns (action: WorkerAction)
      requires Valid()
      modifies taskQueue, taskQueue.data
      ensures Valid()
      ensures old(done) ==> action == Exit
      ensures !old(done) && old(taskQueue.Contents()) == [] ==> action == Wait
      ensures !action.Run? ==> taskQueue.currSize == old(taskQueue.currSize) && taskQueue.data[..] == old(taskQueue.data[..])
      ensures !old(done) && old(taskQueue.Contents()) != [] ==>
        && action.Run?
        && old(taskQueue.Contents())[0] == Some(action.task)
        && taskQueue.Contents() == old(taskQueue.Contents())[1..]
        && (action.signalSlotAvailable <==> taskQueue.Contents() == [])
    {
      if done {
        return Exit;
      }
      if taskQueue.Empty() {
        return Wait;
      }
      var t := taskQueue.Pop();
      action := Run(t.value, taskQueue.Empty());
    }

    /** yatpool_reset, corrected to give the new batch its own results array.
        A zero count or an unfinished batch is refused and nothing changes. */
    method Reset(numTasks: nat) returns (status: ResetStatus)
      requires Valid()
      modifies this, taskQueue
      ensures Valid()
      ensures numTasks == 0 ==> status == ZeroTasks
      ensures numTasks > 0 && !old(done) ==> status == NotCompleted
      ensures status != ResetOk ==>
        && State() == old(State()) && retvalarr == old(retvalarr)
        && taskQueue.currSize == old(taskQueue.currSize)
      ensures numTasks > 0 && old(done) ==>
        && status == ResetOk
        && fresh(retvalarr)
        && taskQueue.Contents() == []
        && State() == ResetBatch(old(State()), numTasks)
    {
      if numTasks == 0 {
        return ZeroTasks;
      }
      if !done {
        return NotCompleted;
      }
      taskQueue.Clear();
      done := false;
      totalTasks := numTasks;
      completed := 0;
      retvalarr := new Option<Addr>[numTasks](_ => None);
      status := ResetOk;
    }
  }
}
