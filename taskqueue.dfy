/**
 * A sequential model of cc::TaskQueue<T>: a FIFO of tasks with an optional
 * capacity bound and a task counter kept beside the queue.
 *
 * The first half describes the queue's fields as a value (QueueState) and
 * each operation as a step function on that value; the lemmas about whole
 * call sequences (the counter invariant, the capacity bound, FIFO order) are
 * stated over those functions. The second half is the class itself, whose
 * methods update the fields in place and are proved to perform exactly
 * those steps.
 *
 * Locking and condition-variable waits are not modelled: a pop that would
 * wait either finds an item, times out (positive timeout, queue empty), or
 * would wait forever, which the callers of the class must rule out.
 */
module TaskQueues {

  datatype Option<T> = None | Some(value: T)

  /** Result of push (kOk, kFull). */
  datatype PushStatus = Ok | Full

  /** Result of pop and pop_nonblock (kOk, kEmpty, kTimeout). */
  datatype PopStatus = Ok | Empty | Timeout

  /**
   * The fields of a queue: the queued tasks (`_queue`), the live counter
   * (`_task_count`) and the capacity (`_max_task_num`).
   */
  datatype QueueState<T> = QueueState(items: seq<T>, count: int, maxNum: int)

  /** Only a positive capacity bounds the queue; -1, the default, and 0 do not. */
  predicate Bounded(maxNum: int) {
    maxNum > 0
  }

  /**
   * The queue's invariant: the counter equals the number of queued tasks,
   * and a bounded queue holds no more tasks than its capacity.
   */
  predicate Inv<T>(s: QueueState<T>) {
    s.count == |s.items| && (Bounded(s.maxNum) ==> s.count <= s.maxNum)
  }

  /** The state the constructor TaskQueue(max_num) establishes. */
  function Create<T>(maxNum: int): (s: QueueState<T>)
    ensures Inv(s) && s.items == [] && s.maxNum == maxNum
  {
    QueueState([], 0, maxNum)
  }

  /** The capacity test of push, which reads the counter, not the queue. */
  predicate AtCapacity<T>(s: QueueState<T>) {
    Bounded(s.maxNum) && s.count >= s.maxNum
  }

  /** push: reject when a positive capacity is reached, otherwise append at the tail. */
  function PushStep<T>(s: QueueState<T>, task: T): (r: (PushStatus, QueueState<T>))
    ensures r.0 == PushStatus.Full <==> s.maxNum > 0 && s.count >= s.maxNum
    ensures !Bounded(s.maxNum) ==> r.0 == PushStatus.Ok
    ensures r.0 == PushStatus.Full ==> r.1 == s
    ensures r.0 == PushStatus.Ok ==>
      r.1.items == s.items + [task] && r.1.count == s.count + 1 && r.1.maxNum == s.maxNum
    ensures Inv(s) ==> Inv(r.1)
  {
    if AtCapacity(s) then (PushStatus.Full, s)
    else (PushStatus.Ok, s.(items := s.items + [task], count := s.count + 1))
  }

  /** What pop and pop_nonblock return, and the state they leave. */
  datatype PopResult<T> = PopResult(status: PopStatus, task: Option<T>, next: QueueState<T>)

  /** Taking the head: the shared tail of both pops once an item is present. */
  function TakeHead<T>(s: QueueState<T>): (r: PopResult<T>)
    requires s.items != []
    ensures r.status == PopStatus.Ok && r.task == Some(s.items[0])
    ensures r.next.items == s.items[1..] && r.next.count == s.count - 1 && r.next.maxNum == s.maxNum
    ensures Inv(s) ==> Inv(r.next)
  {
    PopResult(PopStatus.Ok, Some(s.items[0]), s.(items := s.items[1..], count := s.count - 1))
  }

  /** pop_nonblock: kEmpty at once when nothing is queued, otherwise the head. */
  function PopNonblockStep<T>(s: QueueState<T>): (r: PopResult<T>)
    ensures r.status != PopStatus.Timeout
    ensures r.status == PopStatus.Empty <==> s.items == []
    ensures r.status == PopStatus.Empty ==> r.task == None && r.next == s
    ensures r.status == PopStatus.Ok ==>
      s.items != [] && r.task == Some(s.items[0]) && r.next.items == s.items[1..] &&
      r.next.count == s.count - 1 && r.next.maxNum == s.maxNum
    ensures Inv(s) ==> Inv(r.next)
  {
    if s.items == [] then PopResult(PopStatus.Empty, None, s)
    else TakeHead(s)
  }

  /** A pop that would wait forever: no timeout bound and nothing queued. */
  predicate WaitsForever<T>(s: QueueState<T>, timeoutUs: int) {
    timeoutUs <= 0 && s.items == []
  }

  /**
   * pop: with a positive timeout, kTimeout when nothing is queued when the
   * wait ends; without one, the wait lasts until an item is present. In a
   * sequential setting nothing arrives during the wait, so an empty queue
   * times out at once and a call that would wait forever is excluded.
   */
  function PopStep<T>(s: QueueState<T>, timeoutUs: int): (r: PopResult<T>)
    requires !WaitsForever(s, timeoutUs)
    ensures r.status != PopStatus.Empty
    ensures r.status == PopStatus.Timeout <==> s.items == []
    ensures r.status == PopStatus.Timeout ==> timeoutUs > 0 && r.task == None && r.next == s
    ensures r.status == PopStatus.Ok ==>
      r.task == Some(s.items[0]) && r.next.items == s.items[1..] &&
      r.next.count == s.count - 1 && r.next.maxNum == s.maxNum
    ensures Inv(s) ==> Inv(r.next)
  {
    if timeoutUs > 0 then
      if s.items == [] then PopResult(PopStatus.Timeout, None, s) else TakeHead(s)
    else
      TakeHead(s)
  }

  // ---------------------------------------------------------------------
  // Call sequences
  // ---------------------------------------------------------------------

  /** One call on the queue, as a client issues it. */
  datatype Call<T> = Push(task: T) | Pop(timeoutUs: int) | PopNonblock

  /** The task a pop hands out, as a sequence of zero or one elements. */
  function Handed<T>(o: Option<T>): seq<T> {
    if o.Some? then [o.value] else []
  }

  /**
   * The state after one call and the task it handed out. A pop that would
   * wait forever has not returned, so it has changed nothing.
   */
  function Step<T>(s: QueueState<T>, c: Call<T>): (QueueState<T>, Option<T>) {
    match c
    case Push(task) => (PushStep(s, task).1, None)
    case PopNonblock => var r := PopNonblockStep(s); (r.next, r.task)
    case Pop(t) => if WaitsForever(s, t) then (s, None) else var r := PopStep(s, t); (r.next, r.task)
  }

  /** The state after a sequence of calls and the tasks handed out, in order. */
  function Run<T>(s: QueueState<T>, calls: seq<Call<T>>): (QueueState<T>, seq<T>)
    decreases |calls|
  {
    if calls == [] then (s, [])
    else
      var step := Step(s, calls[0]);
      var rest := Run(step.0, calls[1..]);
      (rest.0, Handed(step.1) + rest.1)
  }

  /** Every sequence of calls keeps the counter equal to the queue's length and within capacity. */
  lemma {:induction false} RunKeepsInv<T>(s: QueueState<T>, calls: seq<Call<T>>)
    requires Inv(s)
    ensures Inv(Run(s, calls).0) && Run(s, calls).0.maxNum == s.maxNum
    decreases |calls|
  {
    if calls != [] {
      RunKeepsInv(Step(s, calls[0]).0, calls[1..]);
    }
  }

  /**
   * From a freshly constructed queue, after every prefix of any call
   * sequence, the counter matches the queue and a positive capacity is
   * never exceeded.
   */
  lemma CountNeverExceedsCapacity<T>(maxNum: int, calls: seq<Call<T>>)
    ensures forall k :: 0 <= k <= |calls| ==>
      var s := Run(Create<T>(maxNum), calls[..k]).0;
      s.count == |s.items| && (maxNum > 0 ==> s.count <= maxNum)
  {
    forall k | 0 <= k <= |calls|
      ensures var s := Run(Create<T>(maxNum), calls[..k]).0;
        s.count == |s.items| && (maxNum > 0 ==> s.count <= maxNum)
    {
      RunKeepsInv(Create<T>(maxNum), calls[..k]);
    }
  }

  /** Running two call sequences one after the other is running their concatenation. */
  lemma {:induction false} RunAppend<T>(s: QueueState<T>, a: seq<Call<T>>, b: seq<Call<T>>)
    ensures Run(s, a + b) ==
      (Run(Run(s, a).0, b).0, Run(s, a).1 + Run(Run(s, a).0, b).1)
    decreases |a|
  {
    if a == [] {
      assert a + b == b;
      assert Run(s, a) == (s, []);
      assert [] + Run(s, b).1 == Run(s, b).1;
    } else {
      assert (a + b)[0] == a[0];
      assert (a + b)[1..] == a[1..] + b;
      var step := Step(s, a[0]);
      RunAppend(step.0, a[1..], b);
      var mid := Run(step.0, a[1..]);
      var tail := Run(mid.0, b);
      assert Run(s, a) == (mid.0, Handed(step.1) + mid.1);
      assert Run(s, a + b) == (tail.0, Handed(step.1) + (mid.1 + tail.1));
      assert Handed(step.1) + (mid.1 + tail.1) == (Handed(step.1) + mid.1) + tail.1;
    }
  }

  /** One push call per task, in order. */
  function Pushes<T>(tasks: seq<T>): (calls: seq<Call<T>>)
    ensures |calls| == |tasks|
    ensures forall i :: 0 <= i < |tasks| ==> calls[i] == Push(tasks[i])
  {
    seq(|tasks|, i requires 0 <= i < |tasks| => Push(tasks[i]))
  }

  /** n copies of the same call. */
  function Repeat<T>(c: Call<T>, n: nat): (calls: seq<Call<T>>)
    ensures |calls| == n
    ensures forall i :: 0 <= i < n ==> calls[i] == c
  {
    seq(n, _ => c)
  }

  /** Pushes that fit under the capacity all succeed and append their tasks at the tail. */
  lemma {:induction false} PushesAppend<T>(s: QueueState<T>, tasks: seq<T>)
    requires Inv(s)
    requires Bounded(s.maxNum) ==> |s.items| + |tasks| <= s.maxNum
    ensures Run(s, Pushes(tasks)) ==
      (s.(items := s.items + tasks, count := s.count + |tasks|), [])
    decreases |tasks|
  {
    if tasks != [] {
      var t := Step(s, Push(tasks[0])).0;
      assert Pushes(tasks)[0] == Push(tasks[0]);
      assert Pushes(tasks)[1..] == Pushes(tasks[1..]);
      PushesAppend(t, tasks[1..]);
      assert t.items + tasks[1..] == s.items + tasks;
      var rest := Run(t, Pushes(tasks[1..]));
      assert Run(s, Pushes(tasks)).0 == rest.0;
      assert Run(s, Pushes(tasks)).1 == Handed<T>(None) + rest.1 == [];
    } else {
      assert s.items + tasks == s.items;
    }
  }

  /** A sequence of calls none of which is a push: any mix of pop and pop_nonblock, any timeouts. */
  predicate OnlyPops<T>(calls: seq<Call<T>>) {
    forall i :: 0 <= i < |calls| ==> !calls[i].Push?
  }

  /**
   * Pops of either kind, with any timeouts, on a queue holding at least as
   * many tasks as there are calls, hand out its first tasks in order.
   */
  lemma {:induction false} PopsTakeHeads<T>(s: QueueState<T>, pops: seq<Call<T>>)
    requires Inv(s) && OnlyPops(pops) && |pops| <= |s.items|
    ensures Run(s, pops) ==
      (s.(items := s.items[|pops|..], count := s.count - |pops|), s.items[..|pops|])
    decreases |pops|
  {
    var n := |pops|;
    if n > 0 {
      assert !pops[0].Push?;
      var t := Step(s, pops[0]).0;
      assert t.items == s.items[1..];
      PopsTakeHeads(t, pops[1..]);
      assert s.items[1..][n - 1..] == s.items[n..];
      assert s.items[..n] == [s.items[0]] + s.items[1..][..n - 1];
    } else {
      assert s.items[0..] == s.items;
    }
  }

  /**
   * FIFO: pushing tasks onto a fresh queue that has room for all of them
   * (in particular an unbounded one) and then popping as many times, with
   * any mix of pop and pop_nonblock, hands the tasks out in the order they
   * were pushed and leaves the queue empty.
   */
  lemma Fifo<T>(maxNum: int, tasks: seq<T>, pops: seq<Call<T>>)
    requires OnlyPops(pops) && |pops| == |tasks|
    requires Bounded(maxNum) ==> |tasks| <= maxNum
    ensures Run(Create<T>(maxNum), Pushes(tasks) + pops) == (Create<T>(maxNum), tasks)
  {
    var s := Create<T>(maxNum);
    RunAppend(s, Pushes(tasks), pops);
    PushesAppend(s, tasks);
    var full := Run(s, Pushes(tasks)).0;
    assert full.items == tasks;
    PopsTakeHeads(full, pops);
    assert tasks[|tasks|..] == [] && tasks[..|tasks|] == tasks;
  }

  /** The task a call on s enqueues: the pushed task when push returns kOk, else none. */
  function Enqueued<T>(s: QueueState<T>, c: Call<T>): seq<T> {
    if c.Push? && PushStep(s, c.task).0 == PushStatus.Ok then [c.task] else []
  }

  /**
   * One call conserves tasks: what it hands out, followed by what is then
   * queued, is what was queued followed by what it enqueued.
   */
  lemma StepConservesTasks<T>(s: QueueState<T>, c: Call<T>)
    ensures Handed(Step(s, c).1) + Step(s, c).0.items == s.items + Enqueued(s, c)
  {
  }

  /** The tasks whose push a sequence of calls from s accepts (kOk), in call order. */
  function Accepted<T>(s: QueueState<T>, calls: seq<Call<T>>): seq<T>
    decreases |calls|
  {
    if calls == [] then []
    else Enqueued(s, calls[0]) + Accepted(Step(s, calls[0]).0, calls[1..])
  }

  /** The tasks of all push calls in a sequence, in call order. */
  function PushedTasks<T>(calls: seq<Call<T>>): (tasks: seq<T>)
    ensures |tasks| <= |calls|
    decreases |calls|
  {
    if calls == [] then []
    else (if calls[0].Push? then [calls[0].task] else []) + PushedTasks(calls[1..])
  }

  /**
   * FIFO for any interleaving of push, pop and pop_nonblock: the tasks
   * handed out, followed by the tasks still queued, are exactly the tasks
   * queued at the start followed by the accepted pushes. So no task is
   * handed out twice or lost, and tasks leave in the order they entered.
   */
  lemma {:induction false} RunConservesTasks<T>(s: QueueState<T>, calls: seq<Call<T>>)
    ensures Run(s, calls).1 + Run(s, calls).0.items == s.items + Accepted(s, calls)
    decreases |calls|
  {
    if calls == [] {
      assert s.items + [] == s.items;
    } else {
      var c := calls[0];
      var step := Step(s, c);
      var rest := Run(step.0, calls[1..]);
      var mine := Enqueued(s, c);
      RunConservesTasks(step.0, calls[1..]);
      StepConservesTasks(s, c);
      calc {
        Run(s, calls).1 + Run(s, calls).0.items;
        (Handed(step.1) + rest.1) + rest.0.items;
        Handed(step.1) + (rest.1 + rest.0.items);
        Handed(step.1) + (step.0.items + Accepted(step.0, calls[1..]));
        (Handed(step.1) + step.0.items) + Accepted(step.0, calls[1..]);
        (s.items + mine) + Accepted(step.0, calls[1..]);
        s.items + Accepted(s, calls);
      }
    }
  }

  /** An unbounded queue accepts every push. */
  lemma {:induction false} UnboundedAcceptsAll<T>(s: QueueState<T>, calls: seq<Call<T>>)
    requires !Bounded(s.maxNum)
    ensures Accepted(s, calls) == PushedTasks(calls)
    decreases |calls|
  {
    if calls != [] {
      var t := Step(s, calls[0]).0;
      assert t.maxNum == s.maxNum;
      UnboundedAcceptsAll(t, calls[1..]);
    }
  }

  /**
   * FIFO on an unbounded queue (the default capacity -1) under any
   * interleaving of calls: what is handed out, then what remains, is what
   * was queued, then every pushed task, in order.
   */
  lemma UnboundedFifo<T>(s: QueueState<T>, calls: seq<Call<T>>)
    requires !Bounded(s.maxNum)
    ensures Run(s, calls).1 + Run(s, calls).0.items == s.items + PushedTasks(calls)
  {
    RunConservesTasks(s, calls);
    UnboundedAcceptsAll(s, calls);
  }

  /** On a full bounded queue every further push is rejected and changes nothing. */
  lemma {:induction false} FullQueueRejects<T>(s: QueueState<T>, tasks: seq<T>)
    requires Inv(s) && Bounded(s.maxNum) && s.count == s.maxNum
    ensures Run(s, Pushes(tasks)) == (s, [])
    decreases |tasks|
  {
    if tasks != [] {
      assert Pushes(tasks)[0] == Push(tasks[0]);
      assert Step(s, Push(tasks[0])) == (s, None);
      assert Pushes(tasks)[1..] == Pushes(tasks[1..]);
      FullQueueRejects(s, tasks[1..]);
      assert Run(s, Pushes(tasks)).0 == s;
      assert Run(s, Pushes(tasks)).1 == Handed<T>(None) + [] == [];
    }
  }

  // ---------------------------------------------------------------------
  // The class
  // ---------------------------------------------------------------------

  /** cc::TaskQueue<T>, its fields updated in place by push and the pops. */
  class TaskQueue<T> {
    var queue: seq<T>
    var taskCount: int
    const maxTaskNum: int

    /** The fields as a value. */
    function State(): QueueState<T>
      reads this
    {
      QueueState(queue, taskCount, maxTaskNum)
    }

    ghost predicate Valid()
      reads this
    {
      Inv(State())
    }

    /** TaskQueue(int max_num = -1): empty, with the given capacity. */
    constructor (maxNum: int := -1)
      ensures Valid() && State() == Create(maxNum)
      ensures queue == [] && taskCount == 0 && maxTaskNum == maxNum
    {
      queue := [];
      taskCount := 0;
      maxTaskNum := maxNum;
    }

    /** push: kFull and no change at capacity, otherwise the task goes to the tail. */
    method Push(task: T) returns (status: PushStatus)
      requires Valid()
      modifies this
      ensures Valid()
      ensures (status, State()) == PushStep(old(State()), task)
      ensures status == PushStatus.Full <==> maxTaskNum > 0 && old(taskCount) >= maxTaskNum
      ensures status == PushStatus.Ok ==> queue == old(queue) + [task] && taskCount == old(taskCount) + 1
      ensures status == PushStatus.Full ==> queue == old(queue) && taskCount == old(taskCount)
    {
      if maxTaskNum > 0 && taskCount >= maxTaskNum {
        return PushStatus.Full;
      }
      queue := queue + [task];
      taskCount := taskCount + 1;
      status := PushStatus.Ok;
    }

    /**
     * pop(T* task, int64_t timeout_us = -1). `slot` is what the output
     * pointer held before the call; `task` is what it holds afterwards.
     */
    method Pop(slot: T, timeoutUs: int := -1) returns (status: PopStatus, task: T)
      requires Valid()
      requires !WaitsForever(State(), timeoutUs)
      modifies this
      ensures Valid()
      ensures var r := PopStep(old(State()), timeoutUs);
        status == r.status && State() == r.next &&
        task == (if r.task.Some? then r.task.value else slot)
      ensures status != PopStatus.Empty
      ensures status == PopStatus.Ok <==> old(queue) != []
      ensures status == PopStatus.Ok ==>
        task == old(queue)[0] && queue == old(queue)[1..] && taskCount == old(taskCount) - 1
      ensures status == PopStatus.Timeout ==>
        timeoutUs > 0 && task == slot && queue == old(queue) && taskCount == old(taskCount)
    {
      task := slot;
      if timeoutUs > 0 {
        if queue == [] {
          return PopStatus.Timeout, task;
        }
      }
      task := queue[0];
      queue := queue[1..];
      taskCount := taskCount - 1;
      status := PopStatus.Ok;
    }

    /** pop_nonblock(T* task): kEmpty and no change when nothing is queued, otherwise the head. */
    method PopNonblock(slot: T) returns (status: PopStatus, task: T)
      requires Valid()
      modifies this
      ensures Valid()
      ensures var r := PopNonblockStep(old(State()));
        status == r.status && State() == r.next &&
        task == (if r.task.Some? then r.task.value else slot)
      ensures status != PopStatus.Timeout
      ensures status == PopStatus.Empty <==> old(queue) == []
      ensures status == PopStatus.Empty ==> task == slot && queue == old(queue) && taskCount == old(taskCount)
      ensures status == PopStatus.Ok ==>
        task == old(queue)[0] && queue == old(queue)[1..] && taskCount == old(taskCount) - 1
    {
      task := slot;
      if queue == [] {
        return PopStatus.Empty, task;
      }
      task := queue[0];
      queue := queue[1..];
      taskCount := taskCount - 1;
      status := PopStatus.Ok;
    }

    /** empty(): true exactly when no task is queued. */
    function Empty(): (r: bool)
      requires Valid()
      reads this
      ensures r <==> queue == []
    {
      taskCount == 0
    }

    /** size(): the number of queued tasks. */
    function Size(): (r: int)
      requires Valid()
      reads this
      ensures r == |queue|
    {
      taskCount
    }
  }

  /**
   * FIFO through the class: push every task onto a fresh unbounded queue,
   * then pop (with a timeout) as many times; the tasks come out in order.
   */
  method FifoThroughQueue<T(0)>(tasks: seq<T>) returns (out: seq<T>)
    ensures out == tasks
  {
    var q := new TaskQueue<T>();
    var i := 0;
    while i < |tasks|
      invariant 0 <= i <= |tasks|
      invariant q.Valid() && q.maxTaskNum == -1 && q.queue == tasks[..i]
    {
      var st := q.Push(tasks[i]);
      assert tasks[..i + 1] == tasks[..i] + [tasks[i]];
      i := i + 1;
    }
    out := [];
    var slot: T := *;
    while |out| < |tasks|
      invariant q.Valid() && |out| <= |tasks|
      invariant out + q.queue == tasks
    {
      var st;
      st, slot := q.Pop(slot, 1000000);
      out := out + [slot];
    }
  }
}
