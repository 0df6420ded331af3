# cc::TaskQueue and cc::CountDownLatch, modelled in Dafny

This project models the sequential behaviour of the two primitives of a small
C++ worker-pool library:

- `cc::TaskQueue<T>` (`taskqueue.h`), a FIFO of tasks with an optional capacity
  and a task counter kept beside the queue. `push` rejects with `kFull` at a
  positive capacity. `pop` waits for a task, optionally bounded by a timeout,
  and reports `kTimeout` when the wait ends with nothing queued. `pop_nonblock`
  reports `kEmpty` at once. `empty()` and `size()` read the counter.
- `cc::CountDownLatch` (`countdownlatch.h`), a 32-bit counter. The constructors
  and `reset` set it, `operator--` and `down()` decrement it, and `operator++`
  increments it. `down()` notifies a waiter when it leaves the counter at 0.
  `wait()` returns at once when the counter is 0 and blocks otherwise.

`taskqueue.dfy` (module `TaskQueues`) has two layers. The first gives the
queue's fields as a value, `QueueState` (`_queue`, `_task_count`,
`_max_task_num`), and each operation as a step function. The lemmas about
whole call sequences are stated over those functions: the counter/length
invariant, the capacity bound, FIFO order and rejection at capacity. The
second layer is the class `TaskQueue<T>`. Its methods update the fields in
place, and each is proved to perform exactly the matching step. The `T*`
output pointer becomes an in/out pair: `slot` is what the pointer held
before the call, and `task` is what it holds after. The pointer is written
only on `kOk`.

`countdownlatch.dfy` (module `Latches`) models the counter as an `int32_t`.
Increment and decrement on a `std::atomic<int32_t>` wrap around in two's
complement, so `Pred` and `Succ` spell the wrap-around out. The class
`CountDownLatch` has one method per operation. `Down` returns whether
`notify_one` would be called. `Wait` returns whether the call returns
without blocking.

## Model

| member | source | states |
|---|---|---|
| `TaskQueues.Create` | taskqueue.h:81 | a new queue is empty, keeps the given capacity and satisfies the invariant (counter equals length, within capacity) |
| `TaskQueues.PushStep` | taskqueue.h:85-94 | push returns kFull exactly when the capacity is positive and the counter has reached it, and then nothing changes; a non-positive capacity never rejects; on kOk the task is appended at the tail, earlier tasks are untouched and the counter grows by one; the invariant is preserved |
| `TaskQueues.TakeHead` | taskqueue.h:108-111 | taking from a non-empty queue returns its head, leaves its tail and lowers the counter by one, preserving the invariant |
| `TaskQueues.PopNonblockStep` | taskqueue.h:114-123 | pop_nonblock returns kEmpty exactly when nothing is queued, and then nothing changes and no task is written; otherwise kOk with the old head, the old tail left and the counter one lower; never kTimeout; preserves the invariant |
| `TaskQueues.PopStep` | taskqueue.h:96-112 | pop never returns kEmpty; it returns kTimeout exactly when nothing is queued, only with a positive timeout, and then nothing changes; otherwise kOk with the head, the tail left and the counter one lower; preserves the invariant |
| `TaskQueues.RunKeepsInv` | taskqueue.h:85-123 | any sequence of push, pop and pop_nonblock calls keeps the counter equal to the number of queued tasks, keeps a positive capacity respected and leaves the capacity unchanged |
| `TaskQueues.CountNeverExceedsCapacity` | taskqueue.h:81-94 | from a freshly constructed queue, after every prefix of any call sequence, the counter equals the queue's length and never exceeds a positive capacity |
| `TaskQueues.PushesAppend` | taskqueue.h:85-94 | pushes that fit under the capacity (any number when unbounded) all succeed and append their tasks at the tail in order, the counter growing by their number |
| `TaskQueues.PopsTakeHeads` | taskqueue.h:96-123 | any run of pop calls (pop and pop_nonblock mixed, any timeouts) on a queue holding at least as many tasks as there are calls hands out its first tasks in order and leaves the rest |
| `TaskQueues.Fifo` | taskqueue.h:85-123 | pushing tasks onto a fresh queue with room for them (in particular an unbounded one), then popping as many times with any mix of pop and pop_nonblock, hands the tasks out in push order and leaves the queue as constructed |
| `TaskQueues.StepConservesTasks` | taskqueue.h:85-123 | one call of any kind loses and duplicates nothing: the task it hands out, then the queue it leaves, equal the queue before it, then the task it enqueued |
| `TaskQueues.RunConservesTasks` | taskqueue.h:85-123 | for any interleaving of push, pop and pop_nonblock on any queue, the tasks handed out followed by the tasks still queued equal the tasks queued at the start followed by the accepted pushes: nothing is handed out twice or lost, and tasks leave in the order they entered |
| `TaskQueues.UnboundedAcceptsAll` | taskqueue.h:87 | on a queue with a non-positive capacity every push of any call sequence is accepted |
| `TaskQueues.UnboundedFifo` | taskqueue.h:85-123 | on an unbounded queue, for any interleaving of calls, what is handed out followed by what remains is the initial queue followed by every pushed task, in order |
| `TaskQueues.FullQueueRejects` | taskqueue.h:87-88 | on a bounded queue at capacity every further push is rejected and changes nothing |
| `TaskQueues.TaskQueue.constructor` | taskqueue.h:81 | TaskQueue(max_num = -1) starts empty with a zero counter and the given capacity |
| `TaskQueues.TaskQueue.Push` | taskqueue.h:85-94 | the in-place push performs PushStep: kFull with nothing changed at capacity, otherwise the task appended and the counter incremented; the invariant is kept |
| `TaskQueues.TaskQueue.Pop` | taskqueue.h:96-112 | the in-place pop performs PopStep: kOk with the old head written out, the tail left and the counter decremented, or (positive timeout, empty queue) kTimeout with queue, counter and output slot unchanged; never kEmpty |
| `TaskQueues.TaskQueue.PopNonblock` | taskqueue.h:114-123 | the in-place pop_nonblock performs PopNonblockStep: kEmpty with nothing changed exactly when the queue is empty, otherwise kOk with the head written out; never kTimeout |
| `TaskQueues.TaskQueue.Empty` | taskqueue.h:65 | empty(), which tests the counter, is true exactly when no task is queued |
| `TaskQueues.TaskQueue.Size` | taskqueue.h:69 | size(), which reads the counter, equals the number of queued tasks |
| `TaskQueues.FifoThroughQueue` | taskqueue.h:85-112 | through the class itself: pushing tasks onto a default (unbounded) queue and popping as many times with a timeout returns exactly the pushed tasks in order |
| `Latches.Pred` | countdownlatch.h:24-26 | decrementing the int32 counter lowers it by one, wraps from the smallest to the largest value, and is undone by an increment |
| `Latches.Succ` | countdownlatch.h:27-29 | incrementing the int32 counter raises it by one and wraps from the largest to the smallest value |
| `Latches.PredSuccInverse` | countdownlatch.h:24-29 | operator-- and operator++ undo each other in both orders, across the wrap-around too |
| `Latches.DownNotifies` | countdownlatch.h:42-48 | down() notifies exactly when the counter before the call is 1, i.e. when it leaves 0 |
| `Latches.DownWithoutWrap` | countdownlatch.h:42-48 | while the counter does not wrap, k calls of down() lower it by exactly k with no lower bound at 0, and the i-th call notifies exactly when it takes the counter from 1 to 0 |
| `Latches.ReleasedAfterCount` | countdownlatch.h:16-48 | a latch set to n >= 1 is at 0 after exactly n calls of down(), and only the n-th call notifies |
| `Latches.NotReleasedEarly` | countdownlatch.h:33-48 | after fewer than n calls of down() on a latch set to n, the counter is still positive (wait() would block) and no call has notified |
| `Latches.CountDownLatch.constructor` | countdownlatch.h:16-22 | the counter starts at the given value, 0 for the default constructor |
| `Latches.CountDownLatch.Decrement` | countdownlatch.h:24-26 | operator-- lowers the counter by one (wrapping at the int32 minimum) and notifies no one |
| `Latches.CountDownLatch.Increment` | countdownlatch.h:27-29 | operator++ raises the counter by one (wrapping at the int32 maximum) |
| `Latches.CountDownLatch.Reset` | countdownlatch.h:30-32 | reset(cnt) sets the counter to cnt whatever it was |
| `Latches.CountDownLatch.Wait` | countdownlatch.h:33-41 | wait() returns without blocking exactly when the counter is 0 |
| `Latches.CountDownLatch.Down` | countdownlatch.h:42-49 | down() lowers the counter by one and notifies exactly when the new counter is 0, equivalently when the old one was 1 |
| `Latches.FanIn` | countdownlatch.h:16-48 | through the class itself: a latch set to n >= 1 followed by n calls of down() sends exactly one notification, after which wait() returns without blocking |

## Left out

- Mutexes, `std::condition_variable` waits and notifications, and real-time `wait_for` timeouts: the model is sequential. Waiting is represented only by outcome values (kTimeout, the `immediate` and `notify` booleans) and by preconditions.
- TaskQueues.TaskQueue.Pop: requires a positive timeout or a non-empty queue. With a non-positive timeout on an empty queue the source waits until another thread pushes, which a sequential model cannot show; in call traces (`TaskQueues.Run`) such a call leaves the state unchanged because it has not returned.
- TaskQueues.PopStep: same precondition as `TaskQueues.TaskQueue.Pop`. A positive-timeout pop on an empty queue always times out here, because no other thread can push during the wait. The source can also return kOk when a task arrives before the deadline.
- Latches.CountDownLatch.Wait: models only the immediate-return check. When the counter is not 0 the call blocks, and it is not modelled when it returns (the source waits without a predicate, so any notification or spurious wake-up ends it).
- `notify_one` against broadcast, the unlocked re-read of the counter in `down()`, `volatile` and atomic memory ordering, and happens-before guarantees: these are properties of thread interleavings.
- `_task_count`, `_max_task_num`, `size()`'s result and the `int64_t` timeout are unbounded integers. A 32-bit overflow of the counter needs more than 2^31 - 1 queued tasks and would be undefined behaviour in C++.
- Tasks are plain values: the copy that `push(T)` takes and the copy-assignment through `T*` are not distinguished from the task itself.
- The destructor and the deleted copy constructor and copy assignment of `TaskQueue` (`taskqueue.h:71-72`, `83`): C++ ownership mechanics, with no behaviour to model.
- The demo program `task.cpp`: thread creation and joining, the global running flag and its polling loop, `sleep`, console output, the shared random engine and the `shared_ptr` task contexts. These are not part of this model.
