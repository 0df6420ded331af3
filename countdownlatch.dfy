/**
 * A sequential model of cc::CountDownLatch: a signed 32-bit counter that
 * the constructors and reset set, operator-- and down() decrement and
 * operator++ increments.
 *
 * The mutex and the condition variable are not modelled. What they decide
 * is kept as outcome values: down() reports whether it would call
 * notify_one, and wait() reports whether it returns without blocking.
 *
 * The counter is a std::atomic<int32_t>, whose increment and decrement
 * wrap around in two's complement; Pred and Succ write that out.
 */
module Latches {

  const MinInt32: int := -0x8000_0000
  const MaxInt32: int := 0x7fff_ffff

  /** The values of an int32_t. */
  type Int32 = x: int | MinInt32 <= x <= MaxInt32

  /** `--m_cnt`: one less, wrapping from the smallest int32_t to the largest. */
  function Pred(c: Int32): (r: Int32)
    ensures c > MinInt32 ==> r == c - 1
    ensures c == MinInt32 ==> r == MaxInt32
    ensures Succ(r) == c
  {
    if c == MinInt32 then MaxInt32 else c - 1
  }

  /** `++m_cnt`: one more, wrapping from the largest int32_t to the smallest. */
  function Succ(c: Int32): (r: Int32)
    ensures c < MaxInt32 ==> r == c + 1
    ensures c == MaxInt32 ==> r == MinInt32
  {
    if c == MaxInt32 then MinInt32 else c + 1
  }

  /** Increment and decrement undo each other, in both orders, across the wrap-around too. */
  lemma PredSuccInverse(c: Int32)
    ensures Pred(Succ(c)) == c
    ensures Succ(Pred(c)) == c
  {
  }

  /** Whether down() on counter c calls notify_one: the counter it leaves is 0. */
  function DownNotifies(c: Int32): (fires: bool)
    ensures fires <==> c == 1
  {
    Pred(c) == 0
  }

  /** The counter after k calls of down() from c. */
  function DownTimes(c: Int32, k: nat): Int32
    decreases k
  {
    if k == 0 then c else DownTimes(Pred(c), k - 1)
  }

  /** For each of k successive calls of down() from c, whether it notifies. */
  function Notifications(c: Int32, k: nat): (fired: seq<bool>)
    ensures |fired| == k
    decreases k
  {
    if k == 0 then [] else [DownNotifies(c)] + Notifications(Pred(c), k - 1)
  }

  /**
   * As long as the counter does not wrap, k calls of down() lower it by k,
   * and the i-th of them notifies exactly when it brings the counter from 1 to 0.
   */
  lemma {:induction false} DownWithoutWrap(c: Int32, k: nat)
    requires c - k >= MinInt32
    ensures DownTimes(c, k) == c - k
    ensures forall i :: 0 <= i < k ==> (Notifications(c, k)[i] <==> i == c - 1)
    decreases k
  {
    if k > 0 {
      DownWithoutWrap(Pred(c), k - 1);
      forall i | 0 <= i < k
        ensures Notifications(c, k)[i] <==> i == c - 1
      {
        if i > 0 {
          assert Notifications(c, k)[i] == Notifications(Pred(c), k - 1)[i - 1];
        }
      }
    }
  }

  /**
   * A latch set to n >= 1 reaches 0 after exactly n calls of down(), and
   * only the last of them notifies; then wait() returns at once.
   */
  lemma {:induction false} ReleasedAfterCount(n: Int32)
    requires n >= 1
    ensures DownTimes(n, n) == 0
    ensures Notifications(n, n) == seq(n, i => i == n - 1)
  {
    DownWithoutWrap(n, n);
  }

  /** Before the n-th call, the counter of a latch set to n is still positive, so wait() would block. */
  lemma {:induction false} NotReleasedEarly(n: Int32, k: nat)
    requires 0 <= k < n
    ensures DownTimes(n, k) == n - k > 0
    ensures forall i :: 0 <= i < k ==> !Notifications(n, k)[i]
  {
    DownWithoutWrap(n, k);
  }

  /** cc::CountDownLatch, its counter updated in place. */
  class CountDownLatch {
    var count: Int32

    /** CountDownLatch(int32_t cnt), and CountDownLatch() with a counter of 0. */
    constructor (cnt: Int32 := 0)
      ensures count == cnt
    {
      count := cnt;
    }

    /** operator--: one less, without notifying anyone. */
    method Decrement()
      modifies this
      ensures count == Pred(old(count))
    {
      count := Pred(count);
    }

    /** operator++: one more. */
    method Increment()
      modifies this
      ensures count == Succ(old(count))
    {
      count := Succ(count);
    }

    /** reset(cnt): the counter becomes cnt whatever it was. */
    method Reset(cnt: Int32)
      modifies this
      ensures count == cnt
    {
      count := cnt;
    }

    /** wait(): `immediate` is true when it returns without blocking. */
    method Wait() returns (immediate: bool)
      ensures immediate <==> count == 0
    {
      immediate := count == 0;
    }

    /**
     * down(): one less; `notify` is true when it calls notify_one, which is
     * when the counter it leaves is 0, i.e. when it was 1.
     */
    method Down() returns (notify: bool)
      modifies this
      ensures count == Pred(old(count))
      ensures notify <==> count == 0
      ensures notify <==> old(count) == 1
    {
      count := Pred(count);
      notify := count == 0;
    }
  }

  /**
   * The fan-in the latch serves: a latch set to n, n completions each
   * calling down(), then wait(). Exactly one notification is sent, and
   * wait() returns without blocking.
   */
  method FanIn(n: Int32) returns (notifications: nat, immediate: bool)
    requires n >= 1
    ensures notifications == 1 && immediate
  {
    var latch := new CountDownLatch(n);
    notifications := 0;
    var done := 0;
    while done < n
      invariant 0 <= done <= n
      invariant latch.count == n - done
      invariant notifications == if done == n then 1 else 0
    {
      var notify := latch.Down();
      if notify {
        notifications := notifications + 1;
      }
      done := done + 1;
    }
    immediate := latch.Wait();
  }
}
