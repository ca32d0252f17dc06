/** The once-a-second countdown both the spin cooldown and the ad watch timer run: each
    firing replaces the value `prev` by `prev <= 1 ? 0 : prev - 1` and the timer stops once
    the value reaches 0. */
module Countdown {

  /** One firing of the interval. */
  function Step(prev: int): (next: int)
    ensures next >= 0
    ensures prev >= 1 ==> next == prev - 1
    ensures prev <= 1 ==> next == 0
  {
    if prev <= 1 then 0 else prev - 1
  }

  /** The value after `k` firings. */
  function After(v: int, k: nat): int
    decreases k
  {
    if k == 0 then v else After(Step(v), k - 1)
  }

  /** After `k >= 1` firings the value is `v - k`, but never below zero. */
  lemma {:induction false} AfterValue(v: int, k: nat)
    requires k >= 1
    ensures After(v, k) == if v - k > 0 then v - k else 0
    decreases k
  {
    if k > 1 {
      AfterValue(Step(v), k - 1);
    }
  }

  /** From a start value `v >= 1` the countdown is at 0 after exactly `v` firings and
      not before: the `k`-th firing is the one that finds the value at most 1. */
  lemma ReachesZeroAfterExactly(v: int, k: nat)
    requires v >= 1
    ensures After(v, k) == 0 <==> k >= v
    ensures k < v ==> After(v, k) == v - k
  {
    if k >= 1 {
      AfterValue(v, k);
    }
  }

  /** The value never goes up once it is non-negative, and never becomes negative. */
  lemma {:induction false} AfterMonotone(v: int, j: nat, k: nat)
    requires v >= 0 && j <= k
    ensures 0 <= After(v, k) <= After(v, j) <= v
  {
    if j >= 1 {
      AfterValue(v, j);
      AfterValue(v, k);
    } else if k >= 1 {
      AfterValue(v, k);
    }
  }
}
