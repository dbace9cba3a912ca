/** Reconnect backoff of the event subscription loop. */
module Backoff {
  import opened Schema

  const BASE: int := SECOND
  const CAP: int := 30 * SECOND
  const SAFE_MAX_ATTEMPT := 30

  function Pow2(k: nat): (r: int)
    ensures r >= 1
  {
    if k == 0 then 1 else 2 * Pow2(k - 1)
  }

  /** Two's-complement reduction to 64 bits. */
  function Wrap64(x: int): int {
    (x + 0x8000_0000_0000_0000) % 0x1_0000_0000_0000_0000 - 0x8000_0000_0000_0000
  }

  lemma WrapIsExact(x: int)
    requires 0 <= x < 0x8000_0000_0000_0000
    ensures Wrap64(x) == x
  {
  }

  function ShiftLeft64(x: int, k: nat): int {
    Wrap64(x * Pow2(k))
  }

  function Min(a: int, b: int): int {
    if a < b then a else b
  }

  /** computeBackoff with the default base and cap. */
  function ComputeBackoff(attempt: int): int {
    var a := if attempt < 1 then 1 else attempt;
    if a > SAFE_MAX_ATTEMPT then CAP
    else
      var b := ShiftLeft64(BASE, a - 1);
      if b > CAP || b <= 0 then CAP else b
  }

  lemma {:induction false} Pow2Monotone(a: nat, b: nat)
    requires a <= b
    ensures Pow2(a) <= Pow2(b)
    decreases b
  {
    if a < b {
      Pow2Monotone(a, b - 1);
    }
  }

  lemma Pow2At29()
    ensures Pow2(5) == 32 && Pow2(29) == 0x2000_0000
  {
    assert Pow2(10) == 1024 by { assert Pow2(5) == 32; }
    assert Pow2(20) == 0x10_0000 by { assert Pow2(15) == 0x8000; }
    assert Pow2(29) == 0x2000_0000 by { assert Pow2(25) == 0x200_0000; }
  }

  /** The shift never overflows below the guard, so every backoff is the exact capped power of two. */
  lemma BackoffExact(attempt: nat)
    requires attempt >= 1
    ensures ComputeBackoff(attempt) == Min(BASE * Pow2(attempt - 1), CAP)
    ensures attempt <= SAFE_MAX_ATTEMPT ==> ShiftLeft64(BASE, attempt - 1) == BASE * Pow2(attempt - 1)
    ensures 0 < ComputeBackoff(attempt) <= CAP
  {
    Pow2At29();
    var p := Pow2(attempt - 1);
    if attempt <= SAFE_MAX_ATTEMPT {
      Pow2Monotone(attempt - 1, 29);
      WrapIsExact(BASE * p);
    } else {
      Pow2Monotone(5, attempt - 1);
    }
  }

  /** In seconds: 1, 2, 4, 8, 16, and 30 from then on; before the first attempt as for the first. */
  lemma BackoffInSeconds(attempt: int)
    ensures ComputeBackoff(attempt)
            == 1_000_000_000 * if attempt <= 1 then 1 else if attempt == 2 then 2 else if attempt == 3 then 4
                               else if attempt == 4 then 8 else if attempt == 5 then 16 else 30
  {
    if attempt > 5 {
      BackoffExact(attempt);
      Pow2At29();
      Pow2Monotone(5, attempt - 1);
    } else if attempt >= 1 {
      BackoffExact(attempt);
      assert Pow2(1) == 2 && Pow2(2) == 4 && Pow2(3) == 8 && Pow2(4) == 16;
    } else {
      BackoffExact(1);
    }
  }

  lemma BackoffNondecreasing(a: nat, b: nat)
    requires 1 <= a <= b
    ensures ComputeBackoff(a) <= ComputeBackoff(b)
  {
    BackoffExact(a);
    BackoffExact(b);
    Pow2Monotone(a - 1, b - 1);
  }

  /** The position of drain `i` counted from the latest productive drain, that one included, or from boot. */
  function SinceProductive(handled: seq<nat>, i: nat): (k: nat)
    requires i < |handled|
    ensures 1 <= k <= i + 1
  {
    if handled[i] > 0 || i == 0 then 1 else SinceProductive(handled, i - 1) + 1
  }

  /** The count reaches back to a productive drain or to boot, over unproductive ones only. */
  lemma {:induction false} SinceProductiveMeans(handled: seq<nat>, i: nat)
    requires i < |handled|
    ensures var first := i + 1 - SinceProductive(handled, i);
            (first == 0 || handled[first] > 0) && forall j :: first < j <= i ==> handled[j] == 0
  {
    if handled[i] == 0 && i > 0 {
      SinceProductiveMeans(handled, i - 1);
    }
  }

  /** The sleep the schedule promises after drain `i`. */
  function Promised(handled: seq<nat>, i: nat): int
    requires i < |handled|
  {
    Min(BASE * Pow2(SinceProductive(handled, i) - 1), CAP)
  }

  /** eventsLoop: `handled[i]` events were drained from the i-th subscription before it broke. */
  method EventsLoop(handled: seq<nat>) returns (sleeps: seq<int>)
    ensures |sleeps| == |handled|
    ensures forall i :: 0 <= i < |handled| ==> sleeps[i] == Promised(handled, i)
  {
    sleeps := [];
    var attempt := 0;
    for i := 0 to |handled|
      invariant |sleeps| == i
      invariant attempt == if i == 0 then 0 else SinceProductive(handled, i - 1)
      invariant forall j :: 0 <= j < i ==> sleeps[j] == Promised(handled, j)
    {
      if handled[i] > 0 {
        attempt := 0;
      }
      attempt := attempt + 1;
      PromisedIsBackoff(handled, i);
      sleeps := sleeps + [ComputeBackoff(attempt)];
    }
  }

  lemma PromisedIsBackoff(handled: seq<nat>, i: nat)
    requires i < |handled|
    ensures Promised(handled, i) == ComputeBackoff(SinceProductive(handled, i))
    ensures 0 < Promised(handled, i) <= CAP
  {
    BackoffExact(SinceProductive(handled, i));
  }

  /** Between productive drains the sleeps never shrink. */
  lemma {:induction false} SleepsClimb(handled: seq<nat>, i: nat, j: nat)
    requires i <= j < |handled|
    requires forall k :: i < k <= j ==> handled[k] == 0
    ensures SinceProductive(handled, j) == SinceProductive(handled, i) + (j - i)
    ensures Promised(handled, i) <= Promised(handled, j)
    decreases j
  {
    if i < j {
      SleepsClimb(handled, i, j - 1);
    }
    PromisedIsBackoff(handled, i);
    PromisedIsBackoff(handled, j);
    BackoffNondecreasing(SinceProductive(handled, i), SinceProductive(handled, j));
  }
}
