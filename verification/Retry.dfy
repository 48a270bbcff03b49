/** Retrying a call with exponential backoff and jitter, in 64-bit nanoseconds. */
module Retry {
  import opened Ordering

  const INT64_MAX: int := 0x7fff_ffff_ffff_ffff
  const TWO64: int := 0x1_0000_0000_0000_0000

  /** The 64-bit two's-complement value of `x`. */
  function Wrap(x: int): (w: int)
    ensures -INT64_MAX - 1 <= w <= INT64_MAX
  {
    var m := x % TWO64;
    if m <= INT64_MAX then m else m - TWO64
  }

  /** Wrapping changes a value by a multiple of 2^64. */
  lemma WrapMeans(x: int)
    ensures (Wrap(x) - x) % TWO64 == 0
  {
  }

  /** Division as the hardware does it: towards zero. */
  function Half(x: int): (h: int)
    ensures if x >= 0 then 2 * h <= x <= 2 * h + 1 else 2 * h - 1 <= x <= 2 * h
  {
    if x >= 0 then x / 2 else -(-x / 2)
  }

  function Power2(n: nat): (p: nat)
    ensures p > 0
  {
    if n == 0 then 1 else 2 * Power2(n - 1)
  }

  /** The base delay before retry `n`, doubled in place with wrap-around. */
  function Delay(initial: int, n: nat): int {
    if n == 0 then initial else Wrap(2 * Delay(initial, n - 1))
  }

  datatype Outcome = Done(out: string) | Exhausted(attempts: int, last: string) | Cancelled | Panicked

  /** The wrapped call; it may answer anything, and keeps its answers. */
  class Inner {
    var answers: seq<Result<string, string>>

    constructor ()
      ensures answers == []
    {
      answers := [];
    }

    method Call() returns (r: Result<string, string>)
      modifies this
      ensures answers == old(answers) + [r]
    {
      r := *;
      answers := answers + [r];
    }
  }

  function Attempts(attempts: int): int {
    if attempts < 1 then 1 else attempts
  }

  function Initial(initial: int): int {
    if initial <= 0 then 100_000_000 else initial
  }

  /** Every requested sleep is the base delay and less than half of it again. */
  ghost predicate Backoff(sleeps: seq<int>, initial: int) {
    forall n: nat | n < |sleeps| :: Slept(Delay(initial, n), sleeps[n])
  }

  ghost predicate Slept(delay: int, sleep: int) {
    exists jitter :: Jittered(delay, jitter, sleep)
  }

  ghost predicate Jittered(delay: int, jitter: int, sleep: int) {
    0 <= jitter < Half(delay) && sleep == Wrap(delay + jitter)
  }

  ghost predicate AllFailed(answers: seq<Result<string, string>>) {
    forall a | a in answers :: a.Err?
  }

  /**
   * What a call to the wrapper comes to, given the answers the inner calls gave: they stop at the first
   * success or after `attempts`, or at a cancelled sleep, or where the jitter has no room.
   */
  ghost predicate Retried(
    attempts: int, initial: int, interruptible: bool, answers: seq<Result<string, string>>, sleeps: seq<int>,
    r: Outcome)
  {
    && 0 < |answers| <= attempts && AllFailed(answers[..|answers| - 1])
    && var last, k := answers[|answers| - 1], |answers|;
      match r
      case Done(out) => last == Ok(out) && |sleeps| == k - 1
      case Exhausted(n, text) => n == attempts == k && last == Err(text) && |sleeps| == k - 1
      case Cancelled => interruptible && k < attempts && last.Err? && |sleeps| == k
      case Panicked => k < attempts && last.Err? && |sleeps| == k - 1 && Half(Delay(initial, k - 1)) <= 0
  }

  /** `sleeps` are the durations the wrapper asked to sleep. */
  method WithRetry(attempts: int, initial: int, inner: Inner, interruptible: bool)
    returns (r: Outcome, sleeps: seq<int>)
    requires initial <= INT64_MAX
    modifies inner
    ensures old(inner.answers) <= inner.answers
    ensures var limit, first := if attempts < 1 then 1 else attempts, if initial <= 0 then 100_000_000 else initial;
      && Retried(limit, first, interruptible, inner.answers[|old(inner.answers)|..], sleeps, r)
      && Backoff(sleeps, first)
  {
    hide Delay, Half, Wrap;
    var limit := Attempts(attempts);
    var delay := Initial(initial);
    sleeps := [];
    FirstDelay(delay);
    ghost var answers := [];
    var i := 0;
    while i < limit
      invariant 0 <= i < limit
      invariant inner.answers == old(inner.answers) + answers && AllFailed(answers)
      invariant |answers| == i == |sleeps|
      invariant delay == Delay(Initial(initial), i) && Backoff(sleeps, Initial(initial))
    {
      var out := inner.Call();
      answers := answers + [out];
      assert inner.answers[|old(inner.answers)|..] == answers && answers[..i] + [out] == answers;
      if out.Ok? {
        return Done(out.value), sleeps;
      }
      if i == limit - 1 {
        return Exhausted(limit, out.error), sleeps;
      }
      if Half(delay) <= 0 {
        return Panicked, sleeps;
      }
      var jitter := Random(Half(delay));
      OneMoreSleep(sleeps, Initial(initial), jitter);
      sleeps := sleeps + [Wrap(delay + jitter)];
      var done: bool := *;
      if interruptible && done {
        return Cancelled, sleeps;
      }
      NextDelay(Initial(initial), i);
      delay := Wrap(2 * delay);
      i := i + 1;
    }
  }

  method Random(n: int) returns (x: int)
    requires n > 0
    ensures 0 <= x < n
  {
    x := *;
    if x < 0 || x >= n {
      x := 0;
    }
  }

  lemma FirstDelay(initial: int)
    ensures Delay(initial, 0) == initial
  {
  }

  lemma NextDelay(initial: int, n: nat)
    ensures Delay(initial, n + 1) == Wrap(2 * Delay(initial, n))
  {
  }

  lemma OneMoreSleep(sleeps: seq<int>, initial: int, jitter: int)
    requires Backoff(sleeps, initial) && 0 <= jitter < Half(Delay(initial, |sleeps|))
    ensures Backoff(sleeps + [Wrap(Delay(initial, |sleeps|) + jitter)], initial)
  {
    var more := sleeps + [Wrap(Delay(initial, |sleeps|) + jitter)];
    assert Jittered(Delay(initial, |sleeps|), jitter, more[|sleeps|]);
    forall n: nat | n < |more| ensures Slept(Delay(initial, n), more[n]) {
      if n < |sleeps| {
        assert Slept(Delay(initial, n), sleeps[n]);
      }
    }
  }

  // ----- When the delays stay sound -----

  /** Without overflow the delay is the initial delay doubled each time. */
  lemma {:induction false} DelayDoubles(initial: int, n: nat)
    requires 0 < initial && initial * Power2(n) <= INT64_MAX
    ensures Delay(initial, n) == initial * Power2(n)
  {
    if n == 0 {
    } else {
      Doubled(initial, n);
      DelayDoubles(initial, n - 1);
      WrapIs(initial * Power2(n));
    }
  }

  lemma WrapIs(x: int)
    requires 0 <= x <= INT64_MAX
    ensures Wrap(x) == x
  {
  }

  lemma Doubled(initial: int, n: nat)
    requires n > 0 && initial > 0
    ensures initial * Power2(n) == 2 * (initial * Power2(n - 1)) && initial * Power2(n) > 0
  {
    var p := Power2(n - 1);
    assert initial * (2 * p) == 2 * (initial * p);
    Positive(initial, Power2(n));
  }

  lemma Positive(x: int, y: int)
    requires x > 0 && y > 0
    ensures x * y > 0
  {
  }

  lemma NoDoubling(initial: int)
    ensures initial * Power2(0) == initial
  {
  }

  lemma WrapsNegative(x: int)
    requires 0 <= x <= INT64_MAX < 2 * x
    ensures Wrap(2 * x) < 0
  {
  }

  /** The first doubling that overflows gives a negative delay. */
  lemma {:induction false} FirstOverflow(initial: int, n: nat)
    requires 0 < initial <= INT64_MAX < initial * Power2(n)
    ensures exists m: nat :: m <= n && Delay(initial, m) < 0
  {
    hide Power2, Wrap, Delay;
    NoDoubling(initial);
    Doubled(initial, n);
    if initial * Power2(n - 1) > INT64_MAX {
      FirstOverflow(initial, n - 1);
      var m: nat :| m <= n - 1 && Delay(initial, m) < 0;
      assert m <= n;
    } else {
      DelayDoubles(initial, n - 1);
      NextDelay(initial, n - 1);
      WrapsNegative(initial * Power2(n - 1));
      assert Delay(initial, n) < 0;
    }
  }

  /** Some answers of the inner call make the wrapper panic. */
  ghost predicate CanPanic(attempts: int, initial: int) {
    exists answers, sleeps :: PanicsWith(attempts, initial, answers, sleeps)
  }

  ghost predicate PanicsWith(attempts: int, initial: int, answers: seq<Result<string, string>>, sleeps: seq<int>) {
    Retried(attempts, initial, false, answers, sleeps, Panicked) && Backoff(sleeps, initial)
  }

  /** The jitter has room before every retry. */
  ghost predicate Roomy(attempts: int, initial: int) {
    forall n: nat | n < attempts - 1 :: Half(Delay(initial, n)) > 0
  }

  /** The wrapper can panic exactly when some retry leaves the jitter no room. */
  lemma CanPanicMeans(attempts: int, initial: int)
    requires attempts >= 1
    ensures CanPanic(attempts, initial) <==> !Roomy(attempts, initial)
  {
    if CanPanic(attempts, initial) {
      var answers, sleeps :| PanicsWith(attempts, initial, answers, sleeps);
      assert Half(Delay(initial, |answers| - 1)) <= 0;
    }
    if !Roomy(attempts, initial) {
      var n: nat :| n < attempts - 1 && Half(Delay(initial, n)) <= 0;
      PanicsBy(attempts, initial, n);
    }
  }

  /** Failing up to the first retry without room, with no jitter before, panics. */
  lemma {:induction false} PanicsBy(attempts: int, initial: int, n: nat)
    requires n < attempts - 1 && Half(Delay(initial, n)) <= 0
    ensures CanPanic(attempts, initial)
    decreases n
  {
    hide Delay, Half, CanPanic;
    if m: nat :| m < n && Half(Delay(initial, m)) <= 0 {
      PanicsBy(attempts, initial, m);
    } else {
      PanicsFirst(attempts, initial, n);
    }
  }

  lemma PanicsFirst(attempts: int, initial: int, n: nat)
    requires n < attempts - 1 && Half(Delay(initial, n)) <= 0
    requires forall m: nat | m < n :: Half(Delay(initial, m)) > 0
    ensures CanPanic(attempts, initial)
  {
    hide Delay, Half, Wrap;
    var answers := seq(n + 1, _ => Err(""));
    var sleeps := seq(n, i requires 0 <= i < n => Wrap(Delay(initial, i)));
    forall i: nat | i < n ensures Slept(Delay(initial, i), sleeps[i]) {
      assert Jittered(Delay(initial, i), 0, sleeps[i]);
    }
    assert PanicsWith(attempts, initial, answers, sleeps);
  }

  /**
   * The wrapper can panic exactly when it may retry and the initial delay is below two nanoseconds or
   * the last doubling overflows.
   */
  lemma PanicsExactly(attempts: int, initial: int)
    requires attempts >= 1 && 0 < initial <= INT64_MAX
    ensures CanPanic(attempts, initial) <==>
            attempts >= 2 && (initial < 2 || initial * Power2(attempts - 2) > INT64_MAX)
  {
    CanPanicMeans(attempts, initial);
    RoomyExactly(attempts, initial);
  }

  /** One nanosecond and a second attempt are enough. */
  lemma OneNanosecondPanics()
    ensures PanicsWith(2, 1, [Err("refused")], [])
  {
    assert Delay(1, 0) == 1;
  }

  lemma RoomyExactly(attempts: int, initial: int)
    requires attempts >= 1 && 0 < initial <= INT64_MAX
    ensures Roomy(attempts, initial) <==>
            attempts == 1 || (initial >= 2 && initial * Power2(attempts - 2) <= INT64_MAX)
  {
    if attempts > 1 {
      if initial < 2 {
        assert Half(Delay(initial, 0)) == 0;
      } else if initial * Power2(attempts - 2) > INT64_MAX {
        FirstOverflow(initial, attempts - 2);
        var m: nat :| m <= attempts - 2 && Delay(initial, m) < 0;
        assert Half(Delay(initial, m)) <= 0;
      } else {
        forall n: nat | n < attempts - 1 ensures Half(Delay(initial, n)) > 0 {
          PowerGrows(n, attempts - 2);
          Grows(initial, Power2(n), Power2(attempts - 2));
          DelayDoubles(initial, n);
          Grows(initial, 1, Power2(n));
        }
      }
    }
  }

  lemma Grows(x: int, a: int, b: int)
    requires x > 0 && a <= b
    ensures x * a <= x * b
  {
  }

  lemma {:induction false} PowerGrows(n: nat, m: nat)
    requires n <= m
    ensures Power2(n) <= Power2(m)
  {
    if n == m {
    } else {
      PowerGrows(n, m - 1);
    }
  }

  // ----- How long it sleeps -----

  function Sum(xs: seq<int>): int {
    if xs == [] then 0 else Sum(xs[..|xs| - 1]) + xs[|xs| - 1]
  }

  /**
   * Sleeping `n` times takes between initial*(2^n - 1) and half as much again, if the longest possible
   * sleep fits in 64 bits.
   */
  lemma {:induction false} BackoffBounds(sleeps: seq<int>, initial: int)
    requires initial >= 2 && Backoff(sleeps, initial)
    requires |sleeps| > 0 ==> 3 * (initial * Power2(|sleeps| - 1)) <= 2 * INT64_MAX
    ensures var total := initial * (Power2(|sleeps|) - 1);
      total <= Sum(sleeps) && (if sleeps == [] then Sum(sleeps) == 0 else 2 * Sum(sleeps) < 3 * total)
  {
    if sleeps == [] {
      assert Power2(0) == 1;
    } else {
      hide Backoff, Delay, Half, Wrap;
      var n := |sleeps| - 1;
      LastSleep(sleeps, initial);
      if n > 0 {
        Doubled(initial, n);
      }
      Shorter(sleeps, initial);
      BackoffBounds(sleeps[..n], initial);
      Split(initial, Power2(n));
    }
  }

  lemma Shorter(sleeps: seq<int>, initial: int)
    requires Backoff(sleeps, initial) && sleeps != []
    ensures Backoff(sleeps[..|sleeps| - 1], initial)
  {
    forall n: nat | n < |sleeps| - 1 ensures Slept(Delay(initial, n), sleeps[..|sleeps| - 1][n]) {
      assert Slept(Delay(initial, n), sleeps[n]);
    }
  }

  lemma LastSleep(sleeps: seq<int>, initial: int)
    requires sleeps != [] && initial >= 2 && Backoff(sleeps, initial)
    requires 3 * (initial * Power2(|sleeps| - 1)) <= 2 * INT64_MAX
    ensures var base := initial * Power2(|sleeps| - 1);
      0 < base <= sleeps[|sleeps| - 1] && 2 * sleeps[|sleeps| - 1] < 3 * base
  {
    var n := |sleeps| - 1;
    Positive(initial, Power2(n));
    DelayDoubles(initial, n);
    assert Slept(Delay(initial, n), sleeps[n]);
    var jitter :| Jittered(Delay(initial, n), jitter, sleeps[n]);
    WrapIs(initial * Power2(n) + jitter);
  }

  lemma Split(x: int, p: int)
    ensures x * (2 * p - 1) == x * (p - 1) + x * p
  {
  }

  /**
   * Uncancelled, with an initial delay of at least two nanoseconds and no overflow: the inner call is
   * made up to its first success or exactly `attempts` times, and for k calls the sleeps add up to at
   * least initial*(2^(k-1) - 1) and, for k > 1, less than half as much again.
   */
  lemma RetrySummary(attempts: int, initial: int, answers: seq<Result<string, string>>, sleeps: seq<int>, r: Outcome)
    requires attempts >= 1 && initial >= 2 && Backoff(sleeps, initial)
    requires attempts >= 2 ==> 3 * (initial * Power2(attempts - 2)) <= 2 * INT64_MAX
    requires Retried(attempts, initial, false, answers, sleeps, r)
    ensures r.Done? || (r.Exhausted? && |answers| == attempts && AllFailed(answers))
    ensures r.Done? <==> answers[|answers| - 1].Ok?
    ensures var k := |answers|;
      var total := initial * (Power2(k - 1) - 1);
      |sleeps| == k - 1 && total <= Sum(sleeps) && (k > 1 ==> 2 * Sum(sleeps) < 3 * total)
  {
    hide Delay, Wrap, Half, Backoff, Power2;
    NoDoubling(1);
    var k := |answers|;
    assert answers == answers[..k - 1] + [answers[k - 1]];
    if attempts >= 2 {
      Positive(initial, Power2(attempts - 2));
      RoomyExactly(attempts, initial);
      if k >= 2 {
        PowerGrows(k - 2, attempts - 2);
        Grows(initial, Power2(k - 2), Power2(attempts - 2));
      }
      if k < attempts {
        assert Half(Delay(initial, k - 1)) > 0;
      }
    }
    if k >= 2 {
      BackoffBounds(sleeps, initial);
    } else {
      NothingSlept(sleeps);
    }
  }

  lemma NothingSlept(sleeps: seq<int>)
    ensures sleeps == [] ==> Sum(sleeps) == 0
  {
  }
}
