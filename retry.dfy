/**
 * The two `retry` helpers: the shared one in the common module, which honours
 * `DontRetryException`, and the private one of the core service, which rethrows
 * the last failure. A call of the wrapped block is modelled by its outcome on the
 * k-th attempt, `attempt(k)`; the delay between attempts and the logging are not
 * modelled.
 */
module Retry {
  import opened Wrappers

  /** Throwables as far as the callers of `retry` tell them apart. */
  datatype Throwable =
    | Thrown(kind: string)
    | DontRetryException(cause: Throwable)
    | RetryFailed(last: Option<Throwable>)   // RuntimeException("Retry failed", lastException)
    | NullPointer                             // `lastException!!` on null

  /** The outcome of one call of a block: a value or a throwable. */
  datatype Call<T> = Returns(value: T) | Throws(error: Throwable)

  /** An attempt that the common `retry` does not retry after. */
  predicate Stops<T>(c: Call<T>)
  {
    c.Returns? || c.error.DontRetryException?
  }

  /** The outcome of the common `retry(times)` from attempt `i` on, `last` the failure recorded so far. */
  function CommonOutcome<T>(attempt: nat -> Call<T>, times: int, i: nat, last: Option<Throwable>): Call<T>
    decreases times - i
  {
    if i >= times then Throws(RetryFailed(last))
    else match attempt(i)
      case Returns(v) => Returns(v)
      case Throws(DontRetryException(cause)) => Throws(cause)
      case Throws(e) => CommonOutcome(attempt, times, i + 1, Some(e))
  }

  /** The number of attempts the common `retry(times)` makes from attempt `i` on. */
  function CommonCalls<T>(attempt: nat -> Call<T>, times: int, i: nat): nat
    decreases times - i
  {
    if i >= times then 0
    else if Stops(attempt(i)) then 1
    else 1 + CommonCalls(attempt, times, i + 1)
  }

  /** The common `retry` (Utils.kt): `repeat(times)`, return on success, unwrap `DontRetryException`. */
  method CommonRetry<T>(attempt: nat -> Call<T>, times: int) returns (r: Call<T>, calls: nat)
    ensures r == CommonOutcome(attempt, times, 0, None)
    ensures calls == CommonCalls(attempt, times, 0)
  {
    var last: Option<Throwable> := None;
    var i: nat := 0;
    while i < times
      invariant CommonOutcome(attempt, times, 0, None) == CommonOutcome(attempt, times, i, last)
      invariant CommonCalls(attempt, times, 0) == i + CommonCalls(attempt, times, i)
      invariant i > 0 ==> last.Some?
      decreases times - i
    {
      var c := attempt(i);
      match c {
        case Returns(v) =>
          return Returns(v), i + 1;
        case Throws(e) =>
          if e.DontRetryException? {
            return Throws(e.cause), i + 1;
          }
          last := Some(e);
      }
      i := i + 1;
    }
    r, calls := Throws(RetryFailed(last)), i;
  }

  /**
   * The common `retry` succeeds exactly when some attempt returns before any attempt
   * stops it otherwise, and it then returns that attempt's value.
   */
  lemma {:induction false} CommonSucceedsIff<T>(attempt: nat -> Call<T>, times: int, i: nat, last: Option<Throwable>)
    ensures CommonOutcome(attempt, times, i, last).Returns? <==>
      exists k :: i <= k < times && attempt(k).Returns? &&
        forall j :: i <= j < k ==> !Stops(attempt(j))
    ensures forall k :: i <= k < times && attempt(k).Returns? && (forall j :: i <= j < k ==> !Stops(attempt(j))) ==>
      CommonOutcome(attempt, times, i, last) == attempt(k)
    decreases times - i
  {
    if i < times && !Stops(attempt(i)) {
      CommonSucceedsIff(attempt, times, i + 1, Some(attempt(i).error));
      var later := exists k :: (i + 1 <= k < times && attempt(k).Returns? &&
        forall j :: i + 1 <= j < k ==> !Stops(attempt(j)));
      if later {
        var k :| i + 1 <= k < times && attempt(k).Returns? && forall j :: i + 1 <= j < k ==> !Stops(attempt(j));
        assert forall j :: i <= j < k ==> !Stops(attempt(j));
      }
      forall k | i <= k < times && attempt(k).Returns? && (forall j :: i <= j < k ==> !Stops(attempt(j)))
        ensures CommonOutcome(attempt, times, i, last) == attempt(k)
      {
        assert k != i;
      }
    } else if i < times {
      forall k | i <= k < times && attempt(k).Returns? && (forall j :: i <= j < k ==> !Stops(attempt(j)))
        ensures CommonOutcome(attempt, times, i, last) == attempt(k)
      {
        assert k == i;
      }
    }
  }

  /** The common `retry` never makes more than `times` attempts, and stops right after an attempt that stops it. */
  lemma {:induction false} CommonBounds<T>(attempt: nat -> Call<T>, times: int, i: nat)
    requires i <= times
    ensures CommonCalls(attempt, times, i) <= times - i
    ensures forall k :: i <= k < i + CommonCalls(attempt, times, i) - 1 ==> !Stops(attempt(k))
    decreases times - i
  {
    if i < times && !Stops(attempt(i)) {
      CommonBounds(attempt, times, i + 1);
    }
  }

  /** With every attempt failing, `retry(times)` makes all `times` attempts and reports the last failure. */
  lemma {:induction false} CommonAllFail<T>(attempt: nat -> Call<T>, times: int, i: nat, last: Option<Throwable>)
    requires i < times
    requires forall k :: i <= k < times ==> !Stops(attempt(k))
    ensures !Stops(attempt(times - 1))
    ensures CommonOutcome(attempt, times, i, last) == Throws(RetryFailed(Some(attempt(times - 1).error)))
    decreases times - i
  {
    if i + 1 < times {
      CommonAllFail(attempt, times, i + 1, Some(attempt(i).error));
    }
  }

  /** The outcome of the core service's private `retry(times)` from attempt `i` on. */
  function CoreOutcome<T>(attempt: nat -> Call<T>, times: int, i: nat, last: Option<Throwable>): Call<T>
    decreases times - i
  {
    if i >= times then
      (if last.Some? then Throws(last.value) else Throws(NullPointer))
    else match attempt(i)
      case Returns(v) => Returns(v)
      case Throws(e) => CoreOutcome(attempt, times, i + 1, Some(e))
  }

  /** The core service's `retry`: every throwable is retried, and `lastException!!` is thrown at the end. */
  method CoreRetry<T>(attempt: nat -> Call<T>, times: int) returns (r: Call<T>)
    ensures r == CoreOutcome(attempt, times, 0, None)
  {
    var last: Option<Throwable> := None;
    var i: nat := 0;
    while i < times
      invariant CoreOutcome(attempt, times, 0, None) == CoreOutcome(attempt, times, i, last)
      decreases times - i
    {
      var c := attempt(i);
      if c.Returns? {
        return c;
      }
      last := Some(c.error);
      i := i + 1;
    }
    if last.Some? {
      r := Throws(last.value);
    } else {
      r := Throws(NullPointer);
    }
  }

  /**
   * The core `retry` either returns the first successful attempt's value, every
   * attempt before it having thrown, or rethrows the failure of the last attempt;
   * it returns whenever some attempt below `times` returns. With `times <= 0` it
   * makes no attempt and `lastException!!` throws a null-pointer exception.
   */
  lemma {:induction false} CoreOutcomeCases<T>(attempt: nat -> Call<T>, times: int, i: nat, last: Option<Throwable>)
    requires i <= times || last.None?
    requires i > 0 && i <= times ==> last.Some?
    ensures var r := CoreOutcome(attempt, times, i, last);
      (r.Returns? ==> exists k :: i <= k < times && attempt(k) == r && forall j :: i <= j < k ==> attempt(j).Throws?) &&
      ((exists k :: i <= k < times && attempt(k).Returns?) ==> r.Returns?) &&
      (r.Throws? && i < times ==> r == attempt(times - 1)) &&
      (times <= i ==> r == if last.Some? then Throws(last.value) else Throws(NullPointer))
    decreases times - i
  {
    if i < times && attempt(i).Throws? {
      CoreOutcomeCases(attempt, times, i + 1, Some(attempt(i).error));
      var r := CoreOutcome(attempt, times, i, last);
      if r.Returns? {
        var k :| i + 1 <= k < times && attempt(k) == r && forall j :: i + 1 <= j < k ==> attempt(j).Throws?;
        assert forall j :: i <= j < k ==> attempt(j).Throws?;
      }
      if exists k :: i <= k < times && attempt(k).Returns? {
        var k :| i <= k < times && attempt(k).Returns?;
        assert k != i;
      }
    } else if i < times {
      assert attempt(i) == CoreOutcome(attempt, times, i, last);
    }
  }
}
