/**
 * The public entry point `XBackupApi`: a static, set-once slot holding the
 * running implementation. The slot is the field `instance` of `Instance`; an
 * implementation is any object (`null` when none is registered).
 */
module Api {
  import opened Wrappers

  /** `setInstance`'s `IllegalStateException("Instance already set")`. */
  datatype ApiError = InstanceAlreadySet

  /** A set is refused exactly when the slot is taken and the argument is not `null`. */
  predicate Refused(current: object?, arg: object?)
  {
    current != null && arg != null
  }

  /** The slot after `setInstance(arg)`: unchanged when refused, otherwise the argument. */
  function AfterSet(current: object?, arg: object?): (r: object?)
    ensures Refused(current, arg) ==> r == current
    ensures !Refused(current, arg) ==> r == arg
  {
    if Refused(current, arg) then current else arg
  }

  /** Once the slot holds an object, no later non-`null` set changes it. */
  lemma {:induction false} SetOnce(current: object?, sets: seq<object?>)
    requires current != null
    requires forall i :: 0 <= i < |sets| ==> sets[i] != null
    ensures Replay(current, sets) == current
    decreases |sets|
  {
    if sets != [] {
      SetOnce(current, sets[..|sets| - 1]);
    }
  }

  /** The slot after a run of `setInstance` calls, refused ones included. */
  function Replay(current: object?, sets: seq<object?>): object?
    decreases |sets|
  {
    if sets == [] then current else AfterSet(Replay(current, sets[..|sets| - 1]), sets[|sets| - 1])
  }

  /** `setInstance(null)` always succeeds and empties the slot, so a new set after it is taken. */
  lemma ClearThenSet(current: object?, arg: object?)
    ensures !Refused(current, null) && AfterSet(current, null) == null
    ensures !Refused(AfterSet(current, null), arg) && AfterSet(AfterSet(current, null), arg) == arg
  {
  }

  /** The static holder `Instance` with its one field. */
  class Instance {
    var instance: object?

    constructor()
      ensures instance == null
    {
      instance := null;
    }

    /** `getInstance`: the value last stored. */
    method GetInstance() returns (r: object?)
      ensures r == instance
    {
      r := instance;
    }

    /**
     * `setInstance`: throws when an instance is already set and the argument is not
     * `null`, leaving the slot alone; otherwise stores the argument and returns it.
     */
    method SetInstance(arg: object?) returns (r: Result<object?, ApiError>)
      modifies this
      ensures r.Failure? <==> Refused(old(instance), arg)
      ensures r.Failure? ==> r.error == InstanceAlreadySet
      ensures r.Success? ==> r.value == arg
      ensures instance == AfterSet(old(instance), arg)
    {
      if instance != null && arg != null {
        return Failure(InstanceAlreadySet);
      }
      instance := arg;
      r := Success(arg);
    }
  }
}
