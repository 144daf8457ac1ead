/** What a call gives back: a value, or a revert. */
module Wrappers {
  /** None is a revert that carries no reason the model needs. */
  datatype Option<+T> = None | Some(value: T) {
    predicate IsFailure() {
      None?
    }

    function PropagateFailure<U>(): Option<U>
      requires None?
    {
      None
    }

    function Extract(): T
      requires Some?
    {
      value
    }

    function GetOr(default: T): T {
      if Some? then value else default
    }
  }

  /** A revert whose reason is part of the behaviour. */
  datatype Result<+T, +E> = Success(value: T) | Failure(error: E)

  /** Solidity's require. */
  function Require(condition: bool): Option<()> {
    if condition then Some(()) else None
  }
}
