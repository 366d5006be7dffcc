/** Failure-compatible wrappers shared by every module of the model.
    A C++ exception (`runtime_error` with a message) is modelled as `Failure(message)`;
    a step whose C++ behaviour is undefined (an out-of-range read, a stack underflow)
    is modelled as `Undefined`. */
module Wrappers {

  datatype Option<+T> = None | Some(value: T) {
    predicate IsFailure() { None? }

    function PropagateFailure<U>(): Option<U>
      requires None?
    {
      None
    }

    function Extract(): T
      requires Some?
    {
      value
    }

    function GetOr(default: T): T {
      match this
      case Some(v) => v
      case None => default
    }
  }

  datatype Result<+T> = Success(value: T) | Failure(error: string) {
    predicate IsFailure() { Failure? }

    function PropagateFailure<U>(): Result<U>
      requires Failure?
    {
      Failure(error)
    }

    function Extract(): T
      requires Success?
    {
      value
    }
  }

  /** Either a defined value, or the C++ code has undefined behaviour on this input. */
  datatype Behaviour<+T> = Defined(value: T) | Undefined {
    predicate IsFailure() { Undefined? }

    function PropagateFailure<U>(): Behaviour<U>
      requires Undefined?
    {
      Undefined
    }

    function Extract(): T
      requires Defined?
    {
      value
    }
  }

  /** The outcome of an operation whose C++ loop may run unboundedly: it returns, throws,
      has undefined behaviour, or did not finish within the fuel the model was given. */
  datatype Outcome<+T> = Returned(value: T) | Threw(error: string) | Crashed | OutOfFuel {
    predicate IsFailure() { !Returned? }

    function PropagateFailure<U>(): Outcome<U>
      requires !Returned?
    {
      match this
      case Threw(e) => Threw(e)
      case Crashed => Crashed
      case OutOfFuel => OutOfFuel
    }

    function Extract(): T
      requires Returned?
    {
      value
    }
  }
}
