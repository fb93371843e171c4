/** Failure-carrying values shared by the whole model.

    The C# code signals failures with exceptions; the model returns them as values.
    `Fault` names the exception kinds the modelled code can raise. */
module Wrappers {

  datatype Option<+T> = None | Some(value: T)

  /** The exceptions the modelled code can raise. */
  datatype Fault =
    | ArgumentFault        // ArgumentException (gradient with fewer than two colours)
    | ArgumentOutOfRange   // List indexer or Enumerable.ElementAt past the end
    | IndexOutOfRange      // array indexer past the end
    | InvalidOperation     // Max()/First() of an empty sequence, Single() without exactly one match
    | KeyNotFound          // Dictionary indexer with a missing key
    | NullReference        // member access on a null reference
    | Overflow             // Convert.ToInt32/ToInt64 of a value outside the integer range, or of NaN/infinity
    | SamplingFailed       // the operating system counter refused a sample

  /** A state step that may be cut short by an exception: the state holds every write made
      before the throw, `fault` the exception that escaped, if any. */
  datatype Outcome<+S> = Outcome(state: S, fault: Option<Fault>)

  datatype Result<+T> = Ok(value: T) | Err(fault: Fault) {
    predicate IsFailure() {
      Err?
    }

    function PropagateFailure<U>(): Result<U>
      requires Err?
    {
      Err(fault)
    }

    function Extract(): T
      requires Ok?
    {
      value
    }
  }
}
