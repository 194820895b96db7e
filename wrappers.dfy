/** Failure-compatible result types shared by the modules of the model. */
module Wrappers {

  datatype Option<+T> = None | Some(value: T)

  /** A computation that either yields a value or fails with an error. */
  datatype Result<+T, +E> = Success(value: T) | Failure(error: E) {

    predicate IsFailure() {
      Failure?
    }

    function PropagateFailure<U>(): Result<U, E>
      requires Failure?
    {
      Failure(error)
    }

    function Extract(): T
      requires Success?
    {
      value
    }
  }
}

/** The ways the page's resolution and range computation stop. Each one is
    an exception that the Python program raises and does not catch. */
module Faults {

  datatype Fault =
    | MarketTypeUnbound     // UnboundLocalError: no branch assigned the marketType query value
    | CompanyNotFound       // IndexError: the filtered code column is empty, so code[0] fails
    | TickerSymbolUnbound   // UnboundLocalError: the market flag has no ticker suffix
    | DateRangeIncomplete   // IndexError: the date picker returned fewer than two dates
    | DateOverflow          // OverflowError: the day after the last representable date
}
