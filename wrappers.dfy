/** Failure-compatible result types used by every module of the model. */
module Wrappers {

  datatype Option<+T> = None | Some(value: T)

  /** Either a value, or the reason the run stopped. */
  datatype Result<+R, +E> = Success(value: R) | Failure(error: E) {

    predicate IsFailure() {
      Failure?
    }

    function PropagateFailure<U>(): Result<U, E>
      requires Failure?
    {
      Failure(error)
    }

    function Extract(): R
      requires Success?
    {
      value
    }
  }
}

/** The ways a run of the classifier stops without producing a report. */
module Errors {

  datatype Abort =
      /** The combo name does not split on `---` into exactly two parts
          (the tuple unpacking of the split raises). */
    | MalformedName(name: string)
      /** No execution-log block mentions both the payload and the encoder. */
    | RecordNotFound(payload: string, encoder: string)
      /** The block holds `[-]` but no line has it followed by ` Exploit failed`. */
    | MarkerWithoutFailure(combo: string, block: string)
      /** The block holds `Exploit failed:` but no `[-]` at all. */
    | FailureWithoutMarker(combo: string, block: string)
}
