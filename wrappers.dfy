/** Failure-compatible results shared by every reader of the decoder. */
module Wrappers {

  /** The ways a decode can fail. Every failure aborts the whole decode. */
  datatype Error =
    | BufferUnderrun            // a read would run past the end of the buffer
    | UnsupportedQuantization   // a quantisation code the decoder does not implement
    | NegativeTrackCount        // the caller asked for a negative number of tracks
    | IndexOutOfRange           // an evaluation indexed past the knots or the weight buffer
    | NullChannel               // an evaluation of an axis the track does not have

  datatype Option<T> = None | Some(value: T)

  datatype Result<T> = Ok(value: T) | Err(error: Error) {
    predicate IsFailure() { Err? }

    function PropagateFailure<U>(): Result<U>
      requires Err?
    {
      Err(error)
    }

    function Extract(): T
      requires Ok?
    {
      value
    }
  }

  /** A value read from the buffer together with the cursor position after it. */
  datatype Parsed<T> = Parsed(value: T, pos: nat)

  /** Pairs what a reading method returned with where it left the cursor,
      so that the method can be compared with the function that specifies it. */
  function Step<T>(res: Result<T>, pos: nat): Result<Parsed<T>> {
    match res
    case Ok(v) => Ok(Parsed(v, pos))
    case Err(e) => Err(e)
  }
}
