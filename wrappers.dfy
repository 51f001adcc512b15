/** Failure-carrying results shared by every module of the model.
    Each `Failure` names the .NET exception (or null return) the source raises. */
module Wrappers {

  datatype Option<+T> = None | Some(value: T)

  /** The exceptions the modelled code can raise. */
  datatype Failure =
    | ArgumentNull          // ArgumentNullException
    | ArgumentOutOfRange    // ArgumentOutOfRangeException (negative index or position, bad submap index)
    | ArgumentInvalid       // ArgumentException from Array.Copy / Array.Reverse ranges
    | UnknownFormat         // ArgumentException "Could not translate to a known texture format."
    | FormatNotSupported    // Exceptions.BitmapFormatNotSupported
    | InvalidOperation      // InvalidOperationException (tag table populated twice)
    | NotASaberTexture      // Exceptions.NotASaberTextureItem
    | DivideByZero          // DivideByZeroException
    | Overflow              // OverflowException (an array of negative length)
    | IndexOutOfRange       // IndexOutOfRangeException (array element access)
    | EndOfStream           // EndOfStreamException / IOException (read past the end or before the start)
    | KeyNotFound           // KeyNotFoundException (dictionary lookup)

  /** Usable with `:-`: an `Err` propagates, an `Ok` yields its value. */
  datatype Result<+T> = Ok(value: T) | Err(error: Failure) {
    predicate IsFailure() {
      Err?
    }

    function PropagateFailure<U>(): Result<U>
      requires Err?
    {
      Err(error)
    }

    function Extract(): T
      requires Ok?
    {
      value
    }
  }
}
