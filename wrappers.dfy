/** Failure-carrying values shared by every module of the model. */
module Wrappers {

  datatype Option<+T> = None | Some(value: T)

  /** The exceptions the modelled JavaScript code can raise. */
  datatype Error =
    | TypeError(message: string)
    | RangeError(message: string)
    | GeneralError(message: string)

  datatype Result<+T> = Success(value: T) | Failure(error: Error)

  /** A JavaScript number as the model needs it: an integer, or NaN. */
  datatype Number = Num(n: int) | NaN {
    function Plus(other: Number): (r: Number)
      ensures r.NaN? <==> NaN? || other.NaN?
      ensures r.Num? ==> r.n == n + other.n
    {
      if Num? && other.Num? then Num(n + other.n) else NaN
    }
  }
}
