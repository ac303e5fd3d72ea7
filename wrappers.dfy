/** Option and Result, plus the outcome of a call into a collaborator. */
module Wrappers {

  datatype Option<+T> = None | Some(value: T)

  datatype Result<+T, +E> = Success(value: T) | Failure(error: E)

  /** What an awaited call into code outside the controller did: it
      returned a value, or it threw. */
  datatype Call<+T> = Returned(value: T) | Threw
}
