/** Failure-carrying results, standing in for the exceptions the viewer's
    library calls raise. */
module Wrappers {

  datatype Result<+T, +E> = Success(value: T) | Failure(error: E)

}
