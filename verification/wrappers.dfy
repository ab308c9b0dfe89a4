/** Failure-carrying values: `Option` for a statistic that may have nothing to report,
    `Result` for a load that the program would abort with an exception. */
module Wrappers {

  datatype Option<+T> = None | Some(value: T)

  datatype Result<+R, +E> = Success(value: R) | Failure(error: E)
}
