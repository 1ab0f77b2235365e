/** Failure-carrying results shared by every stage of the pipeline. */
module Outcomes {

  /** The value a stage produced, or the failure that stopped it. */
  datatype Result<+T, +E> = Success(value: T) | Failure(error: E)

  /**
   * An external service's answer: its value, or the message of the
   * exception it raised.
   */
  type Reply<T> = Result<T, string>
}
