/** Outcomes of the shuffler's operations: a value, or the condition the Java code raises. */
module Outcomes {

  /** The exceptional outcomes of the Java code, plus the attempt bound the model adds. */
  datatype Failure =
    | InvalidInput       // InvalidInputException: the input is not over ACGT (or too short)
    | IllegalState       // IllegalStateException: a list ran out of edges, or a removal failed
    | NullPointer        // NullPointerException: a letter that is not a key of the edge map
    | AttemptsExhausted  // the rejection sampling loop used up its attempt bound

  datatype Result<T> = Ok(value: T) | Err(failure: Failure)
}
