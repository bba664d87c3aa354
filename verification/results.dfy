/** Failure-carrying return values shared by the transportation model.
    Exceptions of the Java program become `Err` values here. */
module Results {

  /** An optional value; stands for a Java reference that may be null. */
  datatype Option<+T> = None | Some(value: T)

  /** Either a value or the failure that aborted the computation. */
  datatype Result<+T> = Ok(value: T) | Err(failure: Failure)

  /** The runtime failures the modelled Java code can raise. */
  datatype Failure =
    | ArrayIndexOutOfBounds
    | NullPointer
    | NumberFormat
    | ParseFailure(message: string)
}
