/** Outcomes of the capture pipeline: a value, or the exception the JVM would raise. */
module Results {

  datatype Option<+T> = None | Some(value: T)

  /** The exceptions the modelled code can raise. */
  datatype Error =
      /** `subSequence(0, end)` on a string of only `length` characters. */
    | StringIndexOutOfBounds(end: nat, length: nat)
      /** A file cannot be opened for writing because a directory holds its name. */
    | NotAFile(name: string)

  datatype Result<+T> = Success(value: T) | Failure(error: Error)
}
