/** Optional values and the error outcomes of the history engine's edit operations. */
module Results {

  /** A value that may be missing; stands for a nullable reference. */
  datatype Option<T> = None | Some(value: T)

  /** The ways an engine operation can be refused. */
  datatype Error =
    | AlreadyExists  // addFile on a path that is already live
    | NotFound       // changeFile on a path that is not live
    | NoHistory      // putLabel before any commit

  /** The result of an operation that may be refused. */
  datatype Outcome = Pass | Fail(error: Error)
}
