/** Option and Result, used wherever the program returns a nil pointer or an error. */
module Wrappers {
  datatype Option<+T> = None | Some(value: T)

  datatype Result<+T, +E> = Success(value: T) | Failure(error: E)

  /** The ways in which a call of the service or of one of its collaborators can fail. */
  datatype Error =
    | Rejected   // the validator refused the upload
    | NotFound   // no row, or no blob, under the given key
    | Database   // a statement failed, or a constraint refused it
    | BlobStore  // the blob store failed
}
