/**
 * Shared result types. The Java sources signal absence with `null` and
 * failures with exceptions; the model makes both explicit values.
 */
module Common {

  /** A value that may be absent (`null` in the Java and TypeScript sources). */
  datatype Option<T> = None | Some(value: T)

  /** The exception kinds the modelled code throws or maps to HTTP statuses. */
  datatype Failure =
    | NotFound      // NotFoundException, HTTP 404
    | BadRequest    // BadRequestException, HTTP 400
    | IoError       // IOException (unsafe temp directory, failed read or write)
    | Internal      // RuntimeException or NullPointerException, HTTP 500

  /** The outcome of an operation that can throw. */
  datatype Result<T> = Ok(value: T) | Err(failure: Failure)
}
