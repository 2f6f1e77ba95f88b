/** How the pipelines see their collaborators: an HTTP request either delivers
    a body or fails (network error, timeout, non-2xx status), and a lookup may
    find nothing. */
module Responses {

  /** The outcome of one HTTP request as seen by the caller's `try`/`catch`. */
  datatype Response<+T> = Ok(body: T) | Failed

  /** A value that may be missing (`undefined` or `null` in the source). */
  datatype Option<+T> = None | Some(value: T)
}
