/** An optional value, and what a remote call settles to. */
module Outcomes {

  /** A value that may be absent (JavaScript `undefined`). */
  datatype Option<+T> = None | Some(value: T)

  /** What a remote call settles to: the server's answer, or a rejection
      carrying the error message the transport reported ("" when it
      carried none). */
  datatype Outcome<+T> = Ok(value: T) | Err(message: string)
}
