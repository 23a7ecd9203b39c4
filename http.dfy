/** The decision an API route handler reaches: a status code with either a value or an error message. */
module Http {

  datatype Outcome<+T> =
    | Ok(status: nat, value: T)
    | Err(status: nat, error: string)
      /** An uncaught exception (a `TypeError` from calling `.trim()` on a non-string); the framework answers 500. */
    | Crash
}
