/** Values shared by the two packages of the model: optional values, errors, and
    how a Go call ends (a nil error, a returned error, or a panic). */
module Outcomes {

  datatype Option<+T> = None | Some(value: T)

  /** An error as the Go code passes it on. `NotExist` is what `os.Stat` reports for a
      path that is not there; every other error is carried as its message. */
  datatype Error = NotExist(path: string) | Failure(message: string)

  /** `Ok` is a nil error, `Err` an error that is returned, `Abort` a panic. */
  datatype Outcome = Ok | Err(error: Error) | Abort(error: Error)
}
