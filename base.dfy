/** Values shared by the configuration package model: optional values, the
    errors the package returns, and the outcomes of calls into the operating
    system, which the model receives as inputs instead of performing them. */
module Base {

  datatype Option<+T> = None | Some(value: T)

  /** The errors config.go distinguishes. Everything the OS or a library
      reports, other than an unknown user, is carried as `External`. */
  datatype Error =
    | UnknownUserError(username: string)  // user.UnknownUserError from user.Lookup
    | NoPathDefined                       // WriteToDisk on a configuration with an empty path
    | External(message: string)           // any other error handed back unchanged

  /** A value or the error that prevented it. */
  datatype Result<+T> = Ok(value: T) | Err(error: Error)

  /** The outcome of a call that returns only an error (`error` in Go, nil on success). */
  datatype Outcome = Pass | Fail(error: Error)

  /** An operating-system account as a lookup returns it; the numeric ids are
      taken as already converted from their decimal text. */
  datatype User = User(Username: string, Uid: int, Gid: int)
}
