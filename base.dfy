/** Small value types shared by every service of the model. */
module Base {

  /** The conventional optional value: a missing environment variable, a
      missing file, a missing header or a missing map entry. */
  datatype Option<+T> = None | Some(value: T) {
    /** `unwrap_or(default)` / `get(key, default)` */
    function GetOr(default: T): (r: T)
      ensures Some? ==> r == value
      ensures None? ==> r == default
    {
      match this
      case Some(v) => v
      case None => default
    }
  }

  /** A success value or an error, for operations that raise or return `Err`. */
  datatype Result<+T, +E> = Ok(value: T) | Err(error: E)

  /** One octet of an HTTP header or a request body. */
  type Byte = b: int | 0 <= b < 256

  /** How a spawned child process ended: with an exit code, or killed by a
      signal (Rust's `status.code()` is then `None`). */
  datatype ExitStatus = Exited(code: int) | Signaled {
    /** `ExitStatus::success()` in Rust, `returncode == 0` in Python. */
    predicate Success() {
      Exited? && code == 0
    }
  }
}
