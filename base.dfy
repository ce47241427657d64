/** Failure-compatible wrappers shared by every module of the model. */
module Base {

  /** A value that may be missing: a JavaScript `undefined`, `null` or falsy field. */
  datatype Option<+T> = None | Some(value: T) {
    function GetOr(default: T): T {
      match this
      case Some(v) => v
      case None => default
    }
  }

  /** The outcome of a store call: the row it produced, or the error the database raised. */
  datatype Result<+T, +E> = Success(value: T) | Failure(error: E)

  /** Every identifier of the store (user, room, message). The source uses UUIDs; here they are
      drawn from a counter, which keeps them fresh. */
  type Id = nat

  /** The identifier of a live socket connection (socket.id). */
  type ConnId = nat
}
