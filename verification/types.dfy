/** Identifiers and failure-carrying results shared by every part of the model. */
module Types {

  /** A live WebSocket connection, known to the model only by an identifier. */
  type ConnId = nat

  datatype Option<+T> = None | Some(value: T)

  datatype Result<+T, +E> = Success(value: T) | Failure(error: E)

  /** The rejections the room handlers answer with: status 401, 400 and 404,
      and the silent return after a failed WebSocket upgrade. */
  datatype Error = Unauthorized | BadRequest | NotFound | UpgradeFailed
}
