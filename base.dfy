/** Values shared by every part of the model. */
module Base {

  /** A Java reference that may be null: `None` stands for null. */
  datatype Option<+T> = None | Some(value: T)

  /** One byte of an uploaded or downloaded payload. */
  newtype byte = x: int | 0 <= x < 256

  /** A reading of the clock (`LocalDateTime.now()`), as an abstract tick count. */
  type Time = int

  /** The HTTP statuses the controllers answer with. */
  datatype Status = Ok200 | BadRequest400 | NotFound404 | InternalError500
}
