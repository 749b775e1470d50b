/** Optional values and the error outcomes shared by the entity store and the
    request handlers. */
module Results {

  /** A value that may be absent: a nullable column, an omitted input field,
      or a lookup that found no row. */
  datatype Option<+T> = None | Some(value: T) {
    function GetOr(default: T): T {
      match this
      case Some(v) => v
      case None => default
    }
  }

  /** The failures the store and the handlers raise. */
  datatype Error =
    | Unauthorized          // a protected procedure called without a signed-in user
    | DatabaseNotAvailable  // a write attempted while the database handle is missing
    | BookNotFound          // book.update by a caller who has no book
    | OpenIdRequired        // upsertUser given an empty openId

  datatype Result<+T> = Ok(value: T) | Err(error: Error)

  /** A result that carries no value: the write happened, or it failed. */
  datatype Outcome = Pass | Fail(error: Error)
}
