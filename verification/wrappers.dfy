/** Optional request fields and the three-way outcome of an HTTP handler. */
module Wrappers {

  /** A request field that may be absent; `GetOr` is Python's `dict.get(key, default)`. */
  datatype Option<+T> = None | Some(value: T) {

    function GetOr(default: T): T {
      match this
      case Some(v) => v
      case None => default
    }
  }

  /** What a route handler answers: a JSON body with status 200, a 400 for a
      request missing a required field, or a 500 when the embedding service
      failed. */
  datatype Response<+T> = Ok(value: T) | BadRequest | ServerError
}
