/** Optional values and HTTP-style replies shared by every module of the model. */
module Wrappers {

  /** A JavaScript value that may be `undefined`/`null` (None) or present (Some). */
  datatype Option<+T> = None | Some(value: T) {
    function GetOr(default: T): T {
      if Some? then value else default
    }
  }

  /** What an Express handler sends: an error status with its `message`,
      or a success status with the payload it serialises. */
  datatype Reply<+T> = Fail(status: int, message: string) | Ok(status: int, value: T)
}
