/** Optional values: the model's stand-in for a JavaScript value that may be
    `undefined` (a missing body field, a missing header, a NaN from parseInt). */
module Wrappers {

  datatype Option<+T> = None | Some(value: T) {

    /** The value, or `default` when there is none. */
    function GetOr(default: T): T {
      match this
      case Some(v) => v
      case None => default
    }
  }
}

/** Octets, as Node's `Buffer` holds them. */
module Bytes {

  type byte = b: int | 0 <= b < 256
}
