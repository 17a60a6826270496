/** Optional values, standing in for Swift optionals and for the IEEE
    infinity the game uses as "never" (an infinite drain duration, an
    unreachable experience threshold). */
module Wrappers {

  datatype Option<+T> = None | Some(value: T) {

    /** The wrapped value, or `default` when there is none. */
    function GetOr(default: T): T {
      match this
      case Some(v) => v
      case None => default
    }
  }
}
