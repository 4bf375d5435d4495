/** An optional value: TypeScript's `T | undefined`. */
module Wrappers {
  datatype Option<T> = None | Some(value: T)
  {
    /** The `??` operator: the value when present, `default` otherwise. */
    function GetOr(default: T): T
    {
      match this
      case Some(v) => v
      case None => default
    }
  }
}
