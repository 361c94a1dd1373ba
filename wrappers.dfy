/** The optional value used wherever the application reads a field that may be
    missing (`undefined`, `null`) or a lookup that may find nothing. */
module Wrappers {

  datatype Option<T> = None | Some(value: T)
  {
    function GetOr(default: T): T
    {
      match this
      case Some(v) => v
      case None => default
    }
  }
}
