/** Optional values, used for every nullable field of the modelled records
    (Python's None, JavaScript's null/undefined). */
module Wrappers {

  datatype Option<+T> = None | Some(value: T) {

    /** The wrapped value, or `default` when there is none. */
    function GetOr(default: T): T
    {
      match this
      case Some(v) => v
      case None => default
    }
  }

  /** Python's `x or 0` on a nullable integer column. */
  function IntOrZero(x: Option<int>): int
  {
    x.GetOr(0)
  }

  /** Python's `x or 0` on a nullable decimal column. */
  function RealOrZero(x: Option<real>): real
  {
    x.GetOr(0.0)
  }
}
