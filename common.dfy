/** Small value types shared by every module of the model. */
module Common {

  /** Python's `None` / present value. */
  datatype Option<+T> = None | Some(value: T) {
    /** `dict.get(key, default)`: the value when present, the default otherwise. */
    function GetOr(default: T): T {
      match this
      case Some(v) => v
      case None => default
    }
  }

  /** Python's `xs[i]` on a list: a negative position counts from the end,
      and any other position outside the list raises IndexError (None here). */
  function PyGet<T>(xs: seq<T>, i: int): Option<T> {
    if 0 <= i < |xs| then Some(xs[i])
    else if -|xs| <= i < 0 then Some(xs[|xs| + i])
    else None
  }

  /** Python's `xs.count(x)`. */
  function Count<T(==)>(xs: seq<T>, x: T): nat {
    if xs == [] then 0
    else Count(xs[..|xs| - 1], x) + (if xs[|xs| - 1] == x then 1 else 0)
  }
}
