/** The optional value used wherever a JavaScript property or map entry may be `undefined`, and the outcome of a call that may throw. */
module Wrappers {

  datatype Option<+T> = None | Some(value: T)
  {
    /** The value, or `default` when there is none. */
    function GetOr(default: T): T
    {
      match this
      case Some(v) => v
      case None => default
    }
  }

  /** What a call that may throw comes to: the value it returns, or the TypeError it raises. */
  datatype Outcome<+T> = Returned(value: T) | TypeError

  /** Looks `x` up in `m`: JavaScript's `m[x]`, which is `undefined` for a missing key. */
  function Get<X, Y>(m: map<X, Y>, x: X): (r: Option<Y>)
    ensures r.Some? <==> x in m
    ensures r.Some? ==> r.value == m[x]
  {
    if x in m then Some(m[x]) else None
  }
}
