/** The absent-or-present value the extractor expresses with `null`. */
module Wrappers {
  datatype Option<+T> = None | Some(value: T)

  /** The value, if any, as a list of zero or one elements. */
  function AsList<T>(o: Option<T>): (r: seq<T>)
    ensures o.Some? ==> r == [o.value]
    ensures o.None? <==> r == []
    ensures |r| <= 1
  {
    match o
    case Some(v) => [v]
    case None => []
  }
}
