/** The optional value used wherever the analyser works with a value that may be missing
    (an unparsable date, an absent column, an empty list's minimum). */
module Wrappers {

  datatype Option<+T> = None | Some(value: T)

  /** The list a Python comprehension yields for an optional element: empty or a singleton. */
  function ToSeq<T>(o: Option<T>): (s: seq<T>)
    ensures |s| <= 1
    ensures o.None? ==> s == []
    ensures o.Some? ==> s == [o.value]
  {
    match o
    case None => []
    case Some(v) => [v]
  }
}
