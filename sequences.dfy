/** Searching a sequence, shared by the database's queries and the number grammar. */
module Sequences {
  import opened Wrappers

  /** The position of the first element of s satisfying p, if any (a query's first()). */
  function First<T>(s: seq<T>, p: T -> bool): (r: Option<nat>)
    ensures r.None? <==> forall i :: 0 <= i < |s| ==> !p(s[i])
    ensures r.Some? ==> r.value < |s| && p(s[r.value])
    ensures r.Some? ==> forall i :: 0 <= i < r.value ==> !p(s[i])
  {
    if s == [] then None
    else if p(s[0]) then Some(0)
    else match First(s[1..], p)
      case None => None
      case Some(i) => Some(i + 1)
  }
}
