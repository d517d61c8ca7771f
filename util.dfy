/**
 * Small helpers shared by the navigation model: an optional value and the
 * "first element that matches" search that `querySelector` performs.
 */
module Util {

  datatype Option<+T> = None | Some(value: T)

  /**
   * The position of the first element of `s` that satisfies `p`, or None when
   * no element does. This is how `querySelector` picks among several matches:
   * the first one in document order.
   */
  function First<T>(s: seq<T>, p: T -> bool): (k: Option<nat>)
    ensures k.Some? ==> k.value < |s| && p(s[k.value])
    ensures k.Some? ==> forall j :: 0 <= j < k.value ==> !p(s[j])
    ensures k.None? <==> forall j :: 0 <= j < |s| ==> !p(s[j])
  {
    if s == [] then None
    else if p(s[0]) then Some(0)
    else match First(s[1..], p)
      case None => None
      case Some(j) => Some(j + 1)
  }
}
