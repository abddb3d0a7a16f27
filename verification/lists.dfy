/**
 * The singly linked lists of the C code (materials, dies, layers, floorplan
 * elements) are modelled as sequences in list order; a pointer into a list
 * is a position, NULL is None.
 */
module Lists {
  import opened Wrappers

  /**
   * The loop `for (; list != NULL; list = list->Next) if (match) break;`:
   * the position of the first element that matches, or None when none does.
   */
  function FindFirst<T>(xs: seq<T>, matches: T -> bool): (r: Option<nat>)
    ensures r.Some? ==> r.value < |xs| && matches(xs[r.value])
    ensures r.Some? ==> forall j :: 0 <= j < r.value ==> !matches(xs[j])
    ensures r.None? <==> forall j :: 0 <= j < |xs| ==> !matches(xs[j])
  {
    if |xs| == 0 then None
    else if matches(xs[0]) then Some(0)
    else
      match FindFirst(xs[1..], matches)
      case None => None
      case Some(k) => Some(k + 1)
  }
}
