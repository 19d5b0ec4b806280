/** The slice of the page's DOM that the animation and filter scripts read and write:
    attribute values that may be missing, elements with an id and a class list,
    and `document.getElementById`. */
module Dom {

  /** An attribute value as `getAttribute` returns it: `None` stands for `null`. */
  datatype Option<T> = None | Some(value: T)

  /** The text JavaScript's template literals give an attribute value (`null` prints as "null"). */
  function AttrText(a: Option<string>): (r: string)
    ensures a.Some? ==> r == a.value
    ensures a.None? ==> r == "null"
  {
    match a
    case None => "null"
    case Some(s) => s
  }

  /** An element: its `id` ("" when it has none) and its `classList`. */
  datatype Element = Element(id: string, classes: set<string>)

  /** The document's elements in document order. */
  class Document {
    var elements: seq<Element>

    constructor (markup: seq<Element>)
      ensures elements == markup
    {
      elements := markup;
    }
  }

  /** Number of elements carrying the given id. */
  function CountId(es: seq<Element>, id: string): (n: nat)
    ensures n <= |es|
    ensures n == 0 <==> forall k :: 0 <= k < |es| ==> es[k].id != id
  {
    if es == [] then 0
    else (if es[0].id == id then 1 else 0) + CountId(es[1..], id)
  }

  /** `document.getElementById(id)` for a non-empty id: the first element in
      document order with that id. (The DOM answers `null` for the empty id.) */
  function GetElementById(es: seq<Element>, id: string): (r: Option<nat>)
    requires id != ""
    ensures r.Some? ==> r.value < |es| && es[r.value].id == id
    ensures r.Some? ==> forall k :: 0 <= k < r.value ==> es[k].id != id
    ensures r.None? <==> forall k :: 0 <= k < |es| ==> es[k].id != id
  {
    if es == [] then None
    else if es[0].id == id then Some(0)
    else match GetElementById(es[1..], id)
      case None => None
      case Some(k) => Some(k + 1)
  }
}
