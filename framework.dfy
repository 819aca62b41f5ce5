/**
 * The pieces of the web framework the endpoint helpers touch: a router is
 * an opaque object, identified here by a number, and a Python list that is
 * appended to in place is a `ItemList`.
 */
module Framework {
  /** A FastAPI `APIRouter`; only its identity matters here. */
  datatype Router = Router(id: nat)

  /** A mutable Python list, shared by reference. */
  class ItemList<T> {
    var items: seq<T>

    constructor (initial: seq<T>)
      ensures items == initial
    {
      items := initial;
    }

    /** `list.append(x)`. */
    method Append(x: T)
      modifies this
      ensures items == old(items) + [x]
    {
      items := items + [x];
    }
  }

  /**
   * How far a list of names can be walked before one is missing from the
   * lookup table: the index of the first unknown name, or the length.
   */
  function KnownPrefix(names: seq<string>, known: set<string>): (k: nat)
    ensures k <= |names|
    ensures forall i :: 0 <= i < k ==> names[i] in known
    ensures k < |names| ==> names[k] !in known
  {
    if |names| == 0 || names[0] !in known then 0
    else 1 + KnownPrefix(names[1..], known)
  }

  /** A walk that meets its first unknown name at `i` stops there. */
  lemma KnownPrefixStops(names: seq<string>, known: set<string>, i: nat)
    requires i < |names| && names[i] !in known
    requires forall j :: 0 <= j < i ==> names[j] in known
    ensures KnownPrefix(names, known) == i
  {
  }

  /** A walk over known names only goes to the end. */
  lemma KnownPrefixAll(names: seq<string>, known: set<string>)
    requires forall j :: 0 <= j < |names| ==> names[j] in known
    ensures KnownPrefix(names, known) == |names|
  {
  }
}
