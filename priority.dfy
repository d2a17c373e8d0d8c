/** The delivery priority of an order and the numeric key the engine sorts on. */
module Priorities {

  datatype Priority = HIGH | MEDIUM | LOW

  /** Numeric sort key: a higher key is dispatched earlier. */
  function SortOrder(p: Priority): (r: int)
    ensures 1 <= r <= 3
  {
    match p
    case HIGH => 3
    case MEDIUM => 2
    case LOW => 1
  }

  /** HIGH outranks MEDIUM, which outranks LOW, with keys 3, 2 and 1. */
  lemma SortOrderRanksHighFirst()
    ensures SortOrder(HIGH) == 3 && SortOrder(MEDIUM) == 2 && SortOrder(LOW) == 1
    ensures SortOrder(HIGH) > SortOrder(MEDIUM) > SortOrder(LOW)
  {
  }

  /** Distinct priorities never share a key, so sorting by key is sorting by priority. */
  lemma SortOrderInjective(p: Priority, q: Priority)
    ensures SortOrder(p) == SortOrder(q) <==> p == q
  {
  }

  /** The enum constant's name, as `Priority.name()` yields it. */
  function Name(p: Priority): string
  {
    match p
    case HIGH => "HIGH"
    case MEDIUM => "MEDIUM"
    case LOW => "LOW"
  }
}
