/** Maps of order objects, and what they hold. */
module OrderMaps {
  import opened Names
  import opened OrderMachine

  function OrderValues(orders: map<Name, OrderObject>): map<Name, Order>
    reads orders.Values
  {
    map id | id in orders :: orders[id].Val()
  }

  /** No two ids share an order object, and all divide alike. */
  ghost predicate Unshared(orders: map<Name, OrderObject>, div: Division) {
    && (forall i, j :: i in orders && j in orders && i != j ==> orders[i] != orders[j])
    && (forall id :: id in orders ==> orders[id].div == div)
  }

  /** When one object moved on, its value is all that changed. */
  lemma OneChanged(orders: map<Name, OrderObject>, before: map<Name, Order>, id: Name)
    requires id in orders && before.Keys == orders.Keys
    requires forall j :: j in orders && j != id ==> orders[j].Val() == before[j]
    ensures OrderValues(orders) == before[id := orders[id].Val()]
  {
  }
}
