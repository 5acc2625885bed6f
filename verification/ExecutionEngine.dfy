/** The execution engine as an object. */
module ExecutionEngine {
  import opened Names
  import opened OrderMachine
  import opened OrderMaps
  import opened EngineSteps
  import opened EngineCalls
  import opened PositionManager

  class Engine {
    const setup: Setup
    const posMgr: Manager
    var orders: map<Name, OrderObject>

    ghost predicate Valid()
      reads this, posMgr
    {
      && posMgr.Valid()
      && OrderMaps.Unshared(orders, setup.div)
    }

    ghost function Orders(): map<Name, Order>
      reads this, orders.Values
    {
      OrderValues(orders)
    }

    ghost function Book(): Position.Book
      reads posMgr, posMgr.Records()
    {
      posMgr.View()
    }

    constructor (setup: Setup)
      ensures Valid() && this.setup == setup && Orders() == map[] && Book() == Position.EMPTY_BOOK
    {
      this.setup := setup;
      orders := map[];
      posMgr := new Manager();
    }

    /** Fires an event at one order; the others stay as they are. */
    method FireAt(id: Name, e: Event, d: Data) returns (ok: bool)
      requires Valid() && id in orders
      modifies orders[id]
      ensures Valid() && orders == old(orders)
      ensures ok <==> Transition(old(Orders()[id]), e, d, setup.div).Some?
      ensures Orders() == old(Orders())[id := After(old(Orders()[id]), e, d, setup.div)]
    {
      hide Transition, After;
      ghost var before := Orders();
      TakenExactly(before[id], e, d, setup.div);
      hide Takes;
      ok := orders[id].Advance(e, d);
      assert forall j :: j in orders && j != id ==> orders[j].Val() == before[j];
      OneChanged(orders, before, id);
    }

    /** Puts a new order in the map. */
    method Place(intent: Intent) returns (order: OrderObject)
      requires Valid() && intent.intentId !in orders
      modifies this`orders
      ensures Valid() && fresh(order) && order.div == setup.div
      ensures order.Val() == NewOrder(intent) && orders == old(orders)[intent.intentId := order]
      ensures Orders() == old(Orders())[intent.intentId := NewOrder(intent)]
    {
      hide NewOrder;
      order := new OrderObject(intent, setup.div);
      orders := orders[intent.intentId := order];
    }

    /** Executes an intent (no position moves), given what risk and the exchange answer; says whether the
        exchange was asked. */
    method ExecuteIntent(intent: Intent, x: Choice) returns (asked: bool)
      requires Valid()
      modifies this`orders
      ensures Valid()
      ensures Orders() == ExecLeaves(setup, old(Orders()), intent, x)
      ensures asked <==> Reaches(setup, old(Orders()), intent, x)
    {
      hide NewOrder, Outcome, OrderObject.Val, Manager.View, Manager.Valid, Values, PositionManager.Unshared;
      var id := intent.intentId;
      if id in orders || !x.allowed {
        return false;
      }
      var order := Place(intent);
      ghost var before := Orders();
      asked := Drive(order, intent, x);
      assert forall j :: j in orders && j != id ==> orders[j].Val() == before[j];
      OneChanged(orders, before, id);
      assert before == old(Orders())[id := NewOrder(intent)];
    }

    /** Takes a new order from CREATED to ACKED or REJECTED. */
    method Drive(order: OrderObject, intent: Intent, x: Choice) returns (asked: bool)
      requires order.div == setup.div && order.Val() == NewOrder(intent)
      modifies order
      ensures asked <==> !setup.dryRun && x.registered
      ensures order.Val() == Outcome(setup, intent, x)
    {
      hide RecordFill;
      asked := false;
      var ok := order.Advance(Submit, NoData);
      if !ok {
        return;
      }
      if setup.dryRun {
        ok := order.Advance(Ack, AckData(DryRunId(intent.intentId)));
        return;
      }
      if !x.registered {
        ok := order.Advance(Reject, NoData);
        return;
      }
      asked := true;
      if x.answer.Accepted? {
        ok := order.Advance(Ack, AckData(x.answer.orderId));
      } else {
        ok := order.Advance(Reject, NoData);
      }
    }

    /** Requests a cancellation, given the exchange's answer. */
    method CancelOrder(id: Name, x: Choice) returns (ok: bool)
      requires Valid()
      modifies orders.Values
      ensures Valid() && orders == old(orders)
      ensures Orders() == CancelLeaves(setup, old(Orders()), id, x)
      ensures ok <==> (id in old(orders) && Cancellable(old(Orders())[id]) && Confirms(setup, x))
    {
      if id !in orders {
        return false;
      }
      ghost var before := Orders();
      CancelTakenExactly(before[id], setup.div);
      hide Transition, After, Cancellable;
      ok := FireAt(id, RequestCancel, NoData);
      if !ok {
        assert before[id := before[id]] == before;
        return;
      }
      if !setup.dryRun {
        if !x.registered || x.answer.Failed? {
          return false;
        }
      }
      ok := FireAt(id, CancelAck, NoData);
    }

    /** Whether the order took the fill, with the event its remainder calls for. */
    method OfferFill(id: Name, r: Report) returns (ok: bool)
      requires Valid() && id in orders
      modifies orders[id]
      ensures Valid() && orders == old(orders)
      ensures var o, d := old(Orders()[id]), FillData(RecordOf(r));
        && (ok <==> Transition(o, FillEvent(o, r), d, setup.div).Some?)
        && Orders() == old(Orders())[id := After(o, FillEvent(o, r), d, setup.div)]
    {
      hide Transition, After;
      var remaining := orders[id].intent.qty - orders[id].filledQty;
      var event := PartialFill;
      if r.fill.qty >= remaining {
        event := Event.Fill;
      }
      ok := FireAt(id, event, FillData(RecordOf(r)));
    }

    /** A fill: the order first, the position only if the order took it. */
    method HandleFill(r: Report) returns (ok: bool)
      requires Valid()
      modifies orders.Values, posMgr, posMgr.Records()
      ensures Valid() && orders == old(orders)
      ensures (Orders(), Book()) == FillLeaves(setup, old(Orders()), old(Book()), r)
      ensures ok <==> r.intentId in old(orders) && FillTaken(old(Orders())[r.intentId], r)
    {
      hide After, Transition, FillEvent, RecordOf, Position.BookFill, FillTaken, WithFill;
      hide Manager.View, Manager.Valid, Values, PositionManager.Unshared;
      if r.intentId !in orders {
        return false;
      }
      ghost var before := Orders();
      FillTakenExactly(before[r.intentId], r, setup.div);
      var taken := OfferFill(r.intentId, r);
      if !taken {
        assert before[r.intentId := before[r.intentId]] == before;
        return false;
      }
      posMgr.ApplyFill(r.fill);
      return true;
    }
  }
}
