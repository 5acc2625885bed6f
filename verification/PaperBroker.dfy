/** The paper broker as an object: orders that are shared between its maps and updated in place. */
module PaperBroker {
  import opened Wrappers
  import opened Names
  import opened OrderMachine
  import opened OrderMaps
  import opened PaperDesk

  class Broker {
    const config: Config
    var orders: map<Name, OrderObject>
    var pendingOrders: map<Name, OrderObject>
    var nextOrderID: nat
    var fills: seq<PaperFill>
    var seenIntents: set<Name>
    // Submissions asleep in their fill delay.
    var waiting: set<Name>

    ghost function View(): Desk
      reads this, orders.Values
    {
      Desk(OrderValues(orders), pendingOrders.Keys, seenIntents, nextOrderID, fills, waiting)
    }

    /** The pending map refers to the same objects as the map of all orders. */
    ghost predicate Wired()
      reads this
    {
      && Unshared(orders, config.div)
      && (forall id :: id in pendingOrders ==> id in orders && pendingOrders[id] == orders[id])
    }

    ghost predicate Valid()
      reads this, orders.Values
    {
      Wired() && nextOrderID >= 1 && DeskInv(View())
    }

    constructor (config: Config)
      ensures Valid() && this.config == config && View() == EMPTY_DESK
    {
      this.config := config;
      orders, pendingOrders, nextOrderID, fills, seenIntents, waiting := map[], map[], 1, [], {}, {};
    }

    /** Fires an event at one of the orders. */
    method FireAt(order: OrderObject, ghost id: Name, e: Event, d: Data) returns (ok: bool)
      requires Wired() && id in orders && orders[id] == order
      modifies order
      ensures Wired()
      ensures ok <==> Transition(old(View().orders[id]), e, d, config.div).Some?
      ensures View() == old(View()).(orders :=
        old(View().orders)[id := After(old(View().orders[id]), e, d, config.div)])
    {
      hide Transition, After;
      ghost var before := View().orders;
      TakenExactly(before[id], e, d, config.div);
      hide Takes;
      ok := order.Advance(e, d);
      assert forall j :: j in orders && j != id ==> orders[j].Val() == before[j];
      OneChanged(orders, before, id);
    }

    /** Fills an order, and records the fill if the order took it. */
    method Execute(order: OrderObject, ghost id: Name, qty: real, price: real, fillId: Name) returns (ok: bool)
      requires Wired() && id in orders && orders[id] == order && order.intent.intentId == id
      modifies this`fills, order
      ensures Wired()
      ensures var data := FillData(FillRecord(fillId, qty, price, 0.0));
        ok <==> Transition(old(View().orders[id]), Fill, data, config.div).Some?
      ensures View() == FillOrder(config, old(View()), id, qty, price, fillId, pendingOrders.Keys)
      ensures |fills| == |old(fills)| + if ok then 1 else 0
    {
      ghost var o, data := View().orders[id], FillData(FillRecord(fillId, qty, price, 0.0));
      FillKeepsIds(o, data, config.div);
      hide Transition, After;
      ok := FireAt(order, id, Fill, FillData(FillRecord(fillId, qty, price, 0.0)));
      if ok {
        fills := fills + [PaperFill(order.intent.intentId, order.orderId, order.intent.side, qty, price)];
        assert order.Val() == After(o, Fill, data, config.div);
      } else {
        RefusedChangesNothing(o, Fill, data, config.div);
        assert old(View()).orders[id := o] == old(View()).orders;
      }
    }

    /** A new order that is acked under an exchange id. */
    method NewAcked(intent: Intent, n: nat) returns (order: OrderObject)
      ensures fresh(order) && order.intent == intent && order.div == config.div
      ensures order.Val() == AckedOrder(config, intent, n)
    {
      hide RecordFill;
      order := new OrderObject(intent, config.div);
      var ok := order.Advance(Event.Submit, NoData);
      ok := order.Advance(Ack, AckData(PaperId(n)));
    }

    /** Accepts an intent under the next exchange id. */
    method Accept(intent: Intent) returns (order: OrderObject)
      requires Wired() && intent.intentId !in orders
      modifies this`orders, this`seenIntents, this`nextOrderID
      ensures Wired() && fresh(order) && orders == old(orders)[intent.intentId := order]
      ensures order.intent == intent && nextOrderID == old(nextOrderID) + 1
      ensures View() == PaperDesk.Accept(config, old(View()), intent)
    {
      hide AckedOrder;
      seenIntents := seenIntents + {intent.intentId};
      order := NewAcked(intent, nextOrderID);
      nextOrderID := nextOrderID + 1;
      orders := orders[intent.intentId := order];
    }

    /** Fills a market order at once or puts it to wait; any other order is pending. */
    method Dispatch(order: OrderObject, intent: Intent, fillId: Name)
      requires Wired() && intent.intentId in orders && orders[intent.intentId] == order && order.intent == intent
      modifies this`fills, this`waiting, this`pendingOrders, order
      ensures Wired()
      ensures View() == PaperDesk.Dispatch(config, old(View()), intent, fillId)
    {
      hide FillOrder, MarketPrice, OrderMaps.Unshared, After, Transition, OrderObject.Val;
      match intent.orderType {
        case Market =>
          if config.delayed {
            waiting := waiting + {intent.intentId};
          } else {
            var _ := Execute(order, intent.intentId, intent.qty, MarketPrice(config, intent), fillId);
          }
        case _ =>
          pendingOrders := pendingOrders[intent.intentId := order];
      }
    }

    /** The first part of a submission: all of it, unless it has to wait for its fill. A duplicate intent
        gets no exchange id. */
    method SubmitOrder(intent: Intent, fillId: Name) returns (ack: Option<Name>)
      requires Valid()
      modifies this
      ensures Valid() && forall id :: id in old(orders) ==> id in orders && orders[id] == old(orders[id])
      ensures View() == Step(config, old(View()), Action.Submit(intent, fillId))
      ensures ack == if intent.intentId in old(seenIntents) then None else Some(PaperId(old(nextOrderID)))
    {
      ghost var d := View();
      hide DeskInv, PaperDesk.Accept, PaperDesk.Dispatch, OrderMaps.Unshared, OrderObject.Val;
      StepKeepsDesk(config, d, Action.Submit(intent, fillId));
      SeenAreOrders(d);
      if intent.intentId in seenIntents {
        return None;
      }
      ack := Some(PaperId(nextOrderID));
      var order := Accept(intent);
      Dispatch(order, intent, fillId);
    }

    /** The rest of a submission, once its delay is over or its caller has given up. */
    method Wake(id: Name, givenUp: bool, fillId: Name)
      requires Valid()
      modifies this, orders.Values
      ensures Valid() && orders == old(orders)
      ensures View() == Step(config, old(View()), Action.Wake(id, givenUp, fillId))
    {
      ghost var d := View();
      hide DeskInv, FillOrder, MarketPrice, OrderMaps.Unshared;
      StepKeepsDesk(config, d, Action.Wake(id, givenUp, fillId));
      if id !in waiting {
        return;
      }
      NamesItsOrder(d, id);
      waiting := waiting - {id};
      if !givenUp {
        var intent := orders[id].intent;
        var _ := Execute(orders[id], id, intent.qty, MarketPrice(config, intent), fillId);
      }
    }

    /** Fills the rest of a pending order at a given price. */
    method SimulateFill(id: Name, price: real, fillId: Name) returns (ok: bool)
      requires Valid()
      modifies this, orders.Values
      ensures Valid() && orders == old(orders)
      ensures View() == Step(config, old(View()), Action.SimulateFill(id, price, fillId))
      ensures ok <==> |fills| == |old(fills)| + 1
    {
      ghost var d := View();
      hide DeskInv, FillOrder, OrderMaps.Unshared, Transition;
      StepKeepsDesk(config, d, Action.SimulateFill(id, price, fillId));
      if id !in pendingOrders {
        return false;
      }
      NamesItsOrder(d, id);
      var order := pendingOrders[id];
      var remainingQty := order.intent.qty - order.filledQty;
      PendingLeft(config, d, id, remainingQty, price, fillId, d.pending - {id});
      ok := Execute(order, id, remainingQty, price, fillId);
      if ok {
        pendingOrders := pendingOrders - {id};
      }
    }

    /** The pending order under an exchange id, looked for in any order. */
    method FindPending(orderID: Name) returns (found: Option<Name>)
      requires Wired() && IdsDistinct(View())
      ensures found.None? <==> !Open(View(), orderID)
      ensures found.Some? ==> found.value in pendingOrders && found.value == Under(View(), orderID)
    {
      var left := pendingOrders.Keys;
      while left != {}
        invariant left <= pendingOrders.Keys
        invariant forall id :: id in pendingOrders && id !in left ==> orders[id].orderId != Some(orderID)
        decreases |left|
      {
        var id :| id in left;
        if pendingOrders[id].orderId == Some(orderID) {
          UnderIsOnly(View(), orderID, id);
          return Some(id);
        }
        left := left - {id};
      }
      return None;
    }

    /** Cancels the pending order under an exchange id. */
    method CancelOrder(orderID: Name) returns (ok: bool)
      requires Valid()
      modifies this, orders.Values
      ensures Valid() && orders == old(orders)
      ensures View() == Step(config, old(View()), Action.CancelOrder(orderID))
      ensures ok <==> Open(old(View()), orderID)
    {
      ghost var d := View();
      assert IdsDistinct(d);
      hide DeskInv, IdsDistinct, PaperDesk.CancelAt, OrderMaps.Unshared, Transition, After;
      StepKeepsDesk(config, d, Action.CancelOrder(orderID));
      var found := FindPending(orderID);
      if found.None? {
        return false;
      }
      OpenIsAcked(d, orderID);
      ok := CancelAt(found.value);
    }

    method CancelAt(id: Name) returns (ok: bool)
      requires Wired() && id in pendingOrders
      modifies this`pendingOrders, orders[id]
      ensures Wired()
      ensures View() == PaperDesk.CancelAt(config, old(View()), id)
      ensures old(View()).orders[id].state.Acked? ==> ok
    {
      hide Transition, After, OrderMaps.Unshared, OrderObject.Val;
      ghost var d := View();
      ghost var o := d.orders[id];
      var order := pendingOrders[id];
      if o.state.Acked? {
        AckedTakesCancel(o, config.div);
      }
      ok := FireAt(order, id, RequestCancel, NoData);
      if !ok {
        RefusedChangesNothing(o, RequestCancel, NoData, config.div);
        assert d.orders[id := o] == d.orders;
        return;
      }
      AcceptedChanges(o, RequestCancel, NoData, config.div);
      ghost var asked := Transition(o, RequestCancel, NoData, config.div).value;
      assert View() == d.(orders := d.orders[id := asked]);
      ok := FireAt(order, id, CancelAck, NoData);
      assert View() == d.(orders := d.orders[id := After(asked, CancelAck, NoData, config.div)]);
      pendingOrders := pendingOrders - {id};
    }
  }

  lemma NamesItsOrder(d: Desk, id: Name)
    requires DeskInv(d) && (id in d.waiting || id in d.pending)
    ensures id in d.orders && d.orders[id].intent.intentId == id
  {
    assert Kept(id, d.orders[id]);
  }

  lemma AckedTakesCancel(o: Order, div: Division)
    requires o.state.Acked?
    ensures Transition(o, RequestCancel, NoData, div).Some?
    ensures Transition(Transition(o, RequestCancel, NoData, div).value, CancelAck, NoData, div).Some?
  {
  }

  lemma OpenIsAcked(d: Desk, orderID: Name)
    requires DeskInv(d) && Open(d, orderID)
    ensures d.orders[Under(d, orderID)].state.Acked?
  {
  }

  lemma AcceptedChanges(o: Order, e: Event, d: Data, div: Division)
    requires Transition(o, e, d, div).Some?
    ensures After(o, e, d, div) == Transition(o, e, d, div).value
  {
  }

  /** A fill leaves pending what it is told to, if it is taken. */
  lemma PendingLeft(c: Config, d: Desk, id: Name, qty: real, price: real, fillId: Name, left: set<Name>)
    requires id in d.orders
    ensures var whole := FillOrder(c, d, id, qty, price, fillId, d.pending);
      FillOrder(c, d, id, qty, price, fillId, left) ==
        if Transition(d.orders[id], Fill, FillData(FillRecord(fillId, qty, price, 0.0)), c.div).None? then whole
        else whole.(pending := left)
  {
    hide After, Transition;
  }

  lemma SeenAreOrders(d: Desk)
    requires DeskInv(d)
    ensures d.seen == d.orders.Keys
  {
  }

  lemma FillKeepsIds(o: Order, d: Data, div: Division)
    ensures After(o, Fill, d, div).orderId == o.orderId && After(o, Fill, d, div).intent == o.intent
  {
    hide Spent;
  }
}
