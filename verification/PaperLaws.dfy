/** What becomes of an order at the paper broker, and what its fill costs. */
module PaperLaws {
  import opened Wrappers
  import opened Names
  import opened OrderMachine
  import opened PaperDesk

  // ---------------------------------------------------------------------------
  // Prices
  // ---------------------------------------------------------------------------

  /** The limit price, or 1 without one; a buyer pays the slippage on top, and a seller gets it less. */
  predicate MarketPriced(c: Config, intent: Intent, price: real) {
    var reference := if intent.limitPrice == 0.0 then 1.0 else intent.limitPrice;
    && (intent.side == Buy ==> price == reference + reference * c.slippage)
    && (intent.side == Sell ==> price == reference - reference * c.slippage)
    && (intent.side != Buy && intent.side != Sell ==> price == reference)
  }

  lemma MarketPriceIs(c: Config, intent: Intent)
    ensures MarketPriced(c, intent, MarketPrice(c, intent))
  {
  }

  // ---------------------------------------------------------------------------
  // Exchange ids
  // ---------------------------------------------------------------------------

  /** The number that decimal digits stand for. */
  function ValueOf(s: string): int {
    if s == "" then 0 else 10 * ValueOf(s[..|s| - 1]) + (s[|s| - 1] as int - '0' as int)
  }

  lemma {:induction false} DigitsAreDecimal(n: nat)
    ensures ValueOf(Digits(n)) == n && forall i :: 0 <= i < |Digits(n)| ==> '0' <= Digits(n)[i] <= '9'
    ensures Digits(n)[0] == '0' ==> n == 0
  {
    if n >= 10 {
      DigitsAreDecimal(n / 10);
      assert Digits(n)[..|Digits(n)| - 1] == Digits(n / 10);
    } else {
      assert Digits(n)[..0] == "";
    }
  }

  // ---------------------------------------------------------------------------
  // One call
  // ---------------------------------------------------------------------------

  /** The desk as it was, but for the order of this intent, and maybe one more fill of the whole of it. */
  ghost predicate OnlyOrder(d: Desk, d': Desk, id: Name) {
    && id in d'.orders && d'.orders.Keys == d.orders.Keys + {id}
    && forall i :: i in d.orders && i != id ==> d'.orders[i] == d.orders[i]
  }

  /** The order is filled with its whole quantity at this price, and its fill is the newest one. */
  ghost predicate NewlyFilled(d: Desk, d': Desk, id: Name, price: real)
    requires id in d'.orders
  {
    var o := d'.orders[id];
    && o.state == Filled && o.filledQty == o.intent.qty
    && d'.fills == d.fills + [PaperFill(intentId := id, orderId := o.orderId, side := o.intent.side,
                                        qty := o.intent.qty, price := price)]
  }

  lemma FilledWhole(c: Config, d: Desk, id: Name, price: real, fillId: Name, left: set<Name>)
    requires DeskInv(d) && id in d.orders && d.orders[id].state.Acked?
    ensures var o, d' := d.orders[id], FillOrder(c, d, id, d.orders[id].intent.qty, price, fillId, left);
      if o.intent.qty > 0.0 then
        && OnlyOrder(d, d', id) && NewlyFilled(d, d', id, price)
        && d'.orders[id].intent == o.intent && d'.orders[id].orderId == o.orderId
        && d'.pending == left && d'.waiting == d.waiting && d'.seen == d.seen && d'.nextId == d.nextId
      else d' == d
  {
    assert Kept(id, d.orders[id]);
    WholeFill(c, d.orders[id], price, fillId);
    hide After, Transition, FillsMatch, FillsOnce, FillsComplete, IdsDistinct, PendingExact;
  }

  /** The desk with one more order, under the next exchange id. */
  ghost predicate NewOrderIn(d: Desk, d': Desk, intent: Intent) {
    var id := intent.intentId;
    && OnlyOrder(d, d', id) && d'.seen == d.seen + {id} && d'.nextId == d.nextId + 1
    && d'.orders[id].intent == intent && d'.orders[id].orderId == Some(Name("PAPER-" + Digits(d.nextId)))
  }

  lemma FilledAtOnce(c: Config, d: Desk, intent: Intent, fillId: Name)
    requires DeskInv(d) && d.nextId >= 1 && intent.intentId !in d.seen
    requires intent.orderType.Market? && !c.delayed && intent.qty > 0.0
    ensures var d' := Step(c, d, Action.Submit(intent, fillId));
      && NewOrderIn(d, d', intent) && NewlyFilled(d, d', intent.intentId, MarketPrice(c, intent))
      && d'.pending == d.pending && d'.waiting == d.waiting
  {
    var a, id := Accept(c, d, intent), intent.intentId;
    AckedOrderIs(c, intent, d.nextId);
    hide AckedOrder, FillOrder, MarketPrice, Digits;
    AcceptKeeps(c, d, intent, d.pending, d.waiting);
    assert a.(pending := d.pending, waiting := d.waiting) == a;
    FilledWhole(c, a, id, MarketPrice(c, intent), fillId, d.pending);
    hide FillsMatch, FillsOnce, FillsComplete, IdsDistinct, PendingExact, OrdersKept;
  }

  lemma OpenedLater(c: Config, d: Desk, intent: Intent, fillId: Name)
    requires DeskInv(d) && d.nextId >= 1 && intent.intentId !in d.seen
    requires !intent.orderType.Market? || c.delayed || intent.qty <= 0.0
    ensures var id, d' := intent.intentId, Step(c, d, Action.Submit(intent, fillId));
      && NewOrderIn(d, d', intent)
      && d'.orders[id].state == Acked && d'.orders[id].fills == [] && d'.fills == d.fills
      && d'.pending == d.pending + (if intent.orderType.Market? then {} else {id})
      && d'.waiting == d.waiting + (if intent.orderType.Market? && c.delayed then {id} else {})
  {
    AckedOrderIs(c, intent, d.nextId);
    hide AckedOrder, FillOrder, MarketPrice, Digits;
    if intent.orderType.Market? && !c.delayed {
      AcceptKeeps(c, d, intent, d.pending, d.waiting);
      var a := Accept(c, d, intent);
      assert a.(pending := d.pending, waiting := d.waiting) == a;
      FilledWhole(c, a, intent.intentId, MarketPrice(c, intent), fillId, d.pending);
    }
    hide FillsMatch, FillsOnce, FillsComplete, IdsDistinct, PendingExact, OrdersKept;
  }

  /** A new intent becomes an order under the next exchange id, and nothing about the others changes. A market
      order of a positive quantity is filled at once, at its market price, unless market fills are delayed: then it
      waits. An order of any other type is pending. */
  lemma SubmitIs(c: Config, d: Desk, intent: Intent, fillId: Name)
    requires DeskInv(d) && d.nextId >= 1
    ensures var id, d' := intent.intentId, Step(c, d, Action.Submit(intent, fillId));
      if id in d.seen then d' == d
      else
        && NewOrderIn(d, d', intent)
        && if intent.orderType.Market? && !c.delayed && intent.qty > 0.0 then
             NewlyFilled(d, d', id, MarketPrice(c, intent)) && d'.pending == d.pending && d'.waiting == d.waiting
           else
             && d'.orders[id].state == Acked && d'.orders[id].fills == [] && d'.fills == d.fills
             && d'.pending == d.pending + (if intent.orderType.Market? then {} else {id})
             && d'.waiting == d.waiting + (if intent.orderType.Market? && c.delayed then {id} else {})
  {
    if intent.intentId !in d.seen {
      if intent.orderType.Market? && !c.delayed && intent.qty > 0.0 {
        FilledAtOnce(c, d, intent, fillId);
      } else {
        OpenedLater(c, d, intent, fillId);
      }
    }
    hide Dispatch, Accept, OnlyOrder, NewlyFilled, DeskInv, Digits, MarketPrice;
  }

  /** A submission that wakes fills its order at the market price, unless its caller gave up. */
  lemma WakeIs(c: Config, d: Desk, id: Name, givenUp: bool, fillId: Name)
    requires DeskInv(d)
    ensures var d' := Step(c, d, Wake(id, givenUp, fillId));
      if id !in d.waiting then d' == d
      else
        && id in d.orders && d'.waiting == d.waiting - {id} && d'.pending == d.pending
        && d'.seen == d.seen && d'.nextId == d.nextId
        && if givenUp || d.orders[id].intent.qty <= 0.0 then d'.orders == d.orders && d'.fills == d.fills
           else OnlyOrder(d, d', id) && NewlyFilled(d, d', id, MarketPrice(c, d.orders[id].intent))
  {
    hide FillOrder, MarketPrice;
    if id in d.waiting {
      var awake := d.(waiting := d.waiting - {id});
      SameFills(d, awake);
      FilledWhole(c, awake, id, MarketPrice(c, d.orders[id].intent), fillId, d.pending);
    }
    hide FillsMatch, FillsOnce, FillsComplete, IdsDistinct;
  }

  /** A simulated fill fills a pending order of a positive quantity, at the price it is given, and the order is no
      longer pending; it does nothing to any other. */
  lemma SimulateIs(c: Config, d: Desk, id: Name, price: real, fillId: Name)
    requires DeskInv(d)
    ensures var d' := Step(c, d, Action.SimulateFill(id, price, fillId));
      if id !in d.pending || d.orders[id].intent.qty <= 0.0 then d' == d
      else
        && OnlyOrder(d, d', id) && NewlyFilled(d, d', id, price)
        && d'.pending == d.pending - {id} && d'.waiting == d.waiting && d'.seen == d.seen && d'.nextId == d.nextId
  {
    hide FillOrder;
    if id in d.pending {
      assert Kept(id, d.orders[id]);
      FilledWhole(c, d, id, price, fillId, d.pending - {id});
    }
    hide FillsMatch, FillsOnce, FillsComplete, IdsDistinct;
  }

  /** A cancellation of the exchange id of a pending order cancels that order; any other does nothing. */
  lemma CancelIs(c: Config, d: Desk, orderId: Name, id: Name)
    requires DeskInv(d)
    ensures var d' := Step(c, d, Action.CancelOrder(orderId));
      && (id in d.pending && d.orders[id].orderId == Some(orderId) ==>
            && OnlyOrder(d, d', id)
            && d'.orders[id] == d.orders[id].(state := Cancelled, stateBeforeCancel := Some(Acked))
            && d' == d.(orders := d'.orders, pending := d.pending - {id}))
      && ((forall i :: i in d.pending ==> d.orders[i].orderId != Some(orderId)) ==> d' == d)
  {
    hide CancelAt;
    if id in d.pending && d.orders[id].orderId == Some(orderId) {
      UnderIsOnly(d, orderId, id);
      CancelledAt(c, d, id);
    }
    hide FillsMatch, FillsOnce, FillsComplete, IdsDistinct;
  }

  lemma CancelledAt(c: Config, d: Desk, id: Name)
    requires id in d.orders && d.orders[id].state.Acked?
    ensures CancelAt(c, d, id) == d.(pending := d.pending - {id},
      orders := d.orders[id := d.orders[id].(state := Cancelled, stateBeforeCancel := Some(Acked))])
  {
    CancelEffect(c, d.orders[id]);
    hide After, Transition;
  }

  // ---------------------------------------------------------------------------
  // The price of every fill
  // ---------------------------------------------------------------------------

  /** Somebody simulated a fill of the order at this price. */
  ghost predicate Simulated(actions: seq<Action>, id: Name, price: real) {
    exists k :: 0 <= k < |actions| && actions[k].SimulateFill? && actions[k].id == id && actions[k].price == price
  }

  /** The fill has the market price of its order, or for an order that is no market order one that was given. */
  ghost predicate Priced(c: Config, d: Desk, actions: seq<Action>, f: PaperFill) {
    f.intentId in d.orders &&
    var intent := d.orders[f.intentId].intent;
    if intent.orderType.Market? then MarketPriced(c, intent, f.price) else Simulated(actions, f.intentId, f.price)
  }

  lemma StaysPriced(c: Config, d: Desk, d': Desk, actions: seq<Action>, f: PaperFill)
    requires actions != [] && Priced(c, d, actions[..|actions| - 1], f)
    requires f.intentId in d'.orders && d'.orders[f.intentId].intent == d.orders[f.intentId].intent
    ensures Priced(c, d', actions, f)
  {
    hide MarketPriced;
    var init := actions[..|actions| - 1];
    if Simulated(init, f.intentId, f.price) {
      var k :| 0 <= k < |init| && init[k].SimulateFill? && init[k].id == f.intentId && init[k].price == f.price;
      assert actions[k] == init[k];
    }
  }

  /** Intents never change, and at most one fill is new: its price is right. */
  ghost predicate NewFillPriced(c: Config, d: Desk, d': Desk, a: Action) {
    && (forall i :: i in d.orders ==> i in d'.orders && d'.orders[i].intent == d.orders[i].intent)
    && (d'.fills == d.fills ||
        (|d'.fills| == |d.fills| + 1 && d'.fills[..|d.fills|] == d.fills &&
         Priced(c, d', [a], d'.fills[|d.fills|])))
  }

  lemma OneMorePriced(c: Config, d: Desk, d': Desk, a: Action, id: Name, price: real)
    requires OnlyOrder(d, d', id) && NewlyFilled(d, d', id, price)
    requires id in d.orders ==> d'.orders[id].intent == d.orders[id].intent
    requires if d'.orders[id].intent.orderType.Market? then MarketPriced(c, d'.orders[id].intent, price)
             else a.SimulateFill? && a.id == id && a.price == price
    ensures NewFillPriced(c, d, d', a)
  {
    hide MarketPriced;
    if !d'.orders[id].intent.orderType.Market? {
      assert [a][0] == a;
      assert Simulated([a], id, price);
    }
    assert d'.fills[..|d.fills|] == d.fills;
  }

  lemma StepPriced(c: Config, d: Desk, a: Action)
    requires DeskInv(d) && d.nextId >= 1
    ensures NewFillPriced(c, d, Step(c, d, a), a)
  {
    var d' := Step(c, d, a);
    hide Step, MarketPriced, MarketPrice, OnlyOrder, NewlyFilled, NewFillPriced, PaperId, Digits;
    match a
    case Submit(intent, fillId) =>
      SubmitIs(c, d, intent, fillId);
      MarketPriceIs(c, intent);
      SubmittedPriced(c, d, d', a);
    case Wake(id, givenUp, fillId) =>
      WakeIs(c, d, id, givenUp, fillId);
      if id in d.waiting && !givenUp && d.orders[id].intent.qty > 0.0 {
        StepKeepsDesk(c, d, a);
        SameIntent(c, d, a, id);
        MarketPriceIs(c, d.orders[id].intent);
        OneMorePriced(c, d, d', a, id, MarketPrice(c, d.orders[id].intent));
      } else {
        NoFillPriced(c, d, d', a);
      }
    case SimulateFill(id, price, fillId) =>
      SimulateIs(c, d, id, price, fillId);
      if id in d.pending && d.orders[id].intent.qty > 0.0 {
        SameIntent(c, d, a, id);
        OneMorePriced(c, d, d', a, id, price);
      } else {
        NoFillPriced(c, d, d', a);
      }
    case CancelOrder(orderId) =>
      CancelPriced(c, d, a);
  }

  lemma NoFillPriced(c: Config, d: Desk, d': Desk, a: Action)
    requires d'.orders == d.orders && d'.fills == d.fills
    ensures NewFillPriced(c, d, d', a)
  {
  }

  lemma SubmittedPriced(c: Config, d: Desk, d': Desk, a: Action)
    requires a.Submit? && (a.intent.intentId !in d.seen ==> a.intent.intentId !in d.orders)
    requires a.intent.intentId in d.seen ==> d' == d
    requires a.intent.intentId !in d.seen ==>
      OnlyOrder(d, d', a.intent.intentId) && d'.orders[a.intent.intentId].intent == a.intent &&
      (d'.fills == d.fills ||
       (a.intent.orderType.Market? && NewlyFilled(d, d', a.intent.intentId, MarketPrice(c, a.intent))))
    ensures NewFillPriced(c, d, d', a)
  {
    MarketPriceIs(c, a.intent);
    hide MarketPrice, MarketPriced;
    if a.intent.intentId !in d.seen && d'.fills != d.fills {
      OneMorePriced(c, d, d', a, a.intent.intentId, MarketPrice(c, a.intent));
    }
  }

  lemma SameIntent(c: Config, d: Desk, a: Action, id: Name)
    requires (a.Wake? || a.SimulateFill?) && a.id == id && id in d.orders
    ensures id in Step(c, d, a).orders && Step(c, d, a).orders[id].intent == d.orders[id].intent
  {
    hide Spent, MarketPrice;
  }

  lemma CancelPriced(c: Config, d: Desk, a: Action)
    requires DeskInv(d) && a.CancelOrder?
    ensures NewFillPriced(c, d, Step(c, d, a), a)
  {
    hide Priced;
    if Open(d, a.orderId) {
      CancelIs(c, d, a.orderId, Under(d, a.orderId));
    }
  }

  ghost predicate AllPriced(c: Config, d: Desk, actions: seq<Action>) {
    forall i :: 0 <= i < |d.fills| ==> Priced(c, d, actions, d.fills[i])
  }

  lemma OneMoreAction(c: Config, d: Desk, d': Desk, actions: seq<Action>)
    requires actions != [] && AllPriced(c, d, actions[..|actions| - 1])
    requires NewFillPriced(c, d, d', actions[|actions| - 1])
    ensures AllPriced(c, d', actions)
  {
    hide MarketPriced, Simulated;
    forall i | 0 <= i < |d'.fills|
      ensures Priced(c, d', actions, d'.fills[i])
    {
      if i < |d.fills| {
        assert d'.fills[i] == d'.fills[..|d.fills|][i] == d.fills[i];
        StaysPriced(c, d, d', actions, d.fills[i]);
      } else {
        LastPriced(c, d', actions, d'.fills[i]);
      }
    }
  }

  /** Over every interleaving: each fill of a market order is at its reference price with the slippage, and each
      other fill at a price that somebody simulated for its order. */
  lemma {:induction false} FillsPriced(c: Config, actions: seq<Action>)
    ensures AllPriced(c, RunDesk(c, actions), actions)
  {
    if actions != [] {
      var init, a := actions[..|actions| - 1], actions[|actions| - 1];
      FillsPriced(c, init);
      BrokerConsistent(c, init);
      hide DeskInv, AllPriced, NewFillPriced, Step;
      StepPriced(c, RunDesk(c, init), a);
      OneMoreAction(c, RunDesk(c, init), RunDesk(c, actions), actions);
    }
  }

  lemma LastPriced(c: Config, d: Desk, actions: seq<Action>, f: PaperFill)
    requires actions != [] && Priced(c, d, [actions[|actions| - 1]], f)
    ensures Priced(c, d, actions, f)
  {
    hide MarketPriced;
    assert [actions[|actions| - 1]][0] == actions[|actions| - 1];
  }
}
