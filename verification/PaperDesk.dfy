/** The paper broker's book of orders (nexus/internal/execution/paper_broker.go), as a value. A submission
    of a market order gives up the lock while it waits for its fill, so it is two steps. */
module PaperDesk {
  import opened Wrappers
  import opened Names
  import opened OrderMachine

  /** A fill as consumers see it. */
  datatype PaperFill = PaperFill(intentId: Name, orderId: Option<Name>, side: Side, qty: real, price: real)

  /** `slippage` is the configured fraction of the price; `delayed` says that market fills wait. */
  datatype Config = Config(slippage: real, delayed: bool, div: Division)

  /** `waiting` are the submissions of market orders that are in their delay. */
  datatype Desk = Desk(
    orders: map<Name, Order>, pending: set<Name>, seen: set<Name>,
    nextId: nat, fills: seq<PaperFill>, waiting: set<Name>)

  const EMPTY_DESK := Desk(map[], {}, {}, 1, [], {})

  datatype Action =
    | Submit(intent: Intent, fillId: Name)
    | Wake(id: Name, givenUp: bool, fillId: Name)
    | SimulateFill(id: Name, price: real, fillId: Name)
    | CancelOrder(orderId: Name)

  // ---------------------------------------------------------------------------
  // Exchange ids
  // ---------------------------------------------------------------------------

  function Digits(n: nat): string {
    if n < 10 then [('0' as int + n) as char] else Digits(n / 10) + [('0' as int + n % 10) as char]
  }

  function PaperId(n: nat): Name {
    Name("PAPER-" + Digits(n))
  }

  lemma {:induction false} DigitsDiffer(m: nat, n: nat)
    requires Digits(m) == Digits(n)
    ensures m == n
  {
    var last := Digits(m)[|Digits(m)| - 1];
    assert last == ('0' as int + m % 10) as char && last == ('0' as int + n % 10) as char;
    assert |Digits(m)| == 1 <==> m < 10;
    if m >= 10 {
      assert Digits(m)[..|Digits(m)| - 1] == Digits(m / 10);
      assert Digits(n)[..|Digits(n)| - 1] == Digits(n / 10);
      DigitsDiffer(m / 10, n / 10);
    }
  }

  lemma PaperIdsDiffer(m: nat, n: nat)
    requires PaperId(m) == PaperId(n)
    ensures m == n
  {
    assert ("PAPER-" + Digits(m))[6..] == Digits(m) && ("PAPER-" + Digits(n))[6..] == Digits(n);
    DigitsDiffer(m, n);
  }

  // ---------------------------------------------------------------------------
  // Steps
  // ---------------------------------------------------------------------------

  /** Buyers pay more and sellers get less; a missing reference price counts as one. */
  function MarketPrice(c: Config, intent: Intent): real {
    var reference := Reference(intent);
    match intent.side
    case Buy => reference * (1.0 + c.slippage)
    case Sell => reference * (1.0 - c.slippage)
    case OtherSide(_) => reference
  }

  /** The price slippage starts from. */
  function Reference(intent: Intent): real {
    if intent.limitPrice == 0.0 then 1.0 else intent.limitPrice
  }

  /** Slippage works against the trader, buyers paying at least the reference price and sellers getting at most
      it, exactly when it does not have the opposite sign of that price; and trades are at the reference price
      exactly when there is no slippage. */
  lemma SlippageCosts(c: Config, intent: Intent)
    ensures var price, reference := MarketPrice(c, intent), Reference(intent);
      var against := if reference > 0.0 then c.slippage >= 0.0 else c.slippage <= 0.0;
      && (intent.side.Buy? ==> (price >= reference <==> against))
      && (intent.side.Sell? ==> (price <= reference <==> against))
      && (intent.side.Buy? || intent.side.Sell? ==> (price == reference <==> c.slippage == 0.0))
      && (intent.side.OtherSide? ==> price == reference)
  {
    var reference := Reference(intent);
    assert reference * (1.0 + c.slippage) == reference + reference * c.slippage;
    assert reference * (1.0 - c.slippage) == reference - reference * c.slippage;
    SignOfProduct(reference, c.slippage);
  }

  lemma SignOfProduct(x: real, y: real)
    requires x != 0.0
    ensures x * y >= 0.0 <==> if x > 0.0 then y >= 0.0 else y <= 0.0
    ensures x * y == 0.0 <==> y == 0.0
  {
  }

  function FillOf(o: Order, qty: real, price: real): PaperFill {
    PaperFill(o.intent.intentId, o.orderId, o.intent.side, qty, price)
  }

  /** Fills an order with a quantity, leaving `left` pending; a refused fill leaves no trace. */
  function FillOrder(c: Config, d: Desk, id: Name, qty: real, price: real, fillId: Name, left: set<Name>): Desk
    requires id in d.orders
  {
    var o, data := d.orders[id], FillData(FillRecord(fillId, qty, price, 0.0));
    if Transition(o, Fill, data, c.div).None? then d
    else d.(orders := d.orders[id := After(o, Fill, data, c.div)], pending := left,
            fills := d.fills + [FillOf(o, qty, price)])
  }

  function AckedOrder(c: Config, intent: Intent, n: nat): Order {
    After(After(NewOrder(intent), Event.Submit, NoData, c.div), Ack, AckData(PaperId(n)), c.div)
  }

  /** A new order under the next exchange id. */
  function Accept(c: Config, d: Desk, intent: Intent): Desk {
    d.(orders := d.orders[intent.intentId := AckedOrder(c, intent, d.nextId)],
       seen := d.seen + {intent.intentId}, nextId := d.nextId + 1)
  }

  ghost predicate Open(d: Desk, orderId: Name) {
    exists id :: id in d.pending && id in d.orders && d.orders[id].orderId == Some(orderId)
  }

  /** Some pending order under an exchange id. */
  ghost function Under(d: Desk, orderId: Name): Name
    requires Open(d, orderId)
  {
    var id :| id in d.pending && id in d.orders && d.orders[id].orderId == Some(orderId);
    id
  }

  function CancelAt(c: Config, d: Desk, id: Name): Desk
    requires id in d.orders
  {
    var asked := Transition(d.orders[id], RequestCancel, NoData, c.div);
    if asked.None? then d
    else d.(orders := d.orders[id := After(asked.value, CancelAck, NoData, c.div)], pending := d.pending - {id})
  }

  /** A market order is filled, at once or after its delay; any other waits for its price. */
  function Dispatch(c: Config, d: Desk, intent: Intent, fillId: Name): Desk
    requires intent.intentId in d.orders
  {
    if !intent.orderType.Market? then d.(pending := d.pending + {intent.intentId})
    else if c.delayed then d.(waiting := d.waiting + {intent.intentId})
    else FillOrder(c, d, intent.intentId, intent.qty, MarketPrice(c, intent), fillId, d.pending)
  }

  ghost function Step(c: Config, d: Desk, a: Action): Desk {
    match a
    case Submit(intent, fillId) =>
      if intent.intentId in d.seen then d else Dispatch(c, Accept(c, d, intent), intent, fillId)
    case Wake(id, givenUp, fillId) =>
      if id !in d.waiting || id !in d.orders then d
      else
        var awake := d.(waiting := d.waiting - {id});
        if givenUp then awake
        else FillOrder(c, awake, id, d.orders[id].intent.qty, MarketPrice(c, d.orders[id].intent), fillId, d.pending)
    case SimulateFill(id, price, fillId) =>
      if id !in d.pending || id !in d.orders then d
      else FillOrder(c, d, id, d.orders[id].intent.qty - d.orders[id].filledQty, price, fillId, d.pending - {id})
    case CancelOrder(orderId) =>
      if !Open(d, orderId) then d else CancelAt(c, d, Under(d, orderId))
  }

  ghost function RunDesk(c: Config, actions: seq<Action>): Desk {
    if actions == [] then EMPTY_DESK else Step(c, RunDesk(c, actions[..|actions| - 1]), actions[|actions| - 1])
  }

  // ---------------------------------------------------------------------------
  // What every run keeps
  // ---------------------------------------------------------------------------

  ghost predicate Numbered(o: Order, next: nat) {
    exists n: nat :: 1 <= n < next && o.orderId == Some(PaperId(n))
  }

  /** An order at the broker is open, filled with its whole quantity, or cancelled. */
  predicate Kept(id: Name, o: Order) {
    && o.intent.intentId == id
    && (o.state.Acked? || o.state.Filled? || o.state.Cancelled?)
    && o.filledQty == (if o.state.Filled? then o.intent.qty else 0.0)
    && (o.state.Filled? ==> o.intent.qty > 0.0)
  }

  ghost predicate OrdersKept(d: Desk) {
    && d.orders.Keys == d.seen
    && forall id :: id in d.orders ==> Kept(id, d.orders[id])
  }

  ghost predicate IdsDistinct(d: Desk) {
    && (forall id :: id in d.orders ==> Numbered(d.orders[id], d.nextId))
    && (forall i, j :: i in d.orders && j in d.orders && i != j ==> d.orders[i].orderId != d.orders[j].orderId)
  }

  /** Pending orders are exactly the open ones that are not market orders. */
  ghost predicate PendingExact(d: Desk) {
    && (forall id :: id in d.pending <==>
          id in d.orders && !d.orders[id].intent.orderType.Market? && d.orders[id].state.Acked?)
    && (forall id :: id in d.waiting ==>
          id in d.orders && d.orders[id].intent.orderType.Market? && d.orders[id].state.Acked?)
  }

  predicate FillMatches(f: PaperFill, o: Order) {
    o.state.Filled? && f.qty == o.intent.qty && f.orderId == o.orderId && f.side == o.intent.side
  }

  /** Every fill is the whole of a filled order. */
  ghost predicate FillsMatch(d: Desk) {
    forall i :: 0 <= i < |d.fills| ==>
      d.fills[i].intentId in d.orders && FillMatches(d.fills[i], d.orders[d.fills[i].intentId])
  }

  ghost predicate FillsOnce(d: Desk) {
    forall i, j :: 0 <= i < j < |d.fills| ==> d.fills[i].intentId != d.fills[j].intentId
  }

  ghost predicate HasFill(d: Desk, id: Name) {
    exists i :: 0 <= i < |d.fills| && d.fills[i].intentId == id
  }

  ghost predicate FillsComplete(d: Desk) {
    forall id :: id in d.orders && d.orders[id].state.Filled? ==> HasFill(d, id)
  }

  ghost predicate DeskInv(d: Desk) {
    OrdersKept(d) && IdsDistinct(d) && PendingExact(d) && FillsMatch(d) && FillsOnce(d) && FillsComplete(d)
  }

  lemma AckedOrderIs(c: Config, intent: Intent, n: nat)
    ensures AckedOrder(c, intent, n) == NewOrder(intent).(orderId := Some(PaperId(n)), state := Acked)
  {
  }

  lemma AcceptIds(c: Config, d: Desk, intent: Intent)
    requires IdsDistinct(d) && intent.intentId !in d.orders && d.nextId >= 1
    ensures IdsDistinct(Accept(c, d, intent))
  {
    var d' := Accept(c, d, intent);
    AckedOrderIs(c, intent, d.nextId);
    hide AckedOrder, PaperId;
    assert Numbered(d'.orders[intent.intentId], d'.nextId);
    forall id | id in d.orders
      ensures Numbered(d.orders[id], d'.nextId) && d.orders[id].orderId != Some(PaperId(d.nextId))
    {
      var n: nat :| 1 <= n < d.nextId && d.orders[id].orderId == Some(PaperId(n));
      if PaperId(n) == PaperId(d.nextId) {
        PaperIdsDiffer(n, d.nextId);
      }
    }
  }

  /** A new order, not yet pending or waiting. */
  lemma AcceptFills(c: Config, d: Desk, intent: Intent)
    requires FillsMatch(d) && FillsOnce(d) && FillsComplete(d) && intent.intentId !in d.orders
    ensures FillsMatch(Accept(c, d, intent)) && FillsOnce(Accept(c, d, intent)) && FillsComplete(Accept(c, d, intent))
  {
    AckedOrderIs(c, intent, d.nextId);
    hide AckedOrder, PaperId;
    var d' := Accept(c, d, intent);
    forall id | id in d'.orders && d'.orders[id].state.Filled?
      ensures HasFill(d', id)
    {
      assert HasFill(d, id);
    }
  }

  /** Fills look at the orders and the fills only. */
  lemma SameFills(d: Desk, d': Desk)
    requires FillsMatch(d) && FillsOnce(d) && FillsComplete(d) && d'.orders == d.orders && d'.fills == d.fills
    ensures FillsMatch(d') && FillsOnce(d') && FillsComplete(d')
  {
    forall id | id in d'.orders && d'.orders[id].state.Filled?
      ensures HasFill(d', id)
    {
      assert HasFill(d, id);
    }
  }

  lemma AcceptOrders(c: Config, d: Desk, intent: Intent)
    requires OrdersKept(d)
    ensures OrdersKept(Accept(c, d, intent))
  {
    AckedOrderIs(c, intent, d.nextId);
    hide AckedOrder, PaperId;
  }

  /** The new order is among the pending, or among the waiting, or a market order and neither. */
  lemma AcceptPending(c: Config, d: Desk, intent: Intent, pending: set<Name>, waiting: set<Name>)
    requires PendingExact(d) && intent.intentId !in d.orders
    requires pending == d.pending + if intent.orderType.Market? then {} else {intent.intentId}
    requires waiting == d.waiting || (intent.orderType.Market? && waiting == d.waiting + {intent.intentId})
    ensures PendingExact(Accept(c, d, intent).(pending := pending, waiting := waiting))
  {
    AckedOrderIs(c, intent, d.nextId);
    hide AckedOrder, PaperId;
  }

  /** An accepted submission, before its fill if it gets one at once. */
  lemma AcceptKeeps(c: Config, d: Desk, intent: Intent, pending: set<Name>, waiting: set<Name>)
    requires DeskInv(d) && intent.intentId !in d.seen && d.nextId >= 1
    requires pending == d.pending + if intent.orderType.Market? then {} else {intent.intentId}
    requires waiting == d.waiting || (intent.orderType.Market? && waiting == d.waiting + {intent.intentId})
    ensures DeskInv(Accept(c, d, intent).(pending := pending, waiting := waiting))
    ensures intent.intentId !in d.waiting && intent.intentId !in d.pending
  {
    AcceptOrders(c, d, intent);
    AcceptPending(c, d, intent, pending, waiting);
    AcceptIds(c, d, intent);
    AcceptFills(c, d, intent);
    var d' := Accept(c, d, intent);
    SameFills(d', d'.(pending := pending, waiting := waiting));
    assert intent.intentId !in d.waiting && intent.intentId !in d.pending;
    hide FillsMatch, FillsOnce, FillsComplete, Numbered, PendingExact, Accept, Kept;
  }

  predicate Fillable(o: Order) {
    o.state.Acked? && o.filledQty == 0.0
  }

  /** A whole fill is refused exactly when the order has nothing to fill. */
  lemma WholeFill(c: Config, o: Order, price: real, fillId: Name)
    requires Fillable(o)
    ensures var data := FillData(FillRecord(fillId, o.intent.qty, price, 0.0));
      && (Transition(o, Fill, data, c.div).Some? <==> o.intent.qty > 0.0)
      && (o.intent.qty > 0.0 ==>
           var o' := After(o, Fill, data, c.div);
           && o'.state.Filled? && o'.filledQty == o.intent.qty && o'.intent == o.intent && o'.orderId == o.orderId)
  {
    hide Spent;
  }

  /** The part of the invariant that a fill of `id` needs and restores, apart from waiting. */
  lemma FillKeepsFills(d: Desk, d': Desk, id: Name, o': Order, f: PaperFill)
    requires FillsMatch(d) && FillsOnce(d) && FillsComplete(d)
    requires id in d.orders && !d.orders[id].state.Filled? && f.intentId == id && FillMatches(f, o')
    requires d'.orders == d.orders[id := o'] && d'.fills == d.fills + [f]
    ensures FillsMatch(d') && FillsOnce(d') && FillsComplete(d')
  {
    assert forall i :: 0 <= i < |d.fills| ==> d.fills[i].intentId != id;
    assert d'.fills[|d.fills|] == f;
    forall j | j in d'.orders && d'.orders[j].state.Filled?
      ensures HasFill(d', j)
    {
      if j != id {
        assert HasFill(d, j);
        var i :| 0 <= i < |d.fills| && d.fills[i].intentId == j;
        assert d'.fills[i].intentId == j;
      }
    }
  }

  lemma UpdateKeepsIds(d: Desk, d': Desk, id: Name, o': Order)
    requires IdsDistinct(d) && id in d.orders && o'.orderId == d.orders[id].orderId
    requires d'.orders == d.orders[id := o'] && d'.nextId == d.nextId
    ensures IdsDistinct(d')
  {
    hide PaperId;
    assert Numbered(d.orders[id], d.nextId);
    assert Numbered(o', d.nextId);
  }

  lemma WholeFillKeeps(c: Config, d: Desk, id: Name, price: real, fillId: Name, left: set<Name>)
    requires DeskInv(d) && id in d.orders && d.orders[id].state.Acked? && id !in d.waiting && left == d.pending - {id}
    ensures DeskInv(FillOrder(c, d, id, d.orders[id].intent.qty, price, fillId, left))
  {
    var o := d.orders[id];
    assert Kept(id, o);
    var d' := FillOrder(c, d, id, o.intent.qty, price, fillId, left);
    WholeFill(c, o, price, fillId);
    hide After, Transition;
    if o.intent.qty > 0.0 {
      var o' := After(o, Fill, FillData(FillRecord(fillId, o.intent.qty, price, 0.0)), c.div);
      FillKeepsFills(d, d', id, o', FillOf(o, o.intent.qty, price));
      UpdateKeepsIds(d, d', id, o');
      hide FillsMatch, FillsOnce, FillsComplete, IdsDistinct, FillOrder;
    }
  }

  lemma CancelEffect(c: Config, o: Order)
    requires o.state.Acked?
    ensures var asked := Transition(o, RequestCancel, NoData, c.div);
      && asked.Some?
      && After(asked.value, CancelAck, NoData, c.div) == o.(state := Cancelled, stateBeforeCancel := Some(Acked))
  {
  }

  lemma CancelKeepsFills(d: Desk, d': Desk, id: Name, o': Order)
    requires FillsMatch(d) && FillsOnce(d) && FillsComplete(d)
    requires id in d.orders && !d.orders[id].state.Filled? && !o'.state.Filled?
    requires d'.orders == d.orders[id := o'] && d'.fills == d.fills
    ensures FillsMatch(d') && FillsOnce(d') && FillsComplete(d')
  {
    assert forall i :: 0 <= i < |d.fills| ==> d.fills[i].intentId != id;
    forall j | j in d'.orders && d'.orders[j].state.Filled?
      ensures HasFill(d', j)
    {
      assert HasFill(d, j);
    }
  }

  lemma CancelledStands(d: Desk, d': Desk, id: Name, o': Order)
    requires OrdersKept(d) && PendingExact(d) && id in d.pending
    requires Kept(id, o') && o'.intent == d.orders[id].intent && o'.state.Cancelled?
    requires d' == d.(orders := d.orders[id := o'], pending := d.pending - {id})
    ensures OrdersKept(d') && PendingExact(d')
  {
    hide Kept;
  }

  lemma CancelKeeps(c: Config, d: Desk, id: Name)
    requires DeskInv(d) && id in d.pending
    ensures DeskInv(CancelAt(c, d, id))
  {
    var o, d' := d.orders[id], CancelAt(c, d, id);
    assert Kept(id, o);
    CancelEffect(c, o);
    hide After, Transition;
    var o' := o.(state := Cancelled, stateBeforeCancel := Some(Acked));
    CancelKeepsFills(d, d', id, o');
    UpdateKeepsIds(d, d', id, o');
    assert d' == d.(orders := d.orders[id := o'], pending := d.pending - {id});
    CancelledStands(d, d', id, o');
    hide FillsMatch, FillsOnce, FillsComplete, IdsDistinct, CancelAt, OrdersKept, PendingExact;
  }

  /** An exchange id names one pending order: whichever is found, it is this one. */
  lemma UnderIsOnly(d: Desk, orderId: Name, id: Name)
    requires IdsDistinct(d) && id in d.pending && id in d.orders && d.orders[id].orderId == Some(orderId)
    ensures Open(d, orderId) && Under(d, orderId) == id
  {
  }

  lemma SubmitKeeps(c: Config, d: Desk, intent: Intent, fillId: Name)
    requires DeskInv(d) && d.nextId >= 1
    ensures DeskInv(Step(c, d, Action.Submit(intent, fillId)))
  {
    var id := intent.intentId;
    AckedOrderIs(c, intent, d.nextId);
    hide DeskInv, FillOrder, AckedOrder, PaperId, MarketPrice;
    if id in d.seen {
    } else if !intent.orderType.Market? {
      AcceptKeeps(c, d, intent, d.pending + {id}, d.waiting);
    } else if c.delayed {
      AcceptKeeps(c, d, intent, d.pending, d.waiting + {id});
    } else {
      AcceptKeeps(c, d, intent, d.pending, d.waiting);
      WholeFillKeeps(c, Accept(c, d, intent), id, MarketPrice(c, intent), fillId, d.pending);
    }
  }

  lemma WakeKeeps(c: Config, d: Desk, a: Action)
    requires DeskInv(d) && a.Wake?
    ensures DeskInv(Step(c, d, a))
  {
    hide FillOrder, MarketPrice, FillsMatch, FillsOnce, FillsComplete;
    if a.id in d.waiting {
      var awake := d.(waiting := d.waiting - {a.id});
      SameFills(d, awake);
      if !a.givenUp {
        WholeFillKeeps(c, awake, a.id, MarketPrice(c, d.orders[a.id].intent), a.fillId, d.pending);
      }
    }
  }

  lemma SimulateKeeps(c: Config, d: Desk, a: Action)
    requires DeskInv(d) && a.SimulateFill?
    ensures DeskInv(Step(c, d, a))
  {
    if a.id in d.pending {
      assert Kept(a.id, d.orders[a.id]);
      assert a.id !in d.waiting;
      hide DeskInv, FillOrder;
      WholeFillKeeps(c, d, a.id, a.price, a.fillId, d.pending - {a.id});
    }
  }

  lemma StepKeepsDesk(c: Config, d: Desk, a: Action)
    requires DeskInv(d) && d.nextId >= 1
    ensures DeskInv(Step(c, d, a)) && Step(c, d, a).nextId >= 1
  {
    match a
    case Submit(intent, fillId) => SubmitKeeps(c, d, intent, fillId);
    case Wake(_, _, _) => WakeKeeps(c, d, a);
    case SimulateFill(_, _, _) => SimulateKeeps(c, d, a);
    case CancelOrder(orderId) =>
      if Open(d, orderId) {
        CancelKeeps(c, d, Under(d, orderId));
      }
  }

  /** In every interleaving of submissions, wake-ups, simulated fills and cancellations: the pending orders
      are exactly the open orders that are not market orders; exchange ids are pairwise distinct; and there
      is exactly one fill per FILLED order, of its whole quantity, and none besides. */
  lemma {:induction false} BrokerConsistent(c: Config, actions: seq<Action>)
    ensures DeskInv(RunDesk(c, actions)) && RunDesk(c, actions).nextId >= 1
  {
    if actions == [] {
    } else {
      BrokerConsistent(c, actions[..|actions| - 1]);
      StepKeepsDesk(c, RunDesk(c, actions[..|actions| - 1]), actions[|actions| - 1]);
    }
  }
}
