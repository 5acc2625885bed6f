/** The order lifecycle state machine (nexus/internal/execution/order_sm.go). */
module OrderMachine {
  import opened Wrappers
  import opened Names

  datatype State =
    Created | Submitted | Acked | Partial | Filled | Rejected | CancelPending | Cancelled | CancelRejected

  datatype Event = Submit | Ack | Reject | PartialFill | Fill | RequestCancel | CancelAck | CancelReject

  /** The transition table. */
  function Next(s: State, e: Event): Option<State> {
    match (s, e)
    case (Created, Submit) => Some(Submitted)
    case (Submitted, Ack) => Some(Acked)
    case (Submitted, Reject) => Some(Rejected)
    case (Acked, PartialFill) => Some(Partial)
    case (Acked, Fill) => Some(Filled)
    case (Partial, PartialFill) => Some(Partial)
    case (Partial, Fill) => Some(Filled)
    case (Acked, RequestCancel) => Some(CancelPending)
    case (Partial, RequestCancel) => Some(CancelPending)
    case (CancelPending, CancelAck) => Some(Cancelled)
    case (CancelPending, CancelReject) => Some(CancelRejected)
    case (CancelPending, Fill) => Some(Filled)
    case _ => None
  }

  predicate Terminal(s: State) {
    s.Filled? || s.Rejected? || s.Cancelled?
  }

  datatype FillRecord = FillRecord(fillId: Name, qty: real, price: real, fee: real)

  /** What comes with an event. */
  datatype Data = NoData | AckData(orderId: Name) | FillData(fill: FillRecord)

  datatype Intent = Intent(
    intentId: Name, strategy: Name, exchange: Name, symbol: Name,
    side: Side, orderType: OrderType, qty: real, limitPrice: real)

  datatype OrderType = Market | Limit | OtherType(name: Name)

  datatype Order = Order(
    intent: Intent,
    orderId: Option<Name>,
    filledQty: real,
    avgFillPrice: real,
    state: State,
    fills: seq<FillRecord>,
    stateBeforeCancel: Option<State>)

  function NewOrder(intent: Intent): Order {
    Order(intent, None, 0.0, 0.0, Created, [], None)
  }

  // Decimal division: it may round.
  type Division = (real, real) -> real

  function Spent(price: real, qty: real): real {
    price * qty
  }

  /** A fill is recorded only when it is positive and fits the order. */
  function RecordFill(o: Order, f: FillRecord, div: Division): Option<Order> {
    var filled := o.filledQty + f.qty;
    if f.qty <= 0.0 || filled > o.intent.qty then None
    else Some(o.(avgFillPrice := div(Spent(o.avgFillPrice, o.filledQty) + Spent(f.price, f.qty), filled),
                 filledQty := filled, fills := o.fills + [f]))
  }

  /** The effect of an event, or None when it is refused. */
  function Transition(o: Order, e: Event, d: Data, div: Division): Option<Order> {
    var next :- Next(o.state, e);
    match e
    case Ack => Some(o.(orderId := if d.AckData? then Some(d.orderId) else o.orderId, state := next))
    case PartialFill | Fill =>
      if !d.FillData? then None
      else
        var recorded :- RecordFill(o, d.fill, div);
        Some(recorded.(state := next))
    case RequestCancel => Some(o.(stateBeforeCancel := Some(o.state), state := next))
    case CancelReject => Some(o.(state := if o.stateBeforeCancel.Some? then o.stateBeforeCancel.value else next))
    case _ => Some(o.(state := next))
  }

  /** What the caller is left with: a refused event changes nothing. */
  function After(o: Order, e: Event, d: Data, div: Division): Order {
    match Transition(o, e, d, div)
    case None => o
    case Some(o') => o'
  }

  lemma RefusedChangesNothing(o: Order, e: Event, d: Data, div: Division)
    requires Transition(o, e, d, div).None?
    ensures After(o, e, d, div) == o
  {
  }

  /** A fill comes with the event; it is positive and no more than what is open. */
  predicate FillComes(o: Order, d: Data) {
    d.FillData? && 0.0 < d.fill.qty <= o.intent.qty - o.filledQty
  }

  /** The states in which each event is taken. */
  predicate Takes(o: Order, e: Event, d: Data) {
    match e
    case Submit => o.state == Created
    case Ack | Reject => o.state == Submitted
    case PartialFill => o.state in {Acked, Partial} && FillComes(o, d)
    case Fill => o.state in {Acked, Partial, CancelPending} && FillComes(o, d)
    case RequestCancel => o.state in {Acked, Partial}
    case CancelAck | CancelReject => o.state == CancelPending
  }

  /** An event is taken in exactly the states the lifecycle names, and a fill only if it is positive and fits
      what is open. */
  lemma TakenExactly(o: Order, e: Event, d: Data, div: Division)
    ensures Transition(o, e, d, div).Some? <==> Takes(o, e, d)
  {
    hide Spent;
  }

  /** What a taken event does to the order's state, and what to the rest of it. */
  lemma TakenLeaves(o: Order, e: Event, d: Data, div: Division)
    requires Takes(o, e, d)
    ensures var o' := After(o, e, d, div);
      match e
      case Submit => o' == o.(state := Submitted)
      case Ack => o' == o.(state := Acked, orderId := o'.orderId)
             && o'.orderId == if d.AckData? then Some(d.orderId) else o.orderId
      case Reject => o' == o.(state := Rejected)
      case PartialFill | Fill =>
        && o' == o.(state := if e.Fill? then Filled else Partial, fills := o.fills + [d.fill],
                    filledQty := o.filledQty + d.fill.qty, avgFillPrice := o'.avgFillPrice)
        && o'.avgFillPrice ==
             div(Spent(o.avgFillPrice, o.filledQty) + Spent(d.fill.price, d.fill.qty), o.filledQty + d.fill.qty)
      case RequestCancel => o' == o.(state := CancelPending, stateBeforeCancel := Some(o.state))
      case CancelAck => o' == o.(state := Cancelled)
      case CancelReject =>
        o' == o.(state := if o.stateBeforeCancel.Some? then o.stateBeforeCancel.value else CancelRejected)
  {
    hide Spent;
  }

  /** A fill of all that is open completes the order, also while a cancellation is pending. */
  lemma RestIsTaken(o: Order, f: FillRecord, div: Division)
    requires o.state in {Acked, Partial, CancelPending} && 0.0 < f.qty == o.intent.qty - o.filledQty
    ensures var o' := After(o, Fill, FillData(f), div);
      o'.state == Filled && o'.filledQty == o'.intent.qty && o'.fills == o.fills + [f]
  {
    TakenLeaves(o, Fill, FillData(f), div);
  }

  function Run(o: Order, events: seq<(Event, Data)>, div: Division): Order {
    if events == [] then o
    else
      var last := events[|events| - 1];
      After(Run(o, events[..|events| - 1], div), last.0, last.1, div)
  }

  // ---------------------------------------------------------------------------
  // The invariant of every reachable order
  // ---------------------------------------------------------------------------

  function TotalQty(fills: seq<FillRecord>): real {
    if fills == [] then 0.0 else TotalQty(fills[..|fills| - 1]) + fills[|fills| - 1].qty
  }

  function TotalCost(fills: seq<FillRecord>): real {
    if fills == [] then 0.0
    else TotalCost(fills[..|fills| - 1]) + Spent(fills[|fills| - 1].price, fills[|fills| - 1].qty)
  }

  /** Which fills a state allows. */
  predicate StateFits(s: State, before: Option<State>, anyFills: bool) {
    match s
    case Created | Submitted | Acked | Rejected => !anyFills
    case Partial | Filled => anyFills
    case CancelPending => before == Some(if anyFills then Partial else Acked)
    case Cancelled => true
    case CancelRejected => false
  }

  predicate Inv(o: Order) {
    && o.filledQty == TotalQty(o.fills)
    && (o.fills != [] ==> 0.0 < o.filledQty <= o.intent.qty)
    && (forall i :: 0 <= i < |o.fills| ==> o.fills[i].qty > 0.0)
    && StateFits(o.state, o.stateBeforeCancel, o.fills != [])
  }

  lemma RecordFillKeeps(o: Order, f: FillRecord, div: Division)
    requires Inv(o) && RecordFill(o, f, div).Some?
    ensures var o' := RecordFill(o, f, div).value;
      && o'.filledQty == TotalQty(o'.fills) && 0.0 < o'.filledQty <= o'.intent.qty
      && (forall i :: 0 <= i < |o'.fills| ==> o'.fills[i].qty > 0.0)
  {
    assert (o.fills + [f])[..|o.fills|] == o.fills;
  }

  lemma FillEventKeeps(o: Order, e: Event, f: FillRecord, div: Division)
    requires Inv(o) && (e.PartialFill? || e.Fill?)
    ensures Inv(After(o, e, FillData(f), div)) && After(o, e, FillData(f), div).intent == o.intent
  {
    hide TotalQty, Spent;
    if Next(o.state, e).Some? && RecordFill(o, f, div).Some? {
      RecordFillKeeps(o, f, div);
      var o' := RecordFill(o, f, div).value;
      assert o'.fills == o.fills + [f] && o'.intent == o.intent && o'.stateBeforeCancel == o.stateBeforeCancel;
      hide RecordFill;
      assert After(o, e, FillData(f), div) == o'.(state := Next(o.state, e).value);
    }
  }

  lemma OtherEventKeeps(o: Order, e: Event, d: Data, div: Division)
    requires Inv(o) && !((e.PartialFill? || e.Fill?) && d.FillData?)
    ensures Inv(After(o, e, d, div)) && After(o, e, d, div).intent == o.intent
    ensures After(o, e, d, div).fills == o.fills && After(o, e, d, div).filledQty == o.filledQty
    ensures After(o, e, d, div).avgFillPrice == o.avgFillPrice
  {
    hide TotalQty, RecordFill;
  }

  lemma TransitionKeeps(o: Order, e: Event, d: Data, div: Division)
    requires Inv(o)
    ensures Inv(After(o, e, d, div)) && After(o, e, d, div).intent == o.intent
  {
    hide Inv, After;
    if (e.PartialFill? || e.Fill?) && d.FillData? {
      FillEventKeeps(o, e, d.fill, div);
    } else {
      OtherEventKeeps(o, e, d, div);
    }
  }

  /** In every reachable state the filled quantity is the sum of the fills and within the order; ACKED
      has no fill and PARTIAL has one, also after a rejected cancel; CANCEL_REJECTED is never reached. */
  lemma {:induction false} OrderInvariant(intent: Intent, events: seq<(Event, Data)>, div: Division)
    ensures Inv(Run(NewOrder(intent), events, div)) && Run(NewOrder(intent), events, div).intent == intent
  {
    if events == [] {
    } else {
      OrderInvariant(intent, events[..|events| - 1], div);
      var last := events[|events| - 1];
      TransitionKeeps(Run(NewOrder(intent), events[..|events| - 1], div), last.0, last.1, div);
    }
  }

  /** Terminal states are absorbing, over any further events. */
  lemma {:induction false} TerminalAbsorbs(o: Order, events: seq<(Event, Data)>, div: Division)
    requires Terminal(o.state)
    ensures Run(o, events, div) == o
  {
    if events == [] {
    } else {
      TerminalAbsorbs(o, events[..|events| - 1], div);
    }
  }

  /** A rejected cancel puts an order back where it was when the cancel was requested. */
  lemma CancelRejectRestores(o: Order, d: Data, d': Data, div: Division)
    requires Transition(o, RequestCancel, d, div).Some?
    ensures var asked := After(o, RequestCancel, d, div);
      && Transition(asked, CancelReject, d', div).Some?
      && After(asked, CancelReject, d', div) == o.(stateBeforeCancel := Some(o.state))
  {
  }

  /** FILLED does not by itself mean filled in full: it does exactly when the fill covers what is open. */
  lemma FilledInFull(o: Order, f: FillRecord, div: Division)
    requires Transition(o, Fill, FillData(f), div).Some?
    ensures var o' := Transition(o, Fill, FillData(f), div).value;
      o'.state == Filled && (o'.filledQty == o'.intent.qty <==> f.qty == o.intent.qty - o.filledQty)
  {
  }

  /** The event of this number is the FILL that made the order what it is now. */
  ghost predicate FilledBy(o: Order, events: seq<(Event, Data)>, n: nat, div: Division) {
    && n < |events| && events[n].0.Fill? && events[n].1.FillData?
    && Transition(Run(o, events[..n], div), Fill, events[n].1, div).Some?
    && Run(o, events[..n + 1], div) == Run(o, events, div)
  }

  lemma {:induction false} SomeFill(intent: Intent, events: seq<(Event, Data)>, div: Division) returns (n: nat)
    requires Run(NewOrder(intent), events, div).state.Filled?
    ensures FilledBy(NewOrder(intent), events, n, div)
  {
    var o, init, last := NewOrder(intent), events[..|events| - 1], events[|events| - 1];
    assert events[..|events|] == events;
    hide After, Transition, Inv;
    OrderInvariant(intent, init, div);
    if Run(o, init, div).state.Filled? {
      StaysFilled(Run(o, init, div), last.0, last.1, div);
      n := SomeFill(intent, init, div);
      assert init[..n] == events[..n] && init[..n + 1] == events[..n + 1] && init[n] == events[n];
    } else {
      BecameFilled(Run(o, init, div), last.0, last.1, div);
      n := |events| - 1;
    }
  }

  lemma StaysFilled(o: Order, e: Event, d: Data, div: Division)
    requires o.state.Filled?
    ensures After(o, e, d, div) == o
  {
  }

  lemma BecameFilled(o: Order, e: Event, d: Data, div: Division)
    requires Inv(o) && !o.state.Filled? && After(o, e, d, div).state.Filled?
    ensures e.Fill? && d.FillData? && Transition(o, e, d, div).Some?
  {
    hide RecordFill, TotalQty;
  }

  /** Over every run: a FILLED order is full if and only if the FILL that it accepted carried all that was
      open. */
  lemma FilledRun(intent: Intent, events: seq<(Event, Data)>, n: nat, div: Division)
    requires FilledBy(NewOrder(intent), events, n, div)
    ensures var before, o := Run(NewOrder(intent), events[..n], div), Run(NewOrder(intent), events, div);
      && o.state.Filled?
      && (o.filledQty == intent.qty <==> events[n].1.fill.qty == before.intent.qty - before.filledQty)
  {
    var before := Run(NewOrder(intent), events[..n], div);
    assert events[..n + 1][..n] == events[..n];
    OrderInvariant(intent, events, div);
    FilledInFull(before, events[n].1.fill, div);
    hide RecordFill, Inv;
  }

  /** A FILL event with half the quantity makes a terminal order that is half filled. */
  lemma FilledByHalf(intent: Intent, f: FillRecord, div: Division)
    requires intent.qty == 2.0 && f.qty == 1.0
    ensures var events := [(Submit, NoData), (Ack, NoData), (Fill, FillData(f))];
      var o := Run(NewOrder(intent), events, div);
      o.state == Filled && o.filledQty == 1.0 && o.intent.qty == 2.0
  {
    var events := [(Submit, NoData), (Ack, NoData), (Fill, FillData(f))];
    assert events[..2] == [(Submit, NoData), (Ack, NoData)];
    assert events[..2][..1] == [(Submit, NoData)];
    assert events[..2][..1][..0] == [];
    assert Run(NewOrder(intent), events[..2][..1], div).state == Submitted;
    assert Run(NewOrder(intent), events[..2], div).state == Acked;
  }

  // ---------------------------------------------------------------------------
  // The average fill price
  // ---------------------------------------------------------------------------

  /** The division is within `eps` of the exact quotient: multiplied back by the divisor, it is within
      `eps` times the divisor of the dividend. */
  ghost predicate Rounds(div: Division, eps: real) {
    eps >= 0.0 && forall x: real, y: real :: y > 0.0 ==> Abs(Spent(div(x, y), y) - x) <= eps * y
  }

  function Abs(x: real): real {
    if x < 0.0 then -x else x
  }

  /** How far the average, times the quantity, is off the money spent. */
  function Drift(o: Order): real {
    Abs(Spent(o.avgFillPrice, o.filledQty) - TotalCost(o.fills))
  }

  /** `n` times `unit`. */
  function Times(n: nat, unit: real): real {
    if n == 0 then 0.0 else Times(n - 1, unit) + unit
  }

  lemma {:induction false} TimesIsProduct(n: nat, unit: real)
    ensures Times(n, unit) == n as real * unit
  {
    if n > 0 {
      TimesIsProduct(n - 1, unit);
      assert n as real * unit == (n - 1) as real * unit + unit;
    }
  }

  lemma ScaledUp(a: real, b: real, y: real)
    requires a <= b && y >= 0.0
    ensures a * y <= b * y
  {
  }

  /** One rounding of the whole order. */
  function Slack(o: Order, eps: real): real {
    eps * o.intent.qty
  }

  lemma BelowSlack(o: Order, eps: real)
    requires eps >= 0.0 && o.filledQty <= o.intent.qty
    ensures eps * o.filledQty <= Slack(o, eps)
  {
    ScaledUp(o.filledQty, o.intent.qty, eps);
  }

  lemma DriftStep(o: Order, f: FillRecord, div: Division, eps: real)
    requires Rounds(div, eps) && o.filledQty >= 0.0
    requires RecordFill(o, f, div).Some?
    ensures var o' := RecordFill(o, f, div).value;
      Drift(o') <= Drift(o) + Slack(o, eps)
  {
    hide Spent, Slack;
    var o' := RecordFill(o, f, div).value;
    assert o'.fills[..|o.fills|] == o.fills;
    var x := Spent(o.avgFillPrice, o.filledQty) + Spent(f.price, f.qty);
    assert Abs(Spent(o'.avgFillPrice, o'.filledQty) - x) <= eps * o'.filledQty;
    BelowSlack(o', eps);
    SlackOfIntent(o, o', eps);
  }

  lemma SlackOfIntent(o: Order, o': Order, eps: real)
    requires o'.intent == o.intent
    ensures Slack(o', eps) == Slack(o, eps)
  {
  }

  /** The bound on the drift: one rounding of the whole order per fill. */
  predicate DriftBounded(o: Order, eps: real) {
    Drift(o) <= Times(|o.fills|, Slack(o, eps))
  }

  lemma AcceptedFill(o: Order, e: Event, f: FillRecord, div: Division, eps: real)
    requires Rounds(div, eps) && Inv(o) && (e.PartialFill? || e.Fill?)
    requires Transition(o, e, FillData(f), div).Some?
    ensures var o' := After(o, e, FillData(f), div);
      && |o'.fills| == |o.fills| + 1 && Slack(o', eps) == Slack(o, eps)
      && Drift(o') <= Drift(o) + Slack(o, eps)
  {
    assert o.filledQty >= 0.0;
    hide TotalCost, TotalQty, Spent, Slack, Rounds;
    DriftStep(o, f, div, eps);
    SlackOfIntent(o, After(o, e, FillData(f), div), eps);
  }

  lemma FillDrift(o: Order, e: Event, f: FillRecord, div: Division, eps: real)
    requires Rounds(div, eps) && Inv(o) && DriftBounded(o, eps) && (e.PartialFill? || e.Fill?)
    ensures DriftBounded(After(o, e, FillData(f), div), eps)
  {
    assert Transition(o, e, FillData(f), div).None? ==> After(o, e, FillData(f), div) == o;
    hide Transition, After, Inv, Rounds, Drift, Slack;
    if Transition(o, e, FillData(f), div).Some? {
      AcceptedFill(o, e, f, div, eps);
      assert Times(|o.fills| + 1, Slack(o, eps)) == Times(|o.fills|, Slack(o, eps)) + Slack(o, eps);
    }
  }

  /** After n fills, over divisions each within eps of exact, the average price times the filled quantity
      is within n * eps * Qty of what the fills cost. */
  lemma AverageDrift(intent: Intent, events: seq<(Event, Data)>, div: Division, eps: real)
    requires Rounds(div, eps)
    ensures var o := Run(NewOrder(intent), events, div);
      Drift(o) <= |o.fills| as real * (eps * o.intent.qty)
  {
    hide Run, Drift, Times, Rounds;
    RunDrift(intent, events, div, eps);
    var o := Run(NewOrder(intent), events, div);
    TimesIsProduct(|o.fills|, Slack(o, eps));
  }

  lemma {:induction false} RunDrift(intent: Intent, events: seq<(Event, Data)>, div: Division, eps: real)
    requires Rounds(div, eps)
    ensures DriftBounded(Run(NewOrder(intent), events, div), eps)
  {
    NewDrift(intent, eps);
    hide Rounds, DriftBounded, After, Inv;
    if events == [] {
    } else {
      var init, last := events[..|events| - 1], events[|events| - 1];
      RunDrift(intent, init, div, eps);
      OrderInvariant(intent, init, div);
      var o := Run(NewOrder(intent), init, div);
      if (last.0.PartialFill? || last.0.Fill?) && last.1.FillData? {
        FillDrift(o, last.0, last.1.fill, div, eps);
      } else {
        OtherEventKeeps(o, last.0, last.1, div);
        SameDrift(o, After(o, last.0, last.1, div), eps);
      }
    }
  }

  lemma NewDrift(intent: Intent, eps: real)
    ensures DriftBounded(NewOrder(intent), eps)
  {
    assert TotalCost([]) == 0.0 && Spent(0.0, 0.0) == 0.0;
    assert Drift(NewOrder(intent)) == 0.0;
  }

  lemma SameDrift(o: Order, o': Order, eps: real)
    requires DriftBounded(o, eps) && o'.intent == o.intent && o'.fills == o.fills
    requires o'.filledQty == o.filledQty && o'.avgFillPrice == o.avgFillPrice
    ensures DriftBounded(o', eps)
  {
    assert Slack(o', eps) == Slack(o, eps);
    hide Times, Slack;
  }

  lemma CostStep(lo: real, hi: real, q: real, c: real, price: real, qty: real)
    requires lo * q <= c <= hi * q && lo <= price <= hi && qty > 0.0
    ensures lo * (q + qty) <= c + Spent(price, qty) <= hi * (q + qty)
  {
    ScaledUp(lo, price, qty);
    ScaledUp(price, hi, qty);
    assert lo * (q + qty) == lo * q + lo * qty;
    assert hi * (q + qty) == hi * q + hi * qty;
  }

  lemma {:induction false} CostWithin(fills: seq<FillRecord>, lo: real, hi: real)
    requires forall i :: 0 <= i < |fills| ==> fills[i].qty > 0.0 && lo <= fills[i].price <= hi
    ensures lo * TotalQty(fills) <= TotalCost(fills) <= hi * TotalQty(fills)
  {
    hide Spent;
    if fills == [] {
    } else {
      var init, f := fills[..|fills| - 1], fills[|fills| - 1];
      CostWithin(init, lo, hi);
      CostStep(lo, hi, TotalQty(init), TotalCost(init), f.price, f.qty);
    }
  }

  lemma CancelFactor(a: real, b: real, y: real)
    requires y > 0.0 && Spent(a, y) <= Spent(b, y)
    ensures a <= b
  {
  }

  lemma NoSlack(n: nat, qty: real)
    ensures n as real * (0.0 * qty) == 0.0
  {
  }

  /** The average of a filled order without drift, between the bounds of its fills. */
  lemma AverageBetween(o: Order, lo: real, hi: real)
    requires Inv(o) && o.fills != [] && Spent(o.avgFillPrice, o.filledQty) == TotalCost(o.fills)
    requires forall i :: 0 <= i < |o.fills| ==> lo <= o.fills[i].price <= hi
    ensures lo <= o.avgFillPrice <= hi
  {
    CostWithin(o.fills, lo, hi);
    hide TotalCost, TotalQty;
    assert Spent(lo, o.filledQty) <= TotalCost(o.fills) <= Spent(hi, o.filledQty);
    hide Spent;
    CancelFactor(lo, o.avgFillPrice, o.filledQty);
    CancelFactor(o.avgFillPrice, hi, o.filledQty);
  }

  /** With exact division the average is exact, and lies between the least and greatest fill price. */
  lemma ExactAverage(intent: Intent, events: seq<(Event, Data)>, div: Division, lo: real, hi: real)
    requires Rounds(div, 0.0)
    requires var o := Run(NewOrder(intent), events, div);
      o.fills != [] && forall i :: 0 <= i < |o.fills| ==> lo <= o.fills[i].price <= hi
    ensures var o := Run(NewOrder(intent), events, div);
      Spent(o.avgFillPrice, o.filledQty) == TotalCost(o.fills) && lo <= o.avgFillPrice <= hi
  {
    hide Run, TotalCost, TotalQty, Rounds, Spent, Inv;
    var o := Run(NewOrder(intent), events, div);
    AverageDrift(intent, events, div, 0.0);
    OrderInvariant(intent, events, div);
    NoSlack(|o.fills|, o.intent.qty);
    AverageBetween(o, lo, hi);
  }

  // ---------------------------------------------------------------------------
  // The order object
  // ---------------------------------------------------------------------------

  class OrderObject {
    const intent: Intent
    const div: Division
    var orderId: Option<Name>
    var filledQty: real
    var avgFillPrice: real
    var state: State
    var fills: seq<FillRecord>
    var stateBeforeCancel: Option<State>

    function Val(): Order
      reads this
    {
      Order(intent, orderId, filledQty, avgFillPrice, state, fills, stateBeforeCancel)
    }

    constructor (intent: Intent, div: Division)
      ensures Val() == NewOrder(intent) && this.div == div
    {
      this.intent, this.div := intent, div;
      orderId, filledQty, avgFillPrice, state, fills, stateBeforeCancel := None, 0.0, 0.0, Created, [], None;
    }

    /** Whether the fill was accepted. */
    method Record(f: FillRecord) returns (ok: bool)
      modifies this
      ensures ok <==> RecordFill(old(Val()), f, div).Some?
      ensures Val() == if ok then RecordFill(old(Val()), f, div).value else old(Val())
    {
      hide Spent;
      if f.qty <= 0.0 {
        return false;
      }
      var newFilledQty := filledQty + f.qty;
      if newFilledQty > intent.qty {
        return false;
      }
      var totalCost := Spent(avgFillPrice, filledQty) + Spent(f.price, f.qty);
      avgFillPrice := div(totalCost, newFilledQty);
      filledQty := newFilledQty;
      fills := fills + [f];
      return true;
    }

    method Advance(e: Event, d: Data) returns (ok: bool)
      modifies this
      ensures ok <==> Takes(old(Val()), e, d)
      ensures Val() == After(old(Val()), e, d, div)
    {
      TakenExactly(Val(), e, d, div);
      var next := Next(state, e);
      if next.None? {
        return false;
      }
      var nextState := next.value;
      match e {
        case Ack =>
          if d.AckData? {
            orderId := Some(d.orderId);
          }
        case PartialFill | Fill =>
          if !d.FillData? {
            return false;
          }
          hide RecordFill;
          var recorded := Record(d.fill);
          if !recorded {
            return false;
          }
        case RequestCancel =>
          stateBeforeCancel := Some(state);
        case CancelReject =>
          if stateBeforeCancel.Some? {
            nextState := stateBeforeCancel.value;
          }
        case _ =>
      }
      state := nextState;
      return true;
    }
  }
}
