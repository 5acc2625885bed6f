/** What each of the engine's calls comes to when it is made on its own. */
module EngineCalls {
  import opened Wrappers
  import opened Names
  import opened OrderMachine
  import opened EngineSteps

  // ---------------------------------------------------------------------------
  // One call on its own
  // ---------------------------------------------------------------------------

  /** The only call under way, after `n` of its steps. */
  function RunAlone(c: Setup, orders: map<Name, Order>, book: Position.Book, call: Call, x: Choice, n: nat): Sys {
    if n == 0 then Sys(orders, book, [Started(call)], [])
    else Act(c, RunAlone(c, orders, book, call, x, n - 1), Go(0, x))
  }

  predicate Finished(s: Sys) {
    |s.threads| == 1 &&
    match s.threads[0]
    case Executing(_, pc, _) => pc.ExecDone?
    case Filling(_, pc) => pc.FillDone?
    case Cancelling(_, pc) => pc.CancelDone?
  }

  /** What the steps of a call leave when they are run to its end: no call takes more than eight. */
  function Alone(c: Setup, orders: map<Name, Order>, book: Position.Book, call: Call, x: Choice): Sys {
    RunAlone(c, orders, book, call, x, 8)
  }

  lemma {:induction false} FinishedStays(c: Setup, orders: map<Name, Order>, book: Position.Book, call: Call,
                                         x: Choice, k: nat, n: nat)
    requires k <= n && Finished(RunAlone(c, orders, book, call, x, k))
    ensures RunAlone(c, orders, book, call, x, n) == RunAlone(c, orders, book, call, x, k)
  {
    hide Act, Finished;
    if k < n {
      FinishedStays(c, orders, book, call, x, k, n - 1);
      FinishedIdles(c, RunAlone(c, orders, book, call, x, n - 1), x);
    }
  }

  lemma FinishedIdles(c: Setup, s: Sys, x: Choice)
    requires Finished(s)
    ensures Act(c, s, Go(0, x)) == s
  {
    hide Fire, Accepts, Position.BookFill, NewOrder;
    assert s.threads[0 := s.threads[0]] == s.threads;
  }

  /** The value of a run once some number of steps is known to finish it. */
  lemma AloneAfter(c: Setup, orders: map<Name, Order>, book: Position.Book, call: Call, x: Choice, n: nat, s: Sys)
    requires n <= 8 && RunAlone(c, orders, book, call, x, n) == s && Finished(s)
    ensures Alone(c, orders, book, call, x) == s
  {
    FinishedStays(c, orders, book, call, x, n, 8);
  }

  /** What is open of an order. */
  function Rest(o: Order): real {
    o.intent.qty - o.filledQty
  }

  /** Which fills are taken: positive ones that fit what is open, at an order that is acknowledged or part
      filled; while a cancellation is pending, only a fill of all that is open. */
  predicate FillTaken(o: Order, r: Report) {
    0.0 < r.fill.qty <= Rest(o) &&
    (o.state == Acked || o.state == Partial || (o.state == CancelPending && r.fill.qty == Rest(o)))
  }

  /** The order with one more fill: it is complete exactly when nothing is left open. */
  function WithFill(o: Order, r: Report, div: Division): Order {
    o.(state := if r.fill.qty == Rest(o) then Filled else Partial,
       fills := o.fills + [FillRecord(r.fillId, r.fill.qty, r.fill.price, r.fill.fee)],
       filledQty := o.filledQty + r.fill.qty,
       avgFillPrice := div(Spent(o.avgFillPrice, o.filledQty) + Spent(r.fill.price, r.fill.qty),
                           o.filledQty + r.fill.qty))
  }

  /** A fill that is not taken changes nothing; one that is goes to its order and to the book. */
  function FillLeaves(c: Setup, orders: map<Name, Order>, book: Position.Book, r: Report)
    : (map<Name, Order>, Position.Book)
  {
    if r.intentId !in orders || !FillTaken(orders[r.intentId], r) then (orders, book)
    else (orders[r.intentId := WithFill(orders[r.intentId], r, c.div)], Position.BookFill(book, r.fill))
  }

  /** The event that a fill is turned into is taken exactly when the fill is. */
  lemma FillTakenExactly(o: Order, r: Report, div: Division)
    ensures Transition(o, FillEvent(o, r), FillData(RecordOf(r)), div).Some? <==> FillTaken(o, r)
    ensures After(o, FillEvent(o, r), FillData(RecordOf(r)), div)
         == if FillTaken(o, r) then WithFill(o, r, div) else o
  {
    hide Spent;
  }

  lemma FillAlone(c: Setup, orders: map<Name, Order>, book: Position.Book, r: Report, x: Choice)
    ensures var s := Alone(c, orders, book, HandleFill(r), x);
      Finished(s) && (s.orders, s.book) == FillLeaves(c, orders, book, r)
  {
    hide After, Transition, Position.BookFill, FillEvent, Alone, FillTaken, WithFill;
    var call := HandleFill(r);
    var s1 := RunAlone(c, orders, book, call, x, 1);
    if r.intentId !in orders {
      AloneAfter(c, orders, book, call, x, 1, s1);
    } else {
      FillTakenExactly(orders[r.intentId], r, c.div);
      var s2 := RunAlone(c, orders, book, call, x, 2);
      var e := FillEvent(orders[r.intentId], r);
      assert s2 == Sys(orders, book, [Filling(r, ApplyToOrder(e))], []);
      var s3 := RunAlone(c, orders, book, call, x, 3);
      assert s3 == Act(c, s2, Go(0, x));
      hide RunAlone;
      if Transition(orders[r.intentId], e, FillData(RecordOf(r)), c.div).None? {
        assert orders[r.intentId := orders[r.intentId]] == orders;
        AloneAfter(c, orders, book, call, x, 3, s3);
      } else {
        FillTail(c, orders, book, call, x, s3, r);
      }
    }
  }

  lemma FillTail(c: Setup, orders: map<Name, Order>, book: Position.Book, call: Call, x: Choice, s: Sys, r: Report)
    requires s == RunAlone(c, orders, book, call, x, 3) && s.threads == [Filling(r, ApplyToBook)]
    ensures var s' := Alone(c, orders, book, call, x);
      Finished(s') && s'.orders == s.orders && s'.book == Position.BookFill(s.book, r.fill)
  {
    hide Position.BookFill, Alone;
    assert RunAlone(c, orders, book, call, x, 4) == Act(c, s, Go(0, x));
    hide RunAlone;
    AloneAfter(c, orders, book, call, x, 4, Act(c, s, Go(0, x)));
  }

  // ---------------------------------------------------------------------------
  // Fills one after the other
  // ---------------------------------------------------------------------------

  function Reported(reports: seq<Report>): real {
    if reports == [] then 0.0 else Reported(reports[..|reports| - 1]) + reports[|reports| - 1].fill.qty
  }

  function RecordsOf(reports: seq<Report>): (r: seq<FillRecord>)
    ensures |r| == |reports|
  {
    seq(|reports|, i requires 0 <= i < |reports| => RecordOf(reports[i]))
  }

  /** Orders and book after these fills, each handled when the one before it is done. */
  function FillsLeave(c: Setup, orders: map<Name, Order>, book: Position.Book, reports: seq<Report>)
    : (map<Name, Order>, Position.Book)
  {
    if reports == [] then (orders, book)
    else
      var s := FillsLeave(c, orders, book, reports[..|reports| - 1]);
      FillLeaves(c, s.0, s.1, reports[|reports| - 1])
  }

  ghost predicate AllFor(reports: seq<Report>, id: Name) {
    forall i :: 0 <= i < |reports| ==> reports[i].intentId == id && reports[i].fill.qty > 0.0
  }

  lemma {:induction false} ReportedPositive(reports: seq<Report>, id: Name)
    requires AllFor(reports, id)
    ensures Reported(reports) >= 0.0 && (reports != [] ==> Reported(reports) > 0.0)
  {
    if reports != [] {
      ReportedPositive(reports[..|reports| - 1], id);
    }
  }

  /** The order holds these fills on top of what it held; it is complete once nothing is left open. */
  predicate HoldsFills(o: Order, o': Order, reports: seq<Report>) {
    && o'.intent == o.intent
    && o'.fills == o.fills + RecordsOf(reports)
    && o'.filledQty == o.filledQty + Reported(reports)
    && o'.state == if reports == [] then o.state else if Reported(reports) == Rest(o) then Filled else Partial
  }

  /** An order that is acknowledged or part filled takes every positive fill up to what is open of it, and the
      book with it: it holds all of them, and is FILLED exactly when they come to all that was open. */
  lemma {:induction false} FillsComplete(c: Setup, orders: map<Name, Order>, book: Position.Book, id: Name,
                                         reports: seq<Report>)
    requires id in orders && (orders[id].state == Acked || orders[id].state == Partial)
    requires AllFor(reports, id) && Reported(reports) <= Rest(orders[id])
    ensures var s := FillsLeave(c, orders, book, reports);
      && id in s.0 && s.0 == orders[id := s.0[id]] && HoldsFills(orders[id], s.0[id], reports)
      && s.1 == Booked(book, reports)
  {
    if reports == [] {
      assert RecordsOf(reports) == [];
    } else {
      var init, last := reports[..|reports| - 1], reports[|reports| - 1];
      assert init + [last] == reports && last.intentId == id && last.fill.qty > 0.0;
      ReportedPositive(init, id);
      hide FillTaken, WithFill, HoldsFills, Position.BookFill, Rest, RecordsOf;
      FillsComplete(c, orders, book, id, init);
      OneMoreFill(c, orders[id], FillsLeave(c, orders, book, init).0[id], init, last);
      hide AllFor, Reported;
    }
  }

  lemma MoreReports(init: seq<Report>, last: Report)
    ensures Reported(init + [last]) == Reported(init) + last.fill.qty
    ensures RecordsOf(init + [last]) == RecordsOf(init) + [RecordOf(last)]
  {
    assert (init + [last])[..|init|] == init;
  }

  lemma OneMoreFill(c: Setup, o: Order, o': Order, init: seq<Report>, last: Report)
    requires (o.state == Acked || o.state == Partial) && HoldsFills(o, o', init)
    requires last.fill.qty > 0.0 && Reported(init) + last.fill.qty <= Rest(o)
    ensures FillTaken(o', last) && HoldsFills(o, WithFill(o', last, c.div), init + [last])
  {
    MoreReports(init, last);
    assert Rest(o') == Rest(o) - Reported(init);
    hide Spent, Reported, RecordsOf;
    var o'' := WithFill(o', last, c.div);
    assert o''.fills == o.fills + (RecordsOf(init) + [RecordOf(last)]);
  }

  /** The book after these fills. */
  function Booked(book: Position.Book, reports: seq<Report>): Position.Book {
    if reports == [] then book
    else Position.BookFill(Booked(book, reports[..|reports| - 1]), reports[|reports| - 1].fill)
  }

  /** A cancellation can be requested of an order that is acknowledged or part filled. */
  predicate Cancellable(o: Order) {
    o.state == Acked || o.state == Partial
  }

  /** The order remembers where it was while its cancellation is pending. */
  function Asked(o: Order): Order {
    o.(state := CancelPending, stateBeforeCancel := Some(o.state))
  }

  /** The exchange, if it is asked at all, does not fail. */
  predicate Confirms(c: Setup, x: Choice) {
    c.dryRun || (x.registered && !x.answer.Failed?)
  }

  /** A cancel that the order refuses changes nothing; one that the exchange does not confirm stays pending. */
  function CancelLeaves(c: Setup, orders: map<Name, Order>, id: Name, x: Choice): map<Name, Order> {
    if id !in orders || !Cancellable(orders[id]) then orders
    else orders[id := Asked(orders[id]).(state := if Confirms(c, x) then Cancelled else CancelPending)]
  }

  lemma CancelTakenExactly(o: Order, div: Division)
    ensures Transition(o, RequestCancel, NoData, div).Some? <==> Cancellable(o)
    ensures After(o, RequestCancel, NoData, div) == if Cancellable(o) then Asked(o) else o
    ensures Transition(Asked(o), CancelAck, NoData, div) == Some(Asked(o).(state := Cancelled))
    ensures After(Asked(o), CancelAck, NoData, div) == Asked(o).(state := Cancelled)
  {
  }

  lemma CancelAlone(c: Setup, orders: map<Name, Order>, book: Position.Book, id: Name, x: Choice)
    ensures var s := Alone(c, orders, book, Cancel(id), x);
      Finished(s) && s.orders == CancelLeaves(c, orders, id, x) && s.book == book
  {
    hide After, Transition, Alone, Cancellable;
    var call := Cancel(id);
    var s1 := RunAlone(c, orders, book, call, x, 1);
    if id !in orders {
      AloneAfter(c, orders, book, call, x, 1, s1);
    } else {
      var s2 := RunAlone(c, orders, book, call, x, 2);
      CancelTakenExactly(orders[id], c.div);
      if Transition(orders[id], RequestCancel, NoData, c.div).None? {
        assert orders[id := orders[id]] == orders;
        AloneAfter(c, orders, book, call, x, 2, s2);
      } else {
        assert s2.orders == orders[id := Asked(orders[id])] && s2.notes == [];
        hide RunAlone;
        CancelTail(c, orders, book, id, x, s2);
      }
    }
  }

  lemma CancelTail(c: Setup, orders: map<Name, Order>, book: Position.Book, id: Name, x: Choice, s: Sys)
    requires s == RunAlone(c, orders, book, Cancel(id), x, 2) && id in s.orders && s.book == book
    requires s.threads == [Cancelling(id, if c.dryRun then Confirm else RouteCancel)]
    ensures var s' := Alone(c, orders, book, Cancel(id), x);
      && Finished(s') && s'.book == book
      && s'.orders == if c.dryRun || (x.registered && !x.answer.Failed?)
                      then s.orders[id := After(s.orders[id], CancelAck, NoData, c.div)] else s.orders
  {
    hide After, Transition, Alone;
    var call := Cancel(id);
    var s3 := Act(c, s, Go(0, x));
    assert RunAlone(c, orders, book, call, x, 3) == s3;
    if c.dryRun || !x.registered {
      AloneAfter(c, orders, book, call, x, 3, s3);
    } else {
      var s4 := Act(c, s3, Go(0, x));
      assert RunAlone(c, orders, book, call, x, 4) == s4;
      if x.answer.Failed? {
        AloneAfter(c, orders, book, call, x, 4, s4);
      } else {
        var s5 := Act(c, s4, Go(0, x));
        assert RunAlone(c, orders, book, call, x, 5) == s5;
        AloneAfter(c, orders, book, call, x, 5, s5);
      }
    }
  }

  /** Whether the exchange gets to see the intent. */
  predicate Reaches(c: Setup, orders: map<Name, Order>, intent: Intent, x: Choice) {
    intent.intentId !in orders && x.allowed && !c.dryRun && x.registered
  }

  /** What becomes of a new order: acked under the exchange's id or a dry-run id, or rejected. */
  function Outcome(c: Setup, intent: Intent, x: Choice): Order {
    var o := NewOrder(intent);
    if c.dryRun then o.(state := Acked, orderId := Some(Name("DRYRUN-" + intent.intentId.text)))
    else if x.registered && x.answer.Accepted? then o.(state := Acked, orderId := Some(x.answer.orderId))
    else o.(state := Rejected)
  }

  /** Only a new intent that risk allows becomes an order. */
  function ExecLeaves(c: Setup, orders: map<Name, Order>, intent: Intent, x: Choice): map<Name, Order> {
    if intent.intentId in orders || !x.allowed then orders else orders[intent.intentId := Outcome(c, intent, x)]
  }

  lemma ExecAlone(c: Setup, orders: map<Name, Order>, book: Position.Book, intent: Intent, x: Choice)
    ensures var s := Alone(c, orders, book, Execute(intent), x);
      && Finished(s) && s.orders == ExecLeaves(c, orders, intent, x) && s.book == book
      && (Sent(0, intent) in s.notes <==> Reaches(c, orders, intent, x))
  {
    hide Alone, Fire, Accepts, NewOrder, ExecLeaves;
    var call, id := Execute(intent), intent.intentId;
    var s0 := Sys(orders, book, [Executing(intent, LookUp, false)], []);
    assert RunAlone(c, orders, book, call, x, 0) == s0;
    var s1 := Act(c, s0, Go(0, x));
    assert RunAlone(c, orders, book, call, x, 1) == s1;
    if id in orders {
      AloneAfter(c, orders, book, call, x, 1, s1);
      DuplicateLeaves(c, orders, intent, x);
    } else {
      var s2 := Act(c, s1, Go(0, x));
      assert RunAlone(c, orders, book, call, x, 2) == s2;
      if !x.allowed {
        AloneAfter(c, orders, book, call, x, 2, s2);
        DuplicateLeaves(c, orders, intent, x);
      } else {
        var s3 := Act(c, s2, Go(0, x));
        assert RunAlone(c, orders, book, call, x, 3) == s3;
        assert s3 == Sys(orders[id := NewOrder(intent)], book,
                         [Executing(intent, DoSubmit, true)], [Allowed(0, intent)]);
        ExecTail(c, orders, book, intent, x, s3);
      }
    }
  }

  lemma DuplicateLeaves(c: Setup, orders: map<Name, Order>, intent: Intent, x: Choice)
    requires intent.intentId in orders || !x.allowed
    ensures ExecLeaves(c, orders, intent, x) == orders && !Reaches(c, orders, intent, x)
  {
  }

  lemma ExecTail(c: Setup, orders: map<Name, Order>, book: Position.Book, intent: Intent, x: Choice, s3: Sys)
    requires intent.intentId !in orders && x.allowed && s3 == RunAlone(c, orders, book, Execute(intent), x, 3)
    requires s3 == Sys(orders[intent.intentId := NewOrder(intent)], book,
                       [Executing(intent, DoSubmit, true)], [Allowed(0, intent)])
    ensures var s := Alone(c, orders, book, Execute(intent), x);
      && Finished(s) && s.orders == ExecLeaves(c, orders, intent, x) && s.book == book
      && (Sent(0, intent) in s.notes <==> Reaches(c, orders, intent, x))
  {
    hide Alone;
    var call, id := Execute(intent), intent.intentId;
    var s4 := Act(c, s3, Go(0, x));
    assert RunAlone(c, orders, book, call, x, 4) == s4;
    var sent := NewOrder(intent).(state := Submitted);
    assert s4.orders == orders[id := sent] && s4.notes == [Allowed(0, intent)] && s4.book == book;
    if c.dryRun {
      var s5 := Act(c, s4, Go(0, x));
      assert RunAlone(c, orders, book, call, x, 5) == s5;
      AloneAfter(c, orders, book, call, x, 5, s5);
    } else {
      RouteTail(c, orders, book, intent, x, s4);
    }
  }

  lemma RouteTail(c: Setup, orders: map<Name, Order>, book: Position.Book, intent: Intent, x: Choice, s4: Sys)
    requires !c.dryRun && intent.intentId !in orders && x.allowed
    requires s4 == RunAlone(c, orders, book, Execute(intent), x, 4)
    requires s4 == Sys(orders[intent.intentId := NewOrder(intent).(state := Submitted)], book,
                       [Executing(intent, Route, true)], [Allowed(0, intent)])
    ensures var s := Alone(c, orders, book, Execute(intent), x);
      && Finished(s) && s.orders == ExecLeaves(c, orders, intent, x) && s.book == book
      && (Sent(0, intent) in s.notes <==> Reaches(c, orders, intent, x))
  {
    hide Alone, Outcome;
    var call, id := Execute(intent), intent.intentId;
    var s5 := Act(c, s4, Go(0, x));
    assert RunAlone(c, orders, book, call, x, 5) == s5;
    if !x.registered {
      assert s5.threads == [Executing(intent, DoReject, true)];
      Settle(c, orders, book, intent, x, s5, 5);
    } else {
      var s6 := Act(c, s5, Go(0, x));
      assert RunAlone(c, orders, book, call, x, 6) == s6;
      assert s6.threads == [Executing(intent, if x.answer.Accepted? then DoAck(x.answer.orderId) else DoReject, true)];
      Settle(c, orders, book, intent, x, s6, 6);
    }
  }

  /** The last step: the order is acknowledged or rejected. */
  lemma Settle(c: Setup, orders: map<Name, Order>, book: Position.Book, intent: Intent, x: Choice, s: Sys, n: nat)
    requires !c.dryRun && intent.intentId !in orders && x.allowed && n <= 6
    requires s == RunAlone(c, orders, book, Execute(intent), x, n)
    requires s.orders == orders[intent.intentId := NewOrder(intent).(state := Submitted)] && s.book == book
    requires s.threads ==
      [Executing(intent, if x.registered && x.answer.Accepted? then DoAck(x.answer.orderId) else DoReject, true)]
    ensures var s' := Alone(c, orders, book, Execute(intent), x);
      && Finished(s') && s'.orders == ExecLeaves(c, orders, intent, x) && s'.book == book && s'.notes == s.notes
  {
    hide Alone, RunAlone, After, Transition, NewOrder;
    Decided(NewOrder(intent).(state := Submitted), x, c.div);
    var s' := Act(c, s, Go(0, x));
    OneStepMore(c, orders, book, Execute(intent), x, n);
    AloneAfter(c, orders, book, Execute(intent), x, n + 1, s');
  }

  lemma OneStepMore(c: Setup, orders: map<Name, Order>, book: Position.Book, call: Call, x: Choice, n: nat)
    ensures RunAlone(c, orders, book, call, x, n + 1) == Act(c, RunAlone(c, orders, book, call, x, n), Go(0, x))
  {
    hide Act;
  }

  lemma Decided(o: Order, x: Choice, div: Division)
    requires o.state.Submitted?
    ensures After(o, Reject, NoData, div) == o.(state := Rejected)
    ensures x.answer.Accepted? ==>
      After(o, Ack, AckData(x.answer.orderId), div) == o.(state := Acked, orderId := Some(x.answer.orderId))
  {
  }
}
