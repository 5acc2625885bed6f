/** Orders, fills and positions under every interleaving of the engine's calls. */
module EngineFills {
  import opened Names
  import opened OrderMachine
  import opened EngineSteps

  // ---------------------------------------------------------------------------
  // What a step does to the orders
  // ---------------------------------------------------------------------------

  predicate FillKind(e: Event) {
    e.PartialFill? || e.Fill?
  }

  /** The order is still the same one, and nothing filled is taken back. */
  predicate Grown(o: Order, o': Order) {
    o'.intent == o.intent && o'.filledQty >= o.filledQty
  }

  /** The same order, filled as before. */
  predicate SameFill(o: Order, o': Order) {
    o'.intent == o.intent && o'.filledQty == o.filledQty && o'.state.Filled? == o.state.Filled?
  }

  predicate Untouched(o: Order) {
    o.filledQty == 0.0 && !o.state.Filled?
  }

  /** No order is filled any further; there may be a new one. */
  ghost predicate NoneFilled(s: Sys, s': Sys) {
    && (forall id :: id in s.orders ==> id in s'.orders && SameFill(s.orders[id], s'.orders[id]))
    && (forall id :: id in s'.orders && id !in s.orders ==> Untouched(s'.orders[id]))
  }

  ghost predicate AllGrown(s: Sys, s': Sys) {
    forall id :: id in s.orders ==> id in s'.orders && Grown(s.orders[id], s'.orders[id])
  }

  predicate OrderOk(id: Name, o: Order) {
    Inv(o) && o.intent.intentId == id && (o.state.Filled? ==> o.filledQty == o.intent.qty)
  }

  ghost predicate OrdersOk(s: Sys) {
    forall id :: id in s.orders ==> OrderOk(id, s.orders[id])
  }

  predicate Covers(o: Order, r: Report) {
    r.fill.qty >= o.intent.qty - o.filledQty
  }

  /** What a fill in progress knows: the order is there, and what it took for the last fill covers the rest. */
  predicate FillFits(s: Sys, th: Thread) {
    && (th.Filling? && (th.fillPc.ReadRemaining? || th.fillPc.ApplyToOrder? || th.fillPc.ApplyToBook?)
        ==> th.report.intentId in s.orders)
    && (th.Filling? && th.fillPc.ApplyToOrder? ==>
        && FillKind(th.fillPc.event)
        && (th.fillPc.event.Fill? ==> Covers(s.orders[th.report.intentId], th.report)))
  }

  ghost predicate FillsFit(s: Sys) {
    forall t :: 0 <= t < |s.threads| ==> FillFits(s, s.threads[t])
  }

  ghost predicate FillInv(s: Sys) {
    OrdersOk(s) && FillsFit(s)
  }

  lemma FillFitsGrown(s: Sys, s': Sys, th: Thread)
    requires FillFits(s, th) && AllGrown(s, s')
    ensures FillFits(s', th)
  {
  }

  lemma OtherEventOk(id: Name, o: Order, e: Event, d: Data, div: Division)
    requires OrderOk(id, o) && !FillKind(e)
    ensures OrderOk(id, After(o, e, d, div)) && SameFill(o, After(o, e, d, div))
  {
    OtherEventKeeps(o, e, d, div);
    hide Inv;
  }

  lemma FillEventOk(id: Name, o: Order, e: Event, f: FillRecord, div: Division)
    requires OrderOk(id, o) && FillKind(e)
    requires e.Fill? ==> f.qty >= o.intent.qty - o.filledQty
    ensures OrderOk(id, After(o, e, FillData(f), div)) && Grown(o, After(o, e, FillData(f), div))
  {
    FillEventKeeps(o, e, f, div);
    hide Inv, Spent;
  }

  lemma OtherFireOk(s: Sys, id: Name, e: Event, d: Data, div: Division)
    requires OrdersOk(s) && !FillKind(e)
    ensures OrdersOk(Fire(s, id, e, d, div)) && NoneFilled(s, Fire(s, id, e, d, div))
  {
    hide After, OrderOk;
    if id in s.orders {
      OtherEventOk(id, s.orders[id], e, d, div);
    }
  }

  lemma NewOrderOk(intent: Intent)
    ensures OrderOk(intent.intentId, NewOrder(intent)) && Untouched(NewOrder(intent))
  {
  }

  lemma ExecOk(c: Setup, s: Sys, t: nat, x: Choice)
    requires t < |s.threads| && s.threads[t].Executing? && OrdersOk(s)
    ensures OrdersOk(MoveExec(c, s, t, x)) && NoneFilled(s, MoveExec(c, s, t, x))
  {
    hide OrderOk, Fire, Accepts, After, NewOrder;
    var th := s.threads[t];
    var id := th.intent.intentId;
    match th.pc
    case Insert => NewOrderOk(th.intent);
    case DoSubmit => OtherFireOk(s, id, Submit, NoData, c.div);
    case DoReject => OtherFireOk(s, id, Reject, NoData, c.div);
    case DoAck(orderId) => OtherFireOk(s, id, Ack, AckData(orderId), c.div);
    case _ =>
  }

  lemma CancelOk(c: Setup, s: Sys, t: nat, x: Choice)
    requires t < |s.threads| && s.threads[t].Cancelling? && OrdersOk(s)
    ensures OrdersOk(MoveCancel(c, s, t, x)) && NoneFilled(s, MoveCancel(c, s, t, x))
  {
    hide OrderOk, Fire, Accepts, After;
    var th := s.threads[t];
    match th.cancelPc
    case Request => OtherFireOk(s, th.id, RequestCancel, NoData, c.div);
    case Confirm => OtherFireOk(s, th.id, CancelAck, NoData, c.div);
    case _ =>
  }

  lemma NoneFilledGrows(s: Sys, s': Sys)
    requires NoneFilled(s, s')
    ensures AllGrown(s, s')
  {
  }

  lemma ApplyOk(c: Setup, s: Sys, t: nat)
    requires t < |s.threads| && s.threads[t].Filling? && s.threads[t].fillPc.ApplyToOrder?
    requires OrdersOk(s) && FillFits(s, s.threads[t])
    ensures OrdersOk(MoveFill(c, s, t)) && AllGrown(s, MoveFill(c, s, t))
  {
    var r, e := s.threads[t].report, s.threads[t].fillPc.event;
    assert OrderOk(r.intentId, s.orders[r.intentId]);
    hide OrderOk, After, Accepts;
    FillEventOk(r.intentId, s.orders[r.intentId], e, RecordOf(r), c.div);
  }

  lemma FillOk(c: Setup, s: Sys, t: nat)
    requires t < |s.threads| && s.threads[t].Filling? && OrdersOk(s) && FillFits(s, s.threads[t])
    ensures OrdersOk(MoveFill(c, s, t)) && AllGrown(s, MoveFill(c, s, t))
    ensures FillFits(MoveFill(c, s, t), MoveFill(c, s, t).threads[t])
  {
    hide OrderOk, After, Accepts, Position.BookFill;
    if s.threads[t].fillPc.ApplyToOrder? {
      ApplyOk(c, s, t);
    }
  }

  /** A step of a thread leaves the other threads where they are. */
  predicate OnlyMoved(s: Sys, s': Sys, t: nat)
    requires t < |s.threads|
  {
    && |s'.threads| == |s.threads| && s'.threads == s.threads[t := s'.threads[t]]
    && s'.threads[t].Filling? == s.threads[t].Filling?
    && (s.threads[t].Filling? ==> s'.threads[t].report == s.threads[t].report)
  }

  lemma FireMovesNone(s: Sys, id: Name, e: Event, d: Data, div: Division)
    ensures Fire(s, id, e, d, div).threads == s.threads && Fire(s, id, e, d, div).book == s.book
  {
  }

  lemma ExecMoves(c: Setup, s: Sys, t: nat, x: Choice)
    requires t < |s.threads| && s.threads[t].Executing?
    ensures OnlyMoved(s, MoveExec(c, s, t, x), t) && MoveExec(c, s, t, x).book == s.book
  {
    hide Fire, Accepts, NewOrder;
    var id := s.threads[t].intent.intentId;
    FireMovesNone(s, id, Submit, NoData, c.div);
    FireMovesNone(s, id, Reject, NoData, c.div);
    if s.threads[t].pc.DoAck? {
      FireMovesNone(s, id, Ack, AckData(s.threads[t].pc.orderId), c.div);
    }
  }

  lemma CancelMoves(c: Setup, s: Sys, t: nat, x: Choice)
    requires t < |s.threads| && s.threads[t].Cancelling?
    ensures OnlyMoved(s, MoveCancel(c, s, t, x), t) && MoveCancel(c, s, t, x).book == s.book
  {
    hide Fire, Accepts;
    FireMovesNone(s, s.threads[t].id, RequestCancel, NoData, c.div);
    FireMovesNone(s, s.threads[t].id, CancelAck, NoData, c.div);
  }

  lemma FillMoves(c: Setup, s: Sys, t: nat)
    requires t < |s.threads| && s.threads[t].Filling?
    ensures OnlyMoved(s, MoveFill(c, s, t), t)
    ensures !s.threads[t].fillPc.ApplyToBook? ==> MoveFill(c, s, t).book == s.book
    ensures !s.threads[t].fillPc.ApplyToOrder? ==> MoveFill(c, s, t).orders == s.orders
  {
    hide Fire, Accepts, Position.BookFill, FillEvent;
    if s.threads[t].fillPc.ApplyToOrder? {
      var r := s.threads[t].report;
      FireMovesNone(s, r.intentId, s.threads[t].fillPc.event, FillData(RecordOf(r)), c.div);
    }
  }

  lemma OthersStay(c: Setup, s: Sys, t: nat, x: Choice)
    requires t < |s.threads|
    ensures OnlyMoved(s, Act(c, s, Go(t, x)), t)
  {
    hide MoveExec, MoveCancel, MoveFill, OnlyMoved;
    match s.threads[t]
    case Executing(_, _, _) => ExecMoves(c, s, t, x);
    case Filling(_, _) => FillMoves(c, s, t);
    case Cancelling(_, _) => CancelMoves(c, s, t, x);
  }

  lemma GoKeeps(c: Setup, s: Sys, t: nat, x: Choice)
    requires FillInv(s) && t < |s.threads|
    ensures FillInv(Act(c, s, Go(t, x))) && AllGrown(s, Act(c, s, Go(t, x)))
  {
    hide FillFits, MoveExec, MoveFill, MoveCancel, OrdersOk, AllGrown;
    var s' := Act(c, s, Go(t, x));
    OthersStay(c, s, t, x);
    assert FillFits(s, s.threads[t]);
    match s.threads[t] {
      case Executing(_, _, _) => ExecOk(c, s, t, x); NoneFilledGrows(s, s');
      case Filling(_, _) => FillOk(c, s, t);
      case Cancelling(_, _) => CancelOk(c, s, t, x); NoneFilledGrows(s, s');
    }
    forall u | 0 <= u < |s'.threads|
      ensures FillFits(s', s'.threads[u])
    {
      if s'.threads[u] == s.threads[u] {
        FillFitsGrown(s, s', s.threads[u]);
      } else {
        IdleFits(s', s'.threads[u]);
      }
    }
  }

  lemma IdleFits(s: Sys, th: Thread)
    requires th.Filling? ==> FillFits(s, th)
    ensures FillFits(s, th)
  {
  }

  lemma ActKeepsFills(c: Setup, s: Sys, a: Action)
    requires FillInv(s)
    ensures FillInv(Act(c, s, a)) && AllGrown(s, Act(c, s, a))
  {
    hide MoveExec, MoveFill, MoveCancel, OrderOk;
    if a.Go? && a.tid < |s.threads| {
      GoKeeps(c, s, a.tid, a.choice);
    }
  }

  /** In every interleaving each order keeps the invariant of the order machine, and an order that became
      FILLED through the engine is filled in full. */
  lemma {:induction false} OrdersSafe(c: Setup, actions: seq<Action>)
    ensures FillInv(RunSys(c, actions))
  {
    if actions == [] {
    } else {
      OrdersSafe(c, actions[..|actions| - 1]);
      ActKeepsFills(c, RunSys(c, actions[..|actions| - 1]), actions[|actions| - 1]);
    }
  }

  lemma FilledIsFull(c: Setup, actions: seq<Action>, id: Name)
    requires id in RunSys(c, actions).orders
    ensures var o := RunSys(c, actions).orders[id];
      Inv(o) && o.intent.intentId == id && (o.state.Filled? ==> o.filledQty == o.intent.qty)
  {
    OrdersSafe(c, actions);
    hide RunSys, FillsFit;
    assert OrderOk(id, RunSys(c, actions).orders[id]);
  }

  // ---------------------------------------------------------------------------
  // Fills of one order, one at a time
  // ---------------------------------------------------------------------------

  /** No two calls are between reading the same order's remainder and applying their fill to it. */
  ghost predicate OneAtATime(s: Sys) {
    forall t, u :: 0 <= t < u < |s.threads| && Applying(s.threads[t]) && Applying(s.threads[u])
      ==> s.threads[t].report.intentId != s.threads[u].report.intentId
  }

  predicate Applying(th: Thread) {
    th.Filling? && th.fillPc.ApplyToOrder?
  }

  ghost predicate Serial(c: Setup, actions: seq<Action>) {
    forall n :: 0 <= n <= |actions| ==> OneAtATime(RunSys(c, actions[..n]))
  }

  predicate FullMeansFilled(o: Order) {
    o.intent.qty > 0.0 && o.filledQty == o.intent.qty ==> o.state.Filled?
  }

  /** What a fill read is still so. */
  predicate UpToDate(s: Sys, th: Thread) {
    Applying(th) && th.report.intentId in s.orders ==>
      th.fillPc.event == FillEvent(s.orders[th.report.intentId], th.report)
  }

  ghost predicate FullFilled(s: Sys) {
    forall id :: id in s.orders ==> FullMeansFilled(s.orders[id])
  }

  ghost predicate SerialInv(s: Sys) {
    FullFilled(s) && forall t :: 0 <= t < |s.threads| ==> UpToDate(s, s.threads[t])
  }

  lemma NoneFilledKeepsFull(s: Sys, s': Sys)
    requires NoneFilled(s, s') && FullFilled(s)
    ensures FullFilled(s')
  {
  }

  lemma UpToDateStays(s: Sys, s': Sys, th: Thread)
    requires FillFits(s, th) && UpToDate(s, th) && NoneFilled(s, s')
    ensures UpToDate(s', th)
  {
  }

  /** Steps that fill nothing. */
  lemma QuietSerial(s: Sys, s': Sys, t: nat)
    requires FillsFit(s) && SerialInv(s) && NoneFilled(s, s') && t < |s.threads| && OnlyMoved(s, s', t)
    requires UpToDate(s', s'.threads[t])
    ensures SerialInv(s')
  {
    NoneFilledKeepsFull(s, s');
    hide UpToDate, FullFilled, FillFits, NoneFilled;
    forall u | 0 <= u < |s'.threads|
      ensures UpToDate(s', s'.threads[u])
    {
      if u != t {
        assert FillFits(s, s.threads[u]);
        UpToDateStays(s, s', s.threads[u]);
      }
    }
  }

  /** A fill with the event its remainder calls for completes the order exactly when it fills the rest. */
  lemma FillCompletes(o: Order, r: Report, e: Event, div: Division)
    requires Inv(o) && FullMeansFilled(o) && e == FillEvent(o, r)
    ensures FullMeansFilled(After(o, e, FillData(RecordOf(r)), div))
  {
    FillEventKeeps(o, e, RecordOf(r), div);
    hide Inv, Spent;
  }

  lemma ApplySerial(c: Setup, s: Sys, t: nat)
    requires FillInv(s) && SerialInv(s) && OneAtATime(s) && t < |s.threads| && Applying(s.threads[t])
    ensures SerialInv(MoveFill(c, s, t))
  {
    var s', r, e := MoveFill(c, s, t), s.threads[t].report, s.threads[t].fillPc.event;
    FillMoves(c, s, t);
    assert FillFits(s, s.threads[t]) && UpToDate(s, s.threads[t]);
    assert OrderOk(r.intentId, s.orders[r.intentId]);
    FillCompletes(s.orders[r.intentId], r, e, c.div);
    hide After, Accepts, FullMeansFilled, Inv, OnlyMoved, FillEvent, FillFits;
    assert s'.orders == s.orders[r.intentId := After(s.orders[r.intentId], e, FillData(RecordOf(r)), c.div)];
    assert forall u :: 0 <= u < |s.threads| && u != t && Applying(s.threads[u]) ==>
      s.threads[u].report.intentId != r.intentId;
    assert !Applying(s'.threads[t]);
    hide MoveFill;
    assert |s'.threads| == |s.threads| &&
      forall u :: 0 <= u < |s.threads| && u != t ==> s'.threads[u] == s.threads[u] by {
      OthersStay(c, s, t, Choice(false, false, Failed));
    }
  }

  lemma SameOrders(s: Sys, s': Sys)
    requires s'.orders == s.orders
    ensures NoneFilled(s, s')
  {
  }

  lemma FillStepSerial(c: Setup, s: Sys, t: nat)
    requires FillInv(s) && SerialInv(s) && OneAtATime(s) && t < |s.threads| && s.threads[t].Filling?
    ensures SerialInv(MoveFill(c, s, t))
  {
    hide FillInv, SerialInv;
    if Applying(s.threads[t]) {
      ApplySerial(c, s, t);
    } else {
      FillMoves(c, s, t);
      SameOrders(s, MoveFill(c, s, t));
      QuietFill(c, s, t);
    }
  }

  lemma QuietFill(c: Setup, s: Sys, t: nat)
    requires FillInv(s) && SerialInv(s) && t < |s.threads| && s.threads[t].Filling? && !Applying(s.threads[t])
    requires NoneFilled(s, MoveFill(c, s, t)) && OnlyMoved(s, MoveFill(c, s, t), t)
    ensures SerialInv(MoveFill(c, s, t))
  {
    hide FillEvent, Position.BookFill, NoneFilled, FullFilled;
    QuietSerial(s, MoveFill(c, s, t), t);
  }

  lemma OtherStepSerial(c: Setup, s: Sys, t: nat, x: Choice)
    requires FillInv(s) && SerialInv(s) && t < |s.threads| && !s.threads[t].Filling?
    ensures SerialInv(Act(c, s, Go(t, x)))
  {
    OthersStay(c, s, t, x);
    hide MoveExec, MoveCancel, SerialInv;
    if s.threads[t].Executing? {
      ExecOk(c, s, t, x);
    } else {
      CancelOk(c, s, t, x);
    }
    QuietSerial(s, Act(c, s, Go(t, x)), t);
  }

  lemma {:induction false} SerialRun(c: Setup, actions: seq<Action>)
    requires Serial(c, actions)
    ensures SerialInv(RunSys(c, actions))
  {
    if actions == [] {
    } else {
      var init, a := actions[..|actions| - 1], actions[|actions| - 1];
      forall n | 0 <= n <= |init|
        ensures OneAtATime(RunSys(c, init[..n]))
      {
        assert init[..n] == actions[..n];
      }
      var s := RunSys(c, init);
      assert init[..|init|] == init;
      assert OneAtATime(s);
      SerialRun(c, init);
      OrdersSafe(c, init);
      hide MoveExec, MoveFill, MoveCancel, FillInv, OneAtATime, Serial, UpToDate;
      if a.Go? && a.tid < |s.threads| {
        hide SerialInv;
        if s.threads[a.tid].Filling? {
          FillStepSerial(c, s, a.tid);
        } else {
          OtherStepSerial(c, s, a.tid, a.choice);
        }
      } else if a.Begin? {
        BeginSerial(c, s, a.call);
      }
    }
  }

  lemma BeginSerial(c: Setup, s: Sys, call: Call)
    requires SerialInv(s)
    ensures SerialInv(Act(c, s, Begin(call)))
  {
  }

  // ---------------------------------------------------------------------------
  // When a full order is FILLED
  // ---------------------------------------------------------------------------

  /** A step of `t` records a fill at an order. */
  predicate Records(c: Setup, s: Sys, t: nat) {
    t < |s.threads| && Applying(s.threads[t]) &&
    var th := s.threads[t];
    Accepts(s, th.report.intentId, th.fillPc.event, FillData(RecordOf(th.report)), c.div)
  }

  lemma RecordIsApplying(c: Setup, s: Sys, t: nat)
    requires Records(c, s, t)
    ensures t < |s.threads| && Applying(s.threads[t])
  {
  }

  /** The step records as a partial fill what is all that is open: another fill came in between. */
  predicate Overlooks(c: Setup, s: Sys, a: Action) {
    a.Go? && Records(c, s, a.tid) && s.threads[a.tid].report.intentId in s.orders &&
    var th, o := s.threads[a.tid], s.orders[s.threads[a.tid].report.intentId];
    th.fillPc.event.PartialFill? && th.report.fill.qty == o.intent.qty - o.filledQty
  }

  /** An accepted fill leaves a full order that is not FILLED exactly when it is a partial fill of the rest. */
  lemma FillLeavesFull(o: Order, e: Event, f: FillRecord, div: Division)
    requires Inv(o) && FillKind(e) && Transition(o, e, FillData(f), div).Some?
    ensures FullMeansFilled(After(o, e, FillData(f), div)) <==> !(e.PartialFill? && f.qty == o.intent.qty - o.filledQty)
  {
    assert o.filledQty >= 0.0;
    hide Spent, Inv;
  }

  lemma OneOrderFull(s: Sys, s': Sys, id: Name, o': Order)
    requires FullFilled(s) && id in s.orders && s'.orders == s.orders[id := o']
    ensures FullFilled(s') <==> FullMeansFilled(o')
  {
    assert s'.orders[id] == o';
    hide FullMeansFilled;
  }

  lemma ApplyFull(c: Setup, s: Sys, t: nat, x: Choice)
    requires FillInv(s) && FullFilled(s) && t < |s.threads| && Applying(s.threads[t])
    ensures FullFilled(Act(c, s, Go(t, x))) <==> !Overlooks(c, s, Go(t, x))
  {
    var r, e := s.threads[t].report, s.threads[t].fillPc.event;
    assert FillFits(s, s.threads[t]);
    var o := s.orders[r.intentId];
    assert OrderOk(r.intentId, o);
    var o' := After(o, e, FillData(RecordOf(r)), c.div);
    hide FillInv, FullFilled, Transition, After;
    assert Act(c, s, Go(t, x)).orders == s.orders[r.intentId := o'];
    if Records(c, s, t) {
      FillLeavesFull(o, e, RecordOf(r), c.div);
    } else {
      RefusedChangesNothing(o, e, FillData(RecordOf(r)), c.div);
      StillFull(s, r.intentId);
    }
    OneOrderFull(s, Act(c, s, Go(t, x)), r.intentId, o');
  }

  lemma StillFull(s: Sys, id: Name)
    requires FullFilled(s) && id in s.orders
    ensures FullMeansFilled(s.orders[id])
  {
  }

  lemma OtherFull(c: Setup, s: Sys, a: Action)
    requires FillInv(s) && FullFilled(s) && (a.Go? && a.tid < |s.threads| ==> !Applying(s.threads[a.tid]))
    ensures FullFilled(Act(c, s, a)) && !Overlooks(c, s, a)
  {
    hide MoveExec, MoveFill, MoveCancel;
    if a.Go? && a.tid < |s.threads| {
      match s.threads[a.tid]
      case Executing(_, _, _) => ExecOk(c, s, a.tid, a.choice); NoneFilledKeepsFull(s, Act(c, s, a));
      case Filling(_, _) => FillMoves(c, s, a.tid);
      case Cancelling(_, _) => CancelOk(c, s, a.tid, a.choice); NoneFilledKeepsFull(s, Act(c, s, a));
    }
  }

  /** Any one step keeps full orders FILLED exactly when it does not overlook that a fill is the last. */
  lemma StepFull(c: Setup, s: Sys, a: Action)
    requires FillInv(s) && FullFilled(s)
    ensures FullFilled(Act(c, s, a)) <==> !Overlooks(c, s, a)
  {
    hide FillInv, FullFilled, Act, Overlooks;
    if a.Go? && a.tid < |s.threads| && Applying(s.threads[a.tid]) {
      ApplyFull(c, s, a.tid, a.choice);
    } else {
      OtherFull(c, s, a);
    }
  }

  /** At every moment of the run an order of positive quantity that is full is FILLED. */
  ghost predicate FullThroughout(c: Setup, actions: seq<Action>) {
    FullFilled(RunSys(c, actions)) && (actions != [] ==> FullThroughout(c, actions[..|actions| - 1]))
  }

  predicate NeverOverlooks(c: Setup, actions: seq<Action>) {
    actions == [] ||
    (NeverOverlooks(c, actions[..|actions| - 1]) &&
     !Overlooks(c, RunSys(c, actions[..|actions| - 1]), actions[|actions| - 1]))
  }

  /** In every interleaving: full orders are FILLED at every moment if and only if no step records as partial
      a fill of all that is open. */
  lemma {:induction false} FullExactly(c: Setup, actions: seq<Action>)
    ensures FullThroughout(c, actions) <==> NeverOverlooks(c, actions)
  {
    if actions != [] {
      var init := actions[..|actions| - 1];
      FullExactly(c, init);
      OrdersSafe(c, init);
      hide Act, FullFilled, Overlooks, FillInv;
      if FullThroughout(c, init) {
        StepFull(c, RunSys(c, init), actions[|actions| - 1]);
      }
    }
  }

  /** Then an order of positive quantity is FILLED exactly when its whole quantity is filled. */
  lemma FilledExactly(c: Setup, actions: seq<Action>, id: Name)
    requires NeverOverlooks(c, actions) && id in RunSys(c, actions).orders
    requires RunSys(c, actions).orders[id].intent.qty > 0.0
    ensures var o := RunSys(c, actions).orders[id];
      o.state.Filled? <==> o.filledQty == o.intent.qty
  {
    FilledIsFull(c, actions, id);
    FullExactly(c, actions);
    hide RunSys, NeverOverlooks;
    StillFull(RunSys(c, actions), id);
  }

  lemma {:induction false} SerialFull(c: Setup, actions: seq<Action>)
    requires Serial(c, actions)
    ensures FullThroughout(c, actions)
  {
    SerialRun(c, actions);
    hide RunSys, OneAtATime;
    if actions != [] {
      var init := actions[..|actions| - 1];
      forall n | 0 <= n <= |init|
        ensures OneAtATime(RunSys(c, init[..n]))
      {
        assert init[..n] == actions[..n];
      }
      SerialFull(c, init);
    }
  }

  /** Handling the fills of each order one at a time is enough. */
  lemma SerialNeverOverlooks(c: Setup, actions: seq<Action>)
    requires Serial(c, actions)
    ensures NeverOverlooks(c, actions)
  {
    SerialFull(c, actions);
    FullExactly(c, actions);
  }
}
