/** Positions against orders: what the engine has put in the book is what its orders have been filled. */
module EngineConservation {
  import opened Names
  import opened Sums
  import opened OrderMachine
  import opened EngineSteps
  import opened EngineFills
  import opened EngineOwners

  // ---------------------------------------------------------------------------
  // The two sides of the account
  // ---------------------------------------------------------------------------

  function IntentKey(i: Intent): Position.Key {
    Position.Key(i.strategy, Position.Market(i.exchange, i.symbol))
  }

  function SignedBy(side: Side, qty: real): real {
    if side.Sell? then -qty else qty
  }

  function OrderFlow(o: Order, k: Position.Key): real {
    if IntentKey(o.intent) == k then SignedBy(o.intent.side, o.filledQty) else 0.0
  }

  /** What the order of an id has been filled, as a movement of the position of `k`. */
  function Flow(orders: map<Name, Order>, k: Position.Key): Name -> real {
    (id: Name) => if id in orders then OrderFlow(orders[id], k) else 0.0
  }

  function FillFlow(r: Report, k: Position.Key): real {
    if Position.KeyOf(r.fill) == k then Position.Signed(r.fill) else 0.0
  }

  /** Recorded at its order, not yet in the book. */
  function Carried(th: Thread, k: Position.Key): real {
    if th.Filling? && th.fillPc.ApplyToBook? then FillFlow(th.report, k) else 0.0
  }

  function Pending(threads: seq<Thread>, k: Position.Key): real {
    if threads == [] then 0.0 else Pending(threads[..|threads| - 1], k) + Carried(threads[|threads| - 1], k)
  }

  ghost function OrdersFlow(s: Sys, k: Position.Key): real {
    Sum(s.orders.Keys, Flow(s.orders, k))
  }

  function Held(s: Sys, k: Position.Key): real {
    Position.PosAt(s.book.positions, k).qty
  }

  /** How far the book and what is on its way to it are ahead of the orders. */
  ghost function Gap(s: Sys, k: Position.Key): real {
    Held(s, k) + Pending(s.threads, k) - OrdersFlow(s, k)
  }

  /** The fill is for this order: same strategy, market and side. */
  predicate Addressed(i: Intent, r: Report) {
    Position.KeyOf(r.fill) == IntentKey(i) && r.fill.side.Sell? == i.side.Sell?
  }

  // ---------------------------------------------------------------------------
  // How each part moves
  // ---------------------------------------------------------------------------

  lemma {:induction false} PendingSet(threads: seq<Thread>, t: nat, th: Thread, k: Position.Key)
    requires t < |threads|
    ensures Pending(threads[t := th], k) == Pending(threads, k) - Carried(threads[t], k) + Carried(th, k)
  {
    hide Carried;
    var n := |threads| - 1;
    if t == n {
      assert threads[t := th][..n] == threads[..n];
    } else {
      assert threads[t := th][..n] == threads[..n][t := th];
      PendingSet(threads[..n], t, th, k);
    }
  }

  lemma PendingMoves(s: Sys, s': Sys, t: nat, k: Position.Key)
    requires t < |s.threads| && OnlyMoved(s, s', t)
    ensures Pending(s'.threads, k) == Pending(s.threads, k) - Carried(s.threads[t], k) + Carried(s'.threads[t], k)
  {
    PendingSet(s.threads, t, s'.threads[t], k);
  }

  lemma FlowSame(o: Order, o': Order, k: Position.Key)
    requires SameFill(o, o')
    ensures OrderFlow(o', k) == OrderFlow(o, k)
  {
  }

  lemma FlowUntouched(o: Order, k: Position.Key)
    requires Untouched(o)
    ensures OrderFlow(o, k) == 0.0
  {
  }

  lemma NoneFilledFlow(s: Sys, s': Sys, k: Position.Key)
    requires NoneFilled(s, s')
    ensures OrdersFlow(s', k) == OrdersFlow(s, k)
  {
    var f, g, more := Flow(s.orders, k), Flow(s'.orders, k), s'.orders.Keys - s.orders.Keys;
    forall id | id in s.orders.Keys
      ensures g(id) == f(id)
    {
      FlowSame(s.orders[id], s'.orders[id], k);
    }
    forall id | id in more
      ensures g(id) == 0.0
    {
      FlowUntouched(s'.orders[id], k);
    }
    SumOfMore(s.orders.Keys, more, f, g);
    assert s.orders.Keys + more == s'.orders.Keys;
  }

  lemma OneFilledFlow(orders: map<Name, Order>, id: Name, o': Order, k: Position.Key)
    requires id in orders
    ensures var after := orders[id := o'];
      Sum(after.Keys, Flow(after, k)) == Sum(orders.Keys, Flow(orders, k)) - OrderFlow(orders[id], k) + OrderFlow(o', k)
  {
    var after := orders[id := o'];
    assert after.Keys == orders.Keys;
    SumChange(orders.Keys, Flow(orders, k), Flow(after, k), id);
  }

  // ---------------------------------------------------------------------------
  // What opens the gap
  // ---------------------------------------------------------------------------

  lemma RecordedFill(o: Order, e: Event, r: Report, div: Division, k: Position.Key)
    requires FillKind(e) && Transition(o, e, FillData(RecordOf(r)), div).Some?
    ensures var o' := After(o, e, FillData(RecordOf(r)), div);
      && r.fill.qty > 0.0
      && OrderFlow(o', k) ==
           OrderFlow(o, k) + if IntentKey(o.intent) == k then SignedBy(o.intent.side, r.fill.qty) else 0.0
  {
    hide Spent;
  }

  /** The gap that recording this fill at this order opens. */
  function Misdirected(i: Intent, r: Report, k: Position.Key): real {
    FillFlow(r, k) - if IntentKey(i) == k then SignedBy(i.side, r.fill.qty) else 0.0
  }

  lemma RecordGap(c: Setup, s: Sys, t: nat, k: Position.Key)
    requires FillInv(s) && Records(c, s, t)
    ensures s.threads[t].report.intentId in s.orders && s.threads[t].report.fill.qty > 0.0
    ensures var r := s.threads[t].report;
      Gap(MoveFill(c, s, t), k) == Gap(s, k) + Misdirected(s.orders[r.intentId].intent, r, k)
  {
    var s', r, e := MoveFill(c, s, t), s.threads[t].report, s.threads[t].fillPc.event;
    assert FillFits(s, s.threads[t]);
    var o := s.orders[r.intentId];
    FillMoves(c, s, t);
    var o' := After(o, e, FillData(RecordOf(r)), c.div);
    assert s'.orders == s.orders[r.intentId := o'];
    assert s'.threads[t].fillPc.ApplyToBook? && s'.threads[t].report == r;
    hide After, Transition, MoveFill, FillInv, OnlyMoved, OrderFlow, FillFlow, IntentKey;
    RecordedFill(o, e, r, c.div, k);
    OneFilledFlow(s.orders, r.intentId, o', k);
    PendingMoves(s, s', t, k);
  }

  lemma BookStep(b: Position.Book, r: Report, k: Position.Key)
    ensures Position.PosAt(Position.BookFill(b, r.fill).positions, k).qty ==
      Position.PosAt(b.positions, k).qty + FillFlow(r, k)
  {
    Position.FillStep(Position.PosAt(b.positions, k), r.fill);
    hide Position.ApplyFill;
  }

  lemma OtherFillGap(c: Setup, s: Sys, t: nat, k: Position.Key)
    requires FillInv(s) && t < |s.threads| && s.threads[t].Filling? && !Records(c, s, t)
    ensures Gap(MoveFill(c, s, t), k) == Gap(s, k)
  {
    var s', th := MoveFill(c, s, t), s.threads[t];
    FillMoves(c, s, t);
    PendingMoves(s, s', t, k);
    BookStep(s.book, th.report, k);
    assert s'.orders == s.orders by {
      hide Transition, Position.BookFill;
    }
    SameOrders(s, s');
    NoneFilledFlow(s, s', k);
    hide Fire, Accepts, FillFlow, Position.BookFill, Pending, FillInv, OnlyMoved, OrdersFlow, FillEvent;
  }

  lemma OtherGap(c: Setup, s: Sys, t: nat, x: Choice, k: Position.Key)
    requires FillInv(s) && t < |s.threads| && !s.threads[t].Filling?
    ensures Gap(Act(c, s, Go(t, x)), k) == Gap(s, k)
  {
    OthersStay(c, s, t, x);
    var s' := Act(c, s, Go(t, x));
    PendingMoves(s, s', t, k);
    hide MoveExec, MoveCancel, OrdersFlow, Pending;
    if s.threads[t].Executing? {
      ExecOk(c, s, t, x);
      ExecMoves(c, s, t, x);
    } else {
      CancelOk(c, s, t, x);
      CancelMoves(c, s, t, x);
    }
    NoneFilledFlow(s, s', k);
  }

  lemma BeginGap(c: Setup, s: Sys, call: Call, k: Position.Key)
    ensures Gap(Act(c, s, Begin(call)), k) == Gap(s, k)
  {
    assert (s.threads + [Started(call)])[..|s.threads|] == s.threads;
    hide OrdersFlow;
  }

  /** Recording a fill keeps every gap exactly when the fill is addressed to its order. */
  lemma GapIffMisdirected(i: Intent, r: Report)
    requires r.fill.qty > 0.0
    ensures Addressed(i, r) <==> forall k :: Misdirected(i, r, k) == 0.0
  {
    assert Misdirected(i, r, IntentKey(i)) == 0.0 ==> Addressed(i, r);
  }

  /** The step records a fill at an order of another strategy, market or side. */
  predicate Misdirects(c: Setup, s: Sys, a: Action) {
    a.Go? && Records(c, s, a.tid) && s.threads[a.tid].report.intentId in s.orders &&
    !Addressed(s.orders[s.threads[a.tid].report.intentId].intent, s.threads[a.tid].report)
  }

  /** Of all the steps any call can take, one thing changes what the book holds against what the orders
      were filled: recording a fill at an order of another strategy, market or side. */
  lemma StepConserves(c: Setup, s: Sys, a: Action)
    requires FillInv(s)
    ensures (forall k :: Gap(Act(c, s, a), k) == Gap(s, k)) <==> !Misdirects(c, s, a)
  {
    hide Gap, MoveFill, MoveExec, MoveCancel, FillInv, Records, Misdirected, Addressed;
    match a
    case Begin(call) =>
      forall k ensures Gap(Act(c, s, a), k) == Gap(s, k) { BeginGap(c, s, call, k); }
    case Go(t, x) =>
      if Records(c, s, t) {
        RecordIsApplying(c, s, t);
        forall k
          ensures s.threads[t].report.intentId in s.orders && s.threads[t].report.fill.qty > 0.0
          ensures var r := s.threads[t].report;
            Gap(Act(c, s, a), k) == Gap(s, k) + Misdirected(s.orders[r.intentId].intent, r, k)
        {
          RecordGap(c, s, t, k);
        }
        var here := Position.Key(Name(""), Position.Market(Name(""), Name("")));
        RecordGap(c, s, t, here);
        GapIffMisdirected(s.orders[s.threads[t].report.intentId].intent, s.threads[t].report);
      } else if t < |s.threads| {
        forall k ensures Gap(Act(c, s, a), k) == Gap(s, k) {
          if s.threads[t].Filling? {
            OtherFillGap(c, s, t, k);
          } else {
            OtherGap(c, s, t, x, k);
          }
        }
      }
  }

  // ---------------------------------------------------------------------------
  // Whole runs
  // ---------------------------------------------------------------------------

  /** For every strategy and market, the book and what is on its way to it are level with the orders. */
  ghost predicate Level(s: Sys) {
    forall k :: Gap(s, k) == 0.0
  }

  ghost predicate LevelThroughout(c: Setup, actions: seq<Action>) {
    Level(RunSys(c, actions)) && (actions != [] ==> LevelThroughout(c, actions[..|actions| - 1]))
  }

  predicate NeverMisdirects(c: Setup, actions: seq<Action>) {
    actions == [] ||
    (NeverMisdirects(c, actions[..|actions| - 1]) &&
     !Misdirects(c, RunSys(c, actions[..|actions| - 1]), actions[|actions| - 1]))
  }

  lemma StartLevel()
    ensures Level(START)
  {
    forall k ensures Gap(START, k) == 0.0 {
      assert Sum({}, Flow(START.orders, k)) == 0.0;
    }
  }

  lemma StepLevel(c: Setup, s: Sys, a: Action)
    requires FillInv(s) && Level(s)
    ensures Level(Act(c, s, a)) <==> !Misdirects(c, s, a)
  {
    StepConserves(c, s, a);
    hide Gap, Act, FillInv, Misdirects;
  }

  /** In every interleaving: book and orders are level at every moment, for every strategy and market, if and
      only if no step records a fill at an order of another strategy, market or side. */
  lemma {:induction false} LevelExactly(c: Setup, actions: seq<Action>)
    ensures LevelThroughout(c, actions) <==> NeverMisdirects(c, actions)
  {
    StartLevel();
    if actions != [] {
      var init := actions[..|actions| - 1];
      LevelExactly(c, init);
      OrdersSafe(c, init);
      hide Act, Level, FillInv, Misdirects;
      if LevelThroughout(c, init) {
        StepLevel(c, RunSys(c, init), actions[|actions| - 1]);
      }
    }
  }

  lemma LevelAt(s: Sys, k: Position.Key)
    requires Level(s)
    ensures Gap(s, k) == 0.0
  {
  }

  /** No recorded fill is still on its way to the book. */
  ghost predicate Settled(s: Sys) {
    forall t :: 0 <= t < |s.threads| && s.threads[t].Filling? ==> !s.threads[t].fillPc.ApplyToBook?
  }

  lemma {:induction false} NothingPending(threads: seq<Thread>, k: Position.Key)
    requires forall t :: 0 <= t < |threads| && threads[t].Filling? ==> !threads[t].fillPc.ApplyToBook?
    ensures Pending(threads, k) == 0.0
  {
    if threads != [] {
      NothingPending(threads[..|threads| - 1], k);
    }
  }

  function Positive(x: real): real {
    if x > 0.0 then x else 0.0
  }

  /** The quantity an intent asks for, as far as it is for `k`. */
  function Asked(i: Intent, k: Position.Key): real {
    if IntentKey(i) == k then Positive(i.qty) else 0.0
  }

  /** The quantity the orders were made for, order by order. */
  function OrderedQty(orders: map<Name, Order>, k: Position.Key): Name -> real {
    (id: Name) => if id in orders then Asked(orders[id].intent, k) else 0.0
  }

  /** The intents that the risk engine allowed. */
  function AllowedIntents(notes: seq<Note>): set<Intent> {
    set i | 0 <= i < |notes| && notes[i].Allowed? :: notes[i].intent
  }

  function AskedQty(k: Position.Key): Intent -> real {
    (i: Intent) => Asked(i, k)
  }

  lemma FlowWithinOrder(o: Order, k: Position.Key)
    requires Inv(o)
    ensures Position.Abs(OrderFlow(o, k)) <= Asked(o.intent, k)
  {
    assert o.fills == [] ==> o.filledQty == 0.0;
    hide TotalQty;
  }

  lemma {:induction false} SumWithin(keys: set<Name>, f: Name -> real, g: Name -> real)
    requires forall id :: id in keys ==> Position.Abs(f(id)) <= g(id)
    ensures Position.Abs(Sum(keys, f)) <= Sum(keys, g)
    decreases |keys|
  {
    if keys == {} {
    } else {
      var id :| id in keys;
      SumExtract(keys, f, id);
      SumExtract(keys, g, id);
      SumWithin(keys - {id}, f, g);
    }
  }

  /** Orders of different intents, all of them in `intents`, ask for no more than `intents` do. */
  lemma {:induction false} OrdersAskNoMore(keys: set<Name>, orders: map<Name, Order>, intents: set<Intent>,
                                           k: Position.Key)
    requires forall id :: id in keys ==>
      id in orders && orders[id].intent.intentId == id && orders[id].intent in intents
    ensures Sum(keys, OrderedQty(orders, k)) <= Sum(intents, AskedQty(k))
    decreases |keys|
  {
    if keys == {} {
      SumNonnegative(intents, AskedQty(k));
    } else {
      var id :| id in keys;
      var i := orders[id].intent;
      SumExtract(keys, OrderedQty(orders, k), id);
      SumExtract(intents, AskedQty(k), i);
      OrdersAskNoMore(keys - {id}, orders, intents - {i}, k);
    }
  }

  lemma OrdersAreAllowed(c: Setup, actions: seq<Action>)
    ensures var s := RunSys(c, actions);
      forall id :: id in s.orders ==>
        && Vetted(s, id) && s.orders[id].intent.intentId == id
        && s.orders[id].intent in AllowedIntents(s.notes)
  {
    var s := RunSys(c, actions);
    OrdersSafe(c, actions);
    hide RunSys, FillsFit;
    forall id | id in s.orders
      ensures Vetted(s, id) && s.orders[id].intent.intentId == id && s.orders[id].intent in AllowedIntents(s.notes)
    {
      OrdersWereAllowed(c, actions, id);
      assert OrderOk(id, s.orders[id]);
    }
  }

  /** In every interleaving that misdirects no fill: whenever no fill is half way, each strategy's position is
      the signed total of what its orders were filled. Each of these orders was inserted by an execution that
      the risk engine had allowed, for its intent; so the position exceeds neither what the orders were made
      for nor what the risk engine allowed in all. */
  lemma FillConservation(c: Setup, actions: seq<Action>, k: Position.Key)
    requires NeverMisdirects(c, actions) && Settled(RunSys(c, actions))
    ensures var s := RunSys(c, actions);
      && Held(s, k) == Sum(s.orders.Keys, Flow(s.orders, k))
      && (forall id :: id in s.orders ==> Vetted(s, id))
      && Position.Abs(Held(s, k)) <= Sum(s.orders.Keys, OrderedQty(s.orders, k))
      && Sum(s.orders.Keys, OrderedQty(s.orders, k)) <= Sum(AllowedIntents(s.notes), AskedQty(k))
  {
    var s := RunSys(c, actions);
    LevelExactly(c, actions);
    LevelAt(RunSys(c, actions), k);
    NothingPending(s.threads, k);
    OrdersSafe(c, actions);
    OrdersAreAllowed(c, actions);
    hide RunSys, NeverMisdirects, Pending, Vetted, AllowedIntents;
    forall id | id in s.orders.Keys
      ensures Position.Abs(Flow(s.orders, k)(id)) <= OrderedQty(s.orders, k)(id)
    {
      assert OrderOk(id, s.orders[id]);
      FlowWithinOrder(s.orders[id], k);
    }
    SumWithin(s.orders.Keys, Flow(s.orders, k), OrderedQty(s.orders, k));
    OrdersAskNoMore(s.orders.Keys, s.orders, AllowedIntents(s.notes), k);
  }

  /** A fill is taken exactly when it is positive, it fits, and its order is acknowledged or part filled; or its
      cancellation is pending and the fill was seen to cover all the rest. One that is not taken, whether too
      large, late or empty, changes no order and no position, and its call is over. */
  lemma RefusedFill(c: Setup, s: Sys, t: nat)
    requires FillInv(s) && t < |s.threads| && Applying(s.threads[t])
    ensures var th := s.threads[t];
      && th.report.intentId in s.orders
      && var o, s' := s.orders[th.report.intentId], MoveFill(c, s, t);
      && (Records(c, s, t) <==>
           && 0.0 < th.report.fill.qty <= o.intent.qty - o.filledQty
           && (o.state == Acked || o.state == Partial || (o.state == CancelPending && th.fillPc.event.Fill?)))
      && (!Records(c, s, t) ==> s'.orders == s.orders && s'.book == s.book && s'.threads[t].fillPc.FillDone?)
      && (Terminal(o.state) ==> !Records(c, s, t))
  {
    assert FillFits(s, s.threads[t]);
    var o, r, e := s.orders[s.threads[t].report.intentId], s.threads[t].report, s.threads[t].fillPc.event;
    assert FillKind(e);
    hide FillInv, FillFits, Spent;
    TakenExactly(o, e, FillData(RecordOf(r)), c.div);
    hide RecordFill, Next, Transition;
  }
}
