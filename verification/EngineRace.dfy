/** Two fills of one order that race: a run from the start that ends with a full order that is not FILLED. */
module EngineRace {
  import opened Wrappers
  import opened Names
  import opened OrderMachine
  import opened EngineSteps
  import opened EngineFills

  const STEP := Choice(false, false, Failed)

  lemma ReadStep(c: Setup, s: Sys, t: nat)
    requires t < |s.threads| && s.threads[t].Filling? && s.threads[t].fillPc.ReadRemaining?
    requires s.threads[t].report.intentId in s.orders
    ensures var th := s.threads[t];
      Act(c, s, Go(t, STEP)) ==
        SetThread(s, t, th.(fillPc := ApplyToOrder(FillEvent(s.orders[th.report.intentId], th.report))))
  {
  }

  /** An accepted part fill. */
  lemma PartStep(c: Setup, s: Sys, t: nat, o: Order)
    requires t < |s.threads| && s.threads[t].Filling? && s.threads[t].fillPc == ApplyToOrder(PartialFill)
    requires s.threads[t].report.intentId in s.orders && s.orders[s.threads[t].report.intentId] == o
    requires o.state.Acked? || o.state.Partial?
    requires 0.0 < s.threads[t].report.fill.qty <= o.intent.qty - o.filledQty
    ensures var s', id := Act(c, s, Go(t, STEP)), s.threads[t].report.intentId;
      && id in s'.orders && s'.orders[id].state.Partial? && s'.orders[id].intent == o.intent
      && s'.orders[id].filledQty == o.filledQty + s.threads[t].report.fill.qty
      && OnlyMoved(s, s', t)
  {
    OthersStay(c, s, t, STEP);
    hide OnlyMoved, Spent;
  }

  /** Two fills that complete an order between them, both read before either is applied, leave it PARTIAL
      with nothing left to fill: handling fills of one order at a time is needed. */
  lemma RacedFills(c: Setup, s: Sys, t: nat, u: nat, id: Name)
    requires t < |s.threads| && u < |s.threads| && t != u && id in s.orders
    requires forall v: nat :: v == t || v == u ==>
      s.threads[v].Filling? && s.threads[v].fillPc.ReadRemaining? && s.threads[v].report.intentId == id
    requires s.orders[id].state.Acked? || s.orders[id].state.Partial?
    requires s.threads[t].report.fill.qty > 0.0 && s.threads[u].report.fill.qty > 0.0
    requires s.threads[t].report.fill.qty + s.threads[u].report.fill.qty ==
      s.orders[id].intent.qty - s.orders[id].filledQty
    ensures var s' := Act(c, Act(c, Act(c, Act(c, s, Go(t, STEP)), Go(u, STEP)), Go(t, STEP)), Go(u, STEP));
      && id in s'.orders && s'.orders[id].intent == s.orders[id].intent
      && s'.orders[id].state.Partial? && s'.orders[id].filledQty == s'.orders[id].intent.qty
  {
    var s1 := Act(c, s, Go(t, STEP));
    ReadStep(c, s, t);
    ReadStep(c, s1, u);
    hide Act;
    var s2 := Act(c, s1, Go(u, STEP));
    assert s2.threads[t].fillPc == ApplyToOrder(PartialFill);
    PartStep(c, s2, t, s.orders[id]);
    var s3 := Act(c, s2, Go(t, STEP));
    PartStep(c, s3, u, s3.orders[id]);
  }

  // ---------------------------------------------------------------------------
  // Such a run, from the start
  // ---------------------------------------------------------------------------

  const YES := Choice(true, true, Accepted(Name("X-1")))

  /** One order, acknowledged by the exchange. */
  function Acknowledge(intent: Intent): seq<Action> {
    var go := Go(0, YES);
    [Begin(Execute(intent)), go, go, go, go, go, go, go]
  }

  /** Two fills for it, begun and found. */
  function BeginFills(f: Report, g: Report): seq<Action> {
    [Begin(HandleFill(f)), Begin(HandleFill(g)), Go(1, STEP), Go(2, STEP)]
  }

  /** Both read what is open, then both are applied. */
  function Race(): seq<Action> {
    [Go(1, STEP), Go(2, STEP), Go(1, STEP), Go(2, STEP)]
  }

  function RacingActions(intent: Intent, f: Report, g: Report): seq<Action> {
    Acknowledge(intent) + BeginFills(f, g) + Race()
  }

  /** The same steps, one after the other. */
  function ActAll(c: Setup, s: Sys, actions: seq<Action>): Sys
    decreases |actions|
  {
    if actions == [] then s else ActAll(c, Act(c, s, actions[0]), actions[1..])
  }

  lemma {:induction false} RunIsActAll(c: Setup, before: seq<Action>, actions: seq<Action>)
    ensures RunSys(c, before + actions) == ActAll(c, RunSys(c, before), actions)
    decreases |actions|
  {
    if actions == [] {
      assert before + actions == before;
    } else {
      assert before + actions == before + [actions[0]] + actions[1..];
      assert (before + [actions[0]])[..|before|] == before;
      RunIsActAll(c, before + [actions[0]], actions[1..]);
    }
  }

  /** The order of an execution that risk and the exchange accept is acknowledged after seven steps. */
  lemma AckedInSeven(c: Setup, intent: Intent)
    requires !c.dryRun
    ensures var s := ActAll(c, START, Acknowledge(intent));
      && s.orders == map[intent.intentId := NewOrder(intent).(state := Acked, orderId := Some(Name("X-1")))]
      && |s.threads| == 1
  {
    var id := intent.intentId;
    var s1 := Act(c, START, Begin(Execute(intent)));
    assert s1.threads == [Executing(intent, LookUp, false)];
    var s2 := Act(c, s1, Go(0, YES));
    var s3 := Act(c, s2, Go(0, YES));
    var s4 := Act(c, s3, Go(0, YES));
    assert s4.threads == [Executing(intent, DoSubmit, true)] && s4.orders == map[id := NewOrder(intent)];
    var s5 := Act(c, s4, Go(0, YES));
    assert s5.threads == [Executing(intent, Route, true)];
    assert s5.orders == map[id := NewOrder(intent).(state := Submitted)];
    var s6 := Act(c, s5, Go(0, YES));
    var s7 := Act(c, s6, Go(0, YES));
    assert s7.threads == [Executing(intent, DoAck(Name("X-1")), true)] && s7.orders == s5.orders;
    var s8 := Act(c, s7, Go(0, YES));
    hide Act;
    var go := Go(0, YES);
    assert ActAll(c, s7, [go]) == s8;
    assert ActAll(c, s6, [go, go]) == s8;
    assert ActAll(c, s5, [go, go, go]) == s8;
    assert ActAll(c, s4, [go, go, go, go]) == s8;
    assert ActAll(c, s3, [go, go, go, go, go]) == s8;
    assert ActAll(c, s2, [go, go, go, go, go, go]) == s8;
    assert ActAll(c, s1, [go, go, go, go, go, go, go]) == s8;
  }

  /** Two fills begun and found, from any state that has their order. */
  lemma BothReady(c: Setup, s: Sys, f: Report, g: Report)
    requires |s.threads| == 1 && f.intentId in s.orders && g.intentId == f.intentId
    ensures var s' := ActAll(c, s, BeginFills(f, g));
      && s'.orders == s.orders
      && s'.threads == s.threads + [Filling(f, ReadRemaining), Filling(g, ReadRemaining)]
  {
    var s1 := Act(c, s, Begin(HandleFill(f)));
    var s2 := Act(c, s1, Begin(HandleFill(g)));
    var s3 := Act(c, s2, Go(1, STEP));
    var s4 := Act(c, s3, Go(2, STEP));
    hide Act;
    assert ActAll(c, s3, [Go(2, STEP)]) == s4;
    assert ActAll(c, s2, [Go(1, STEP), Go(2, STEP)]) == s4;
    assert ActAll(c, s1, [Begin(HandleFill(g)), Go(1, STEP), Go(2, STEP)]) == s4;
  }

  /** From the start: an order of two, acknowledged, and two fills of one each. Both are taken, the order is
      full, and it is PARTIAL. */
  lemma RaceFromStart(c: Setup, intent: Intent, f: Report, g: Report)
    requires !c.dryRun && intent.qty == 2.0 && f.fill.qty == 1.0 && g.fill.qty == 1.0
    requires f.intentId == intent.intentId && g.intentId == intent.intentId
    ensures var s := RunSys(c, RacingActions(intent, f, g));
      && intent.intentId in s.orders
      && var o := s.orders[intent.intentId];
      o.state.Partial? && o.filledQty == o.intent.qty == 2.0 && !FullThroughout(c, RacingActions(intent, f, g))
  {
    var id, actions := intent.intentId, RacingActions(intent, f, g);
    hide Act, FullThroughout, Acknowledge, BeginFills;
    var s := ActAll(c, START, Acknowledge(intent));
    AckedInSeven(c, intent);
    var s' := ActAll(c, s, BeginFills(f, g));
    BothReady(c, s, f, g);
    RacedFills(c, s', 1, 2, id);
    FourSteps(c, s', Go(1, STEP), Go(2, STEP), Go(1, STEP), Go(2, STEP));
    InThreeParts(c, intent, f, g);
    FullIsPartial(c, actions, id);
  }

  lemma InThreeParts(c: Setup, intent: Intent, f: Report, g: Report)
    ensures RunSys(c, RacingActions(intent, f, g)) ==
      ActAll(c, ActAll(c, ActAll(c, START, Acknowledge(intent)), BeginFills(f, g)), Race())
  {
    assert RunSys(c, []) == START;
    hide Acknowledge, BeginFills, Race, Act;
    RunIsActAll(c, [], Acknowledge(intent));
    assert [] + Acknowledge(intent) == Acknowledge(intent);
    assert RunSys(c, Acknowledge(intent)) == ActAll(c, START, Acknowledge(intent));
    RunIsActAll(c, Acknowledge(intent), BeginFills(f, g));
    RunIsActAll(c, Acknowledge(intent) + BeginFills(f, g), Race());
  }

  lemma FourSteps(c: Setup, s: Sys, a: Action, b: Action, a': Action, b': Action)
    ensures ActAll(c, s, [a, b, a', b']) == Act(c, Act(c, Act(c, Act(c, s, a), b), a'), b')
  {
    hide Act;
    var s3 := Act(c, Act(c, Act(c, s, a), b), a');
    assert ActAll(c, s3, [b']) == Act(c, s3, b');
    assert ActAll(c, Act(c, Act(c, s, a), b), [a', b']) == ActAll(c, s3, [b']);
    assert [b, a', b'][1..] == [a', b'] && [a, b, a', b'][1..] == [b, a', b'];
  }

  lemma FullIsPartial(c: Setup, actions: seq<Action>, id: Name)
    requires id in RunSys(c, actions).orders
    requires var o := RunSys(c, actions).orders[id];
      o.state.Partial? && o.filledQty == o.intent.qty && o.intent.qty > 0.0
    ensures !FullThroughout(c, actions)
  {
    hide RunSys;
    var s := RunSys(c, actions);
    assert !FullMeansFilled(s.orders[id]);
    assert !FullFilled(s);
  }
}
