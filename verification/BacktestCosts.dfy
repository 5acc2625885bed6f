/** What slippage and fees cost in a backtest, and how often each is taken off. */
module BacktestCosts {
  import opened Wrappers
  import opened Names
  import opened Sums
  import opened Position
  import opened Backtest
  import opened BacktestEquity
  import opened Metrics

  // ---------------------------------------------------------------------------
  // Slippage
  // ---------------------------------------------------------------------------

  /** What a quantity moves in cash at a price: a sale brings it in, a purchase takes it out. */
  function Moves(side: Side, qty: real, price: real): real {
    if side == Sell then qty * price else -(qty * price)
  }

  /** The cash that the deals would have moved at their reference prices; one without is not filled. */
  function AtReference(ds: seq<Deal>): real {
    if ds == [] then 0.0
    else
      var d := ds[|ds| - 1];
      AtReference(ds[..|ds| - 1]) + if d.reference == 0.0 then 0.0 else Moves(d.side, d.qty, d.reference)
  }

  /** What slippage takes: it is what the quantity costs more to buy, or brings less when sold. */
  function Slipped(ds: seq<Deal>): real {
    if ds == [] then 0.0
    else
      var d := ds[|ds| - 1];
      Slipped(ds[..|ds| - 1]) + if d.reference == 0.0 then 0.0 else -Moves(d.side, d.qty, d.slippage)
  }

  lemma ValueSplits(d: Deal)
    ensures -Value(FillOf(d)) == Moves(d.side, d.qty, d.reference) + Moves(d.side, d.qty, d.slippage)
  {
    assert d.qty * (d.reference + d.slippage) == d.qty * d.reference + d.qty * d.slippage;
  }

  /** The cash that a backtest's fills move is what they would have moved at their reference prices, less the
      slippage on every quantity. */
  lemma {:induction false} SlippageTakes(ds: seq<Deal>)
    ensures NetCash(Fills(ds)) == AtReference(ds) - Slipped(ds)
  {
    if ds != [] {
      var init, d := ds[..|ds| - 1], ds[|ds| - 1];
      SlippageTakes(init);
      ValueSplits(d);
      hide Value, Moves, FillOf;
      NetOfAppend(Fills(init), if d.reference == 0.0 then [] else [FillOf(d)]);
      NetOfOne(FillOf(d));
    }
  }

  /** So with a price for every symbol, and no position left open by dust: equity and the fees of closed trades
      are what they would be at the reference prices, less the slippage on every quantity. */
  lemma EquityAfterSlippage(ds: seq<Deal>, initial: real, prices: Prices)
    requires NeverDusty(ds) && forall n :: 0 <= n < |ds| ==> TwoSided(ds[n])
    requires forall k :: k in Run(ds).book.positions ==> k.market.symbol in prices
    ensures var s := Run(ds);
      Equity(initial, s, prices) + TotalFees(s.trades) ==
        initial + AtReference(ds) - Slipped(ds) + Sum(s.book.positions.Keys, Holdings(s.book, prices))
  {
    EquityIsCashAndHoldings(ds, initial, prices);
    SlippageTakes(ds);
    hide Run, NetCash, Fills, Equity, AtReference, Slipped, Holdings, TotalFees, NeverDusty;
  }

  // ---------------------------------------------------------------------------
  // Round trips
  // ---------------------------------------------------------------------------

  /** The trade that a fill on the other side completes: of the smaller of both quantities, from the entry's price
      to the fill's, which is its reference price and the slippage; all the fees of both are taken off. */
  lemma ClosedIs(e: Entry, d: Deal)
    ensures var t, exit := Closed(e, d), d.reference + d.slippage;
      && t.qty <= e.qty && t.qty <= d.qty && (t.qty == e.qty || t.qty == d.qty)
      && t.symbol == d.key.market.symbol && t.side == e.side && t.entryPrice == e.price && t.exitPrice == exit
      && t.fees == e.fee + d.fee
      && t.pnl == (if e.side == Buy then t.qty * (exit - e.price) else t.qty * (e.price - exit)) - t.fees
      && t.slippage >= 0.0 && (t.slippage == d.slippage || t.slippage == -d.slippage)
  {
  }

  // ---------------------------------------------------------------------------
  // Fees
  // ---------------------------------------------------------------------------

  /** The fees of the deals that are filled. */
  function FeesOf(ds: seq<Deal>): real {
    if ds == [] then 0.0
    else FeesOf(ds[..|ds| - 1]) + if ds[|ds| - 1].reference == 0.0 then 0.0 else ds[|ds| - 1].fee
  }

  lemma {:induction false} FeesArePaid(ds: seq<Deal>)
    ensures Run(ds).fees == FeesOf(ds)
  {
    if ds != [] {
      FeesArePaid(ds[..|ds| - 1]);
      FeesOfExecute(Run(ds[..|ds| - 1]), ds[|ds| - 1]);
      hide Execute;
    }
  }

  // ---------------------------------------------------------------------------
  // What the figures take off again
  // ---------------------------------------------------------------------------

  lemma RealizedStep(s: Desk, d: Deal)
    requires s.realized == TotalPnL(s.trades)
    ensures Execute(s, d).realized == TotalPnL(Execute(s, d).trades)
  {
    var entry := EntryAt(s.entries, d.key);
    hide BookFill, FillOf, NextEntry, SetEntry, Closed;
    if d.reference != 0.0 && Closes(entry, d) {
      TotalsStep(s.trades, Closed(entry.value, d));
    }
  }

  lemma {:induction false} RealizedIsTotal(ds: seq<Deal>)
    ensures Run(ds).realized == TotalPnL(Run(ds).trades)
  {
    if ds != [] {
      RealizedIsTotal(ds[..|ds| - 1]);
      RealizedStep(Run(ds[..|ds| - 1]), ds[|ds| - 1]);
      hide Execute;
    }
  }

  /** The deal completes a round trip that has fees, or does so with slippage. */
  predicate Costly(s: Desk, d: Deal) {
    var entry := EntryAt(s.entries, d.key);
    d.reference != 0.0 && Closes(entry, d) && (entry.value.fee + d.fee != 0.0 || d.slippage != 0.0)
  }

  predicate NeverCostly(ds: seq<Deal>) {
    ds == [] || (NeverCostly(ds[..|ds| - 1]) && !Costly(Run(ds[..|ds| - 1]), ds[|ds| - 1]))
  }

  lemma SlippageOfMore(trades: seq<Trade>, t: Trade)
    ensures TotalSlippage(trades + [t]) == TotalSlippage(trades) + t.slippage
  {
    assert (trades + [t])[..|trades|] == trades;
  }

  /** What one deal adds to the costs of the trades: nothing, unless it is costly. */
  lemma CostStep(s: Desk, d: Deal)
    requires FeesNonnegative(s.entries) && d.fee >= 0.0
    ensures var added := TotalFees(Execute(s, d).trades) + TotalSlippage(Execute(s, d).trades)
                         - TotalFees(s.trades) - TotalSlippage(s.trades);
      added >= 0.0 && (added == 0.0 <==> !Costly(s, d))
  {
    var entry := EntryAt(s.entries, d.key);
    hide BookFill, FillOf, NextEntry, SetEntry, Gain;
    if d.reference != 0.0 && Closes(entry, d) {
      TotalsStep(s.trades, Closed(entry.value, d));
      SlippageOfMore(s.trades, Closed(entry.value, d));
    }
  }

  lemma {:induction false} CostsOfRun(ds: seq<Deal>)
    requires forall n :: 0 <= n < |ds| ==> ds[n].fee >= 0.0
    ensures FeesNonnegative(Run(ds).entries)
    ensures var costs := TotalFees(Run(ds).trades) + TotalSlippage(Run(ds).trades);
      costs >= 0.0 && (costs == 0.0 <==> NeverCostly(ds))
  {
    if ds != [] {
      var init, d := ds[..|ds| - 1], ds[|ds| - 1];
      CostsOfRun(init);
      NonnegativeStep(Run(init), d);
      CostStep(Run(init), d);
      hide Execute, Costly, FeesNonnegative;
    }
  }

  /** A trade's profit is already after its fees, and its prices already after slippage; the figures take both off
      once more. So over every backtest without negative fees, the net profit that they report is the profit that
      the equity counts if and only if no deal completes a round trip that has fees, or with slippage. */
  lemma CostsTakenTwice(ds: seq<Deal>)
    requires forall n :: 0 <= n < |ds| ==> ds[n].fee >= 0.0
    ensures var s := Run(ds);
      && NetPnL(s.trades) == s.realized - TotalFees(s.trades) - TotalSlippage(s.trades)
      && (NetPnL(s.trades) == s.realized <==> NeverCostly(ds))
  {
    RealizedIsTotal(ds);
    CostsOfRun(ds);
    hide Run, NeverCostly;
  }

  /** One lot bought at 1 and sold at 2 for a fee of a quarter each: the profit is a half, and half of that is
      taken off again, so that nothing is reported. */
  lemma HalfReported(k: Key)
    ensures var ds := [Deal(k, Buy, 1.0, 1.0, 0.0, 0.25), Deal(k, Sell, 1.0, 2.0, 0.0, 0.25)];
      Run(ds).realized == 0.5 && NetPnL(Run(ds).trades) == 0.0
  {
    var buy, sell := Deal(k, Buy, 1.0, 1.0, 0.0, 0.25), Deal(k, Sell, 1.0, 2.0, 0.0, 0.25);
    var ds := [buy, sell];
    assert ds[..1] == [buy] && [buy][..0] == [];
    assert Run([buy]) == Execute(EMPTY, buy) && Run(ds) == Execute(Run([buy]), sell);
    OneTrade(k);
    RealizedIsTotal(ds);
  }

  lemma OneTrade(k: Key)
    ensures var buy, sell := Deal(k, Buy, 1.0, 1.0, 0.0, 0.25), Deal(k, Sell, 1.0, 2.0, 0.0, 0.25);
      var s := Execute(Execute(EMPTY, buy), sell);
      && |s.trades| == 1 && TotalPnL(s.trades) == 0.5 && TotalFees(s.trades) == 0.5 && TotalSlippage(s.trades) == 0.0
  {
    var buy, sell := Deal(k, Buy, 1.0, 1.0, 0.0, 0.25), Deal(k, Sell, 1.0, 2.0, 0.0, 0.25);
    var e := Entry(Buy, 1.0, 1.0, 0.25);
    var t := Closed(e, sell);
    hide BookFill, FillOf;
    assert EntryAt(Execute(EMPTY, buy).entries, k) == Some(e) && Execute(EMPTY, buy).trades == [];
    assert Execute(Execute(EMPTY, buy), sell).trades == [] + [t];
    assert [t][..0] == [];
    assert t.pnl == 0.5 && t.fees == 0.5 && t.slippage == 0.0;
  }
}
