/** The equity and the fees that a backtest reports. */
module BacktestEquity {
  import opened Wrappers
  import opened Names
  import opened Sums
  import opened Position
  import opened Backtest

  type Prices = map<Name, real>

  function Gained(e: Entry, price: real): real {
    if e.side.Buy? then (price - e.price) * e.qty else (e.price - price) * e.qty
  }

  /** The unrealized profit of a key's open entry, or nothing while its symbol has no price. */
  function Unrealized(entries: map<Key, Entry>, prices: Prices): Key -> real {
    (k: Key) => if k in entries && k.market.symbol in prices then Gained(entries[k], prices[k.market.symbol]) else 0.0
  }

  ghost function Equity(initial: real, s: Desk, prices: Prices): real {
    initial + s.realized + Sum(s.entries.Keys, Unrealized(s.entries, prices))
  }

  // ---------------------------------------------------------------------------
  // Equity is cash and holdings
  // ---------------------------------------------------------------------------

  /** The worth of a position: its cash and what it holds at the last price; only its realized profit
      while the symbol has no price. */
  function Worth(p: Pos, price: Option<real>): real {
    match price
    case Some(px) => Cash(p) + p.qty * px
    case None => p.realized
  }

  function PriceOf(prices: Prices, k: Key): Option<real> {
    if k.market.symbol in prices then Some(prices[k.market.symbol]) else None
  }

  function Worths(b: Book, prices: Prices): Key -> real {
    (k: Key) => Worth(PosAt(b.positions, k), PriceOf(prices, k))
  }

  lemma OpenWorth(e: Entry, p: Pos, price: real)
    requires Agree(Some(e), p)
    ensures Worth(p, Some(price)) == p.realized + Gained(e, price)
  {
    if e.side.Buy? {
      assert p.qty * (price - p.avgEntry) == p.qty * price - p.qty * p.avgEntry;
    } else {
      assert p.qty * price - p.qty * p.avgEntry == (p.avgEntry - price) * e.qty;
    }
  }

  lemma WorthSplits(s: Desk, prices: Prices, k: Key)
    requires Agree(EntryAt(s.entries, k), PosAt(s.book.positions, k))
    ensures Worths(s.book, prices)(k) == Realized(s.book)(k) + Unrealized(s.entries, prices)(k)
  {
    if k in s.entries && k.market.symbol in prices {
      OpenWorth(s.entries[k], PosAt(s.book.positions, k), prices[k.market.symbol]);
    }
  }

  lemma EntriesHavePositions(s: Desk)
    requires AllAgree(s)
    ensures s.entries.Keys <= s.book.positions.Keys
  {
    forall k | k in s.entries
      ensures k in s.book.positions
    {
      assert Agree(EntryAt(s.entries, k), PosAt(s.book.positions, k));
    }
  }

  lemma EquitySplits(initial: real, s: Desk, prices: Prices)
    requires AllAgree(s) && ProfitsMatch(s)
    ensures Equity(initial, s, prices) + TotalFees(s.trades) ==
      initial + Sum(s.book.positions.Keys, Worths(s.book, prices))
  {
    var u, keys := Unrealized(s.entries, prices), s.book.positions.Keys;
    EntriesHavePositions(s);
    SumOfMore(s.entries.Keys, keys - s.entries.Keys, u, u);
    assert s.entries.Keys + (keys - s.entries.Keys) == keys;
    forall k | k in keys
      ensures Worths(s.book, prices)(k) == Realized(s.book)(k) + u(k)
    {
      WorthSplits(s, prices, k);
    }
    SumPlus(keys, Realized(s.book), u, Worths(s.book, prices));
  }

  /** At any time and any prices: equity, with the fees of closed trades added back, is the initial capital
      and the worth of all positions. */
  lemma EquityIsWorth(ds: seq<Deal>, initial: real, prices: Prices)
    requires NeverDusty(ds) && forall n :: 0 <= n < |ds| ==> TwoSided(ds[n])
    ensures var s := Run(ds);
      Equity(initial, s, prices) + TotalFees(s.trades) == initial + Sum(s.book.positions.Keys, Worths(s.book, prices))
  {
    ProfitsAgree(ds);
    LockstepExactly(ds);
    assert ds[..|ds|] == ds;
    EquitySplits(initial, Run(ds), prices);
  }

  // ---------------------------------------------------------------------------
  // Net cash
  // ---------------------------------------------------------------------------

  /** The fills of the deals that have a reference price. */
  function Fills(ds: seq<Deal>): seq<Fill> {
    if ds == [] then []
    else
      var d := ds[|ds| - 1];
      Fills(ds[..|ds| - 1]) + if d.reference == 0.0 then [] else [FillOf(d)]
  }

  lemma BookOfExecute(s: Desk, d: Deal)
    ensures Execute(s, d).book == if d.reference == 0.0 then s.book else BookFill(s.book, FillOf(d))
  {
    hide BookFill, NextEntry, Closed;
  }

  lemma {:induction false} BookOfFills(ds: seq<Deal>)
    ensures Run(ds).book == BookRun(Fills(ds))
  {
    if ds != [] {
      var init, d := ds[..|ds| - 1], ds[|ds| - 1];
      BookOfFills(init);
      BookOfExecute(Run(init), d);
      hide BookFill, Execute;
      assert (Fills(init) + [FillOf(d)])[..|Fills(init)|] == Fills(init);
      assert Fills(init) + [] == Fills(init);
    }
  }

  function Cashes(b: Book): Key -> real {
    (k: Key) => Cash(PosAt(b.positions, k))
  }

  lemma CashesStep(b: Book, f: Fill)
    ensures Sum(BookFill(b, f).positions.Keys, Cashes(BookFill(b, f))) == Sum(b.positions.Keys, Cashes(b)) - Value(f)
  {
    var k := KeyOf(f);
    FillStep(PosAt(b.positions, k), f);
    FlatCash();
    hide ApplyFill, Cash, Value;
    SumUpdated(b.positions, k, ApplyFill(PosAt(b.positions, k), f), Cashes(b), Cashes(BookFill(b, f)));
  }

  /** The positions' cash is the cash that all fills moved. */
  lemma {:induction false} CashOfBook(fs: seq<Fill>)
    ensures Sum(BookRun(fs).positions.Keys, Cashes(BookRun(fs))) == NetCash(fs)
  {
    if fs == [] {
      assert Sum({}, Cashes(EMPTY_BOOK)) == 0.0;
    } else {
      CashOfBook(fs[..|fs| - 1]);
      CashesStep(BookRun(fs[..|fs| - 1]), fs[|fs| - 1]);
    }
  }

  function Holdings(b: Book, prices: Prices): Key -> real {
    (k: Key) => if k.market.symbol in prices then PosAt(b.positions, k).qty * prices[k.market.symbol] else 0.0
  }

  /** With a price for every symbol traded: equity, with the fees of closed trades added back, is initial
      capital, net cash from fills, and holdings at the last prices. */
  lemma EquityIsCashAndHoldings(ds: seq<Deal>, initial: real, prices: Prices)
    requires NeverDusty(ds) && forall n :: 0 <= n < |ds| ==> TwoSided(ds[n])
    requires forall k :: k in Run(ds).book.positions ==> k.market.symbol in prices
    ensures var s := Run(ds);
      Equity(initial, s, prices) + TotalFees(s.trades) ==
        initial + NetCash(Fills(ds)) + Sum(s.book.positions.Keys, Holdings(s.book, prices))
  {
    EquityIsWorth(ds, initial, prices);
    BookOfFills(ds);
    CashOfBook(Fills(ds));
    hide Run, NetCash, Fills, Equity, BookRun, TotalFees, AllAgree, NeverDusty, Worths, Cashes, Holdings;
    WorthsSplit(Run(ds).book, prices);
  }

  lemma WorthsSplit(b: Book, prices: Prices)
    requires forall k :: k in b.positions ==> k.market.symbol in prices
    ensures Sum(b.positions.Keys, Worths(b, prices)) ==
      Sum(b.positions.Keys, Cashes(b)) + Sum(b.positions.Keys, Holdings(b, prices))
  {
    hide Cash;
    SumPlus(b.positions.Keys, Cashes(b), Holdings(b, prices), Worths(b, prices));
  }

  // ---------------------------------------------------------------------------
  // Fees
  // ---------------------------------------------------------------------------

  function EntryFee(entry: Option<Entry>): real {
    if entry.Some? then entry.value.fee else 0.0
  }

  /** The fees that open entries carry. */
  function OpenFees(entries: map<Key, Entry>): Key -> real {
    (k: Key) => EntryFee(EntryAt(entries, k))
  }

  /** A fill that closes an entry in part: the entry's fees go into the trade and stay in the entry. */
  function CountedAgain(s: Desk, d: Deal): real {
    var entry := EntryAt(s.entries, d.key);
    if d.reference != 0.0 && Closes(entry, d) && entry.value.qty - d.qty > DUST then entry.value.fee else 0.0
  }

  function AllCountedAgain(ds: seq<Deal>): real {
    if ds == [] then 0.0
    else AllCountedAgain(ds[..|ds| - 1]) + CountedAgain(Run(ds[..|ds| - 1]), ds[|ds| - 1])
  }

  ghost function Charged(s: Desk): real {
    TotalFees(s.trades) + Sum(s.entries.Keys, OpenFees(s.entries))
  }

  lemma OpenFeesStep(entries: map<Key, Entry>, k: Key, entry: Option<Entry>)
    ensures var after := SetEntry(entries, k, entry);
      Sum(after.Keys, OpenFees(after)) ==
        Sum(entries.Keys, OpenFees(entries)) - EntryFee(EntryAt(entries, k)) + EntryFee(entry)
  {
    var after := SetEntry(entries, k, entry);
    var keys, f, g := entries.Keys - {k}, OpenFees(entries), OpenFees(after);
    SumSame(keys, f, g);
    if k in entries {
      SumExtract(entries.Keys, f, k);
    } else {
      assert keys == entries.Keys;
    }
    if entry.Some? {
      assert after.Keys == keys + {k};
      SumInsert(keys, g, k);
    } else {
      assert after.Keys == keys;
    }
  }

  lemma ChargeStep(s: Desk, d: Deal)
    ensures Charged(Execute(s, d)) - Execute(s, d).fees == Charged(s) - s.fees + CountedAgain(s, d)
  {
    var entry := EntryAt(s.entries, d.key);
    hide OpenFees, BookFill, TotalFees, Averaged, Gain, FillOf;
    OpenFeesStep(s.entries, d.key, NextEntry(entry, d));
    if Closes(entry, d) {
      TotalsStep(s.trades, Closed(entry.value, d));
    }
  }

  /** The fees of closed trades and open entries exceed the fees paid by the fees of every entry that was
      closed in part, once for each time that it was. */
  lemma {:induction false} FeesCounted(ds: seq<Deal>)
    ensures Charged(Run(ds)) == Run(ds).fees + AllCountedAgain(ds)
  {
    if ds == [] {
      assert Sum({}, OpenFees(map[])) == 0.0;
    } else {
      FeesCounted(ds[..|ds| - 1]);
      ChargeStep(Run(ds[..|ds| - 1]), ds[|ds| - 1]);
    }
  }

  ghost predicate FeesNonnegative(entries: map<Key, Entry>) {
    forall k :: k in entries ==> entries[k].fee >= 0.0
  }

  lemma NonnegativeStep(s: Desk, d: Deal)
    requires FeesNonnegative(s.entries) && d.fee >= 0.0
    ensures FeesNonnegative(Execute(s, d).entries) && CountedAgain(s, d) >= 0.0
  {
    hide BookFill, Averaged, Gain, FillOf;
  }

  /** No entry that carries fees is ever closed in part. */
  ghost predicate NeverAgain(ds: seq<Deal>) {
    forall n :: 0 <= n < |ds| ==> CountedAgain(Run(ds[..n]), ds[n]) == 0.0
  }

  lemma AgainPrefixes(ds: seq<Deal>)
    requires ds != []
    ensures var init := ds[..|ds| - 1];
      NeverAgain(ds) <==> NeverAgain(init) && CountedAgain(Run(init), ds[|ds| - 1]) == 0.0
  {
    var init := ds[..|ds| - 1];
    hide Run, CountedAgain;
    if NeverAgain(ds) {
      forall n | 0 <= n < |init| ensures CountedAgain(Run(init[..n]), init[n]) == 0.0 {
        assert init[..n] == ds[..n];
      }
    }
    if NeverAgain(init) && CountedAgain(Run(init), ds[|ds| - 1]) == 0.0 {
      forall n | 0 <= n < |ds| ensures CountedAgain(Run(ds[..n]), ds[n]) == 0.0 {
        if n < |init| {
          assert init[..n] == ds[..n];
          assert CountedAgain(Run(init[..n]), init[n]) == 0.0;
        }
      }
    }
  }

  lemma {:induction false} CountedNonnegative(ds: seq<Deal>)
    requires forall n :: 0 <= n < |ds| ==> ds[n].fee >= 0.0
    ensures FeesNonnegative(Run(ds).entries) && AllCountedAgain(ds) >= 0.0
    ensures AllCountedAgain(ds) == 0.0 <==> NeverAgain(ds)
  {
    if ds != [] {
      var init, d := ds[..|ds| - 1], ds[|ds| - 1];
      CountedNonnegative(init);
      NonnegativeStep(Run(init), d);
      assert AllCountedAgain(ds) == AllCountedAgain(init) + CountedAgain(Run(init), d);
      assert Run(ds) == Execute(Run(init), d);
      hide Run, Execute, CountedAgain, AllCountedAgain, FeesNonnegative, NeverAgain;
      AgainPrefixes(ds);
    }
  }

  /** Fees are counted once each exactly when no entry that carries fees is ever closed in part. */
  lemma FeesCountedOnce(ds: seq<Deal>)
    requires forall n :: 0 <= n < |ds| ==> ds[n].fee >= 0.0
    ensures Charged(Run(ds)) == Run(ds).fees <==> NeverAgain(ds)
  {
    hide Run, CountedAgain, Charged, AllCountedAgain;
    FeesCounted(ds);
    CountedNonnegative(ds);
  }

  lemma AgainAfter(ds: seq<Deal>, d: Deal)
    ensures AllCountedAgain(ds + [d]) == AllCountedAgain(ds) + CountedAgain(Run(ds), d)
    ensures Run(ds + [d]) == Execute(Run(ds), d)
  {
    assert (ds + [d])[..|ds|] == ds;
    hide CountedAgain, Execute;
  }

  /** A purchase of two for a fee of one, and a sale of one of them: the fee is in the trade and still in the
      entry, so two are counted where one was paid. */
  lemma FeeCountedTwice(k: Key)
    ensures var ds := [Deal(k, Buy, 2.0, 1.0, 0.0, 1.0), Deal(k, Sell, 1.0, 1.0, 0.0, 0.0)];
      Run(ds).fees == 1.0 && Charged(Run(ds)) == 2.0 && !NeverAgain(ds)
  {
    var buy, sell := Deal(k, Buy, 2.0, 1.0, 0.0, 1.0), Deal(k, Sell, 1.0, 1.0, 0.0, 0.0);
    OthersUnmoved(EMPTY, buy, k);
    assert EntryAt(Execute(EMPTY, buy).entries, k) == Some(Entry(Buy, 1.0, 2.0, 1.0));
    assert CountedAgain(EMPTY, buy) == 0.0 && CountedAgain(Execute(EMPTY, buy), sell) == 1.0;
    hide Execute, CountedAgain, Charged;
    FeesOfExecute(EMPTY, buy);
    FeesOfExecute(Execute(EMPTY, buy), sell);
    AgainAfter([], buy);
    AgainAfter([buy], sell);
    assert [] + [buy] == [buy] && [buy] + [sell] == [buy, sell];
    FeesCounted([buy, sell]);
    FeesCountedOnce([buy, sell]);
  }

  lemma FeesOfExecute(s: Desk, d: Deal)
    ensures Execute(s, d).fees == s.fees + if d.reference == 0.0 then 0.0 else d.fee
  {
    hide BookFill, NextEntry, Closed;
  }
}
