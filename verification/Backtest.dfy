/** The backtest's own record of trades (nexus/internal/backtest/runner.go) beside the position book that the
    same fills go to: two bookkeepers that should agree. */
module Backtest {
  import opened Wrappers
  import opened Names
  import opened Sums
  import opened Position

  // Quantities that are traded are positive.
  type Lots = q: real | q > 0.0 witness 1.0

  /** An open round trip. */
  datatype Entry = Entry(side: Side, price: real, qty: Lots, fee: real)

  datatype Trade = Trade(
    symbol: Name, side: Side, entryPrice: real, exitPrice: real, qty: real, pnl: real, fees: real, slippage: real)

  /** An order to fill, with what the slippage and fee models say of it. */
  datatype Deal = Deal(key: Key, side: Side, qty: Lots, reference: real, slippage: real, fee: real)

  function FillPrice(d: Deal): real {
    d.reference + d.slippage
  }

  function FillOf(d: Deal): Fill {
    Fill(d.key.strategy, d.key.market.exchange, d.key.market.symbol, d.side, d.qty, FillPrice(d), d.fee)
  }

  datatype Desk = Desk(entries: map<Key, Entry>, trades: seq<Trade>, fees: real, realized: real, book: Book)

  const EMPTY := Desk(map[], [], 0.0, 0.0, EMPTY_BOOK)

  // ---------------------------------------------------------------------------
  // The trade record
  // ---------------------------------------------------------------------------

  /** Remainders up to this size count as nothing. */
  const DUST := 0.000000000001

  function Min(a: real, b: real): real {
    if a <= b then a else b
  }

  /** The round trip that a fill on the other side completes, in whole or in part. */
  function Closed(e: Entry, d: Deal): Trade {
    var qty, fees := Min(d.qty, e.qty), e.fee + d.fee;
    Trade(d.key.market.symbol, e.side, e.price, FillPrice(d), qty,
          Gain(e.side.Buy?, e.price, FillPrice(d), qty) - fees, fees, Position.Abs(d.slippage))
  }

  /** What is left open by a fill on the other side. */
  function Reduced(e: Entry, d: Deal): Option<Entry> {
    if e.qty - d.qty > DUST then Some(e.(qty := e.qty - d.qty))
    else if d.qty - e.qty > DUST then Some(Entry(d.side, FillPrice(d), d.qty - e.qty, 0.0))
    else None
  }

  function Added(e: Entry, d: Deal): Entry {
    Entry(e.side, Averaged(e.price, e.qty, FillPrice(d), d.qty), e.qty + d.qty, e.fee + d.fee)
  }

  function EntryAt(entries: map<Key, Entry>, k: Key): Option<Entry> {
    if k in entries then Some(entries[k]) else None
  }

  /** The open entry after a fill. */
  function NextEntry(entry: Option<Entry>, d: Deal): Option<Entry> {
    match entry
    case None => Some(Entry(d.side, FillPrice(d), d.qty, d.fee))
    case Some(e) => if e.side != d.side then Reduced(e, d) else Some(Added(e, d))
  }

  predicate Closes(entry: Option<Entry>, d: Deal) {
    entry.Some? && entry.value.side != d.side
  }

  function SetEntry(entries: map<Key, Entry>, k: Key, entry: Option<Entry>): map<Key, Entry> {
    if entry.Some? then entries[k := entry.value] else entries - {k}
  }

  function Record(s: Desk, d: Deal): Desk {
    var entry := EntryAt(s.entries, d.key);
    var s' := s.(entries := SetEntry(s.entries, d.key, NextEntry(entry, d)));
    if Closes(entry, d) then
      var t := Closed(entry.value, d);
      s'.(trades := s.trades + [t], realized := s.realized + t.pnl)
    else s'
  }

  /** A deal without a reference price is skipped; any other is filled, and told to both bookkeepers. */
  function Execute(s: Desk, d: Deal): Desk {
    if d.reference == 0.0 then s
    else Record(s.(fees := s.fees + d.fee, book := BookFill(s.book, FillOf(d))), d)
  }

  function Run(ds: seq<Deal>): Desk {
    if ds == [] then EMPTY else Execute(Run(ds[..|ds| - 1]), ds[|ds| - 1])
  }

  // ---------------------------------------------------------------------------
  // Lockstep
  // ---------------------------------------------------------------------------

  /** The deals strategies make are purchases and sales. */
  predicate TwoSided(d: Deal) {
    d.side.Buy? || d.side.Sell?
  }

  /** The open entry and the position say the same. */
  predicate Agree(entry: Option<Entry>, p: Pos) {
    match entry
    case None => p.qty == 0.0
    case Some(e) =>
      && (e.side.Buy? || e.side.Sell?)
      && (if e.side.Buy? then p.qty else -p.qty) == e.qty
      && p.avgEntry == e.price
  }

  /** A fill against the position that leaves it open by no more than the tolerance. */
  predicate LeavesDust(p: Pos, d: Deal) {
    var left := p.qty + Signed(FillOf(d));
    p.qty != 0.0 && !SameDirection(p.qty, Signed(FillOf(d))) && left != 0.0 && Position.Abs(left) <= DUST
  }

  /** One fill keeps the two in agreement exactly when it leaves no dust. */
  lemma StepAgrees(entry: Option<Entry>, p: Pos, d: Deal)
    requires TwoSided(d) && Agree(entry, p)
    ensures Agree(NextEntry(entry, d), ApplyFill(p, FillOf(d))) <==> !LeavesDust(p, d)
  {
    if entry.None? {
    } else if Closes(entry, d) {
      CloseAgrees(entry.value, p, d);
    } else {
      AddAgrees(entry.value, p, d);
    }
  }

  lemma AddAgrees(e: Entry, p: Pos, d: Deal)
    requires TwoSided(d) && Agree(Some(e), p) && e.side == d.side
    ensures Agree(Some(Added(e, d)), ApplyFill(p, FillOf(d))) && !LeavesDust(p, d)
  {
    hide Averaged;
  }

  lemma CloseAgrees(e: Entry, p: Pos, d: Deal)
    requires TwoSided(d) && Agree(Some(e), p) && e.side != d.side
    ensures Agree(Reduced(e, d), ApplyFill(p, FillOf(d))) <==> !LeavesDust(p, d)
  {
    hide Averaged, Gain;
  }

  ghost predicate AllAgree(s: Desk) {
    forall k :: Agree(EntryAt(s.entries, k), PosAt(s.book.positions, k))
  }

  /** The deal is filled and leaves dust. */
  predicate Dusty(s: Desk, d: Deal) {
    d.reference != 0.0 && LeavesDust(PosAt(s.book.positions, d.key), d)
  }

  lemma OthersUnmoved(s: Desk, d: Deal, k: Key)
    ensures k != d.key ==>
      && EntryAt(Execute(s, d).entries, k) == EntryAt(s.entries, k)
      && PosAt(Execute(s, d).book.positions, k) == PosAt(s.book.positions, k)
    ensures d.reference != 0.0 ==>
      && EntryAt(Execute(s, d).entries, d.key) == NextEntry(EntryAt(s.entries, d.key), d)
      && PosAt(Execute(s, d).book.positions, d.key) == ApplyFill(PosAt(s.book.positions, d.key), FillOf(d))
  {
    assert KeyOf(FillOf(d)) == d.key;
    hide ApplyFill, NextEntry, Closed;
  }

  lemma ExecuteAgrees(s: Desk, d: Deal)
    requires TwoSided(d) && AllAgree(s)
    ensures AllAgree(Execute(s, d)) <==> !Dusty(s, d)
  {
    var s' := Execute(s, d);
    StepAgrees(EntryAt(s.entries, d.key), PosAt(s.book.positions, d.key), d);
    hide Execute, LeavesDust, Agree, NextEntry, ApplyFill, EntryAt, PosAt;
    OthersUnmoved(s, d, d.key);
    forall k | k != d.key
      ensures Agree(EntryAt(s'.entries, k), PosAt(s'.book.positions, k))
    {
      OthersUnmoved(s, d, k);
      assert Agree(EntryAt(s.entries, k), PosAt(s.book.positions, k));
    }
    if d.reference == 0.0 {
      SkippedDeal(s, d);
    }
  }

  lemma SkippedDeal(s: Desk, d: Deal)
    requires d.reference == 0.0
    ensures Execute(s, d) == s
  {
  }

  ghost predicate AgreeThroughout(ds: seq<Deal>) {
    forall n :: 0 <= n <= |ds| ==> AllAgree(Run(ds[..n]))
  }

  ghost predicate NeverDusty(ds: seq<Deal>) {
    forall n :: 0 <= n < |ds| ==> !Dusty(Run(ds[..n]), ds[n])
  }

  /** The two ledgers agree on side, size and entry price for every key, after every deal, exactly when no
      deal leaves a position open by no more than the tolerance. */
  lemma {:induction false} LockstepExactly(ds: seq<Deal>)
    requires forall n :: 0 <= n < |ds| ==> TwoSided(ds[n])
    ensures AgreeThroughout(ds) <==> NeverDusty(ds)
  {
    if ds == [] {
    } else {
      var init, d := ds[..|ds| - 1], ds[|ds| - 1];
      LockstepExactly(init);
      assert Run(ds) == Execute(Run(init), d);
      hide Run, AllAgree, Dusty, Execute;
      Prefixes(ds);
      if AllAgree(Run(init)) {
        ExecuteAgrees(Run(init), d);
      }
    }
  }

  /** Both conditions, one deal at a time. */
  lemma Prefixes(ds: seq<Deal>)
    requires ds != []
    ensures var init := ds[..|ds| - 1];
      && (AgreeThroughout(ds) <==> AgreeThroughout(init) && AllAgree(Run(ds)))
      && (NeverDusty(ds) <==> NeverDusty(init) && !Dusty(Run(init), ds[|ds| - 1]))
      && (AgreeThroughout(init) ==> AllAgree(Run(init)))
  {
    var init := ds[..|ds| - 1];
    hide Run, AllAgree, Dusty;
    assert init[..|init|] == init && ds[..|ds|] == ds && ds[..|init|] == init;
    forall n | 0 <= n <= |init| ensures init[..n] == ds[..n] {}
    if AgreeThroughout(ds) {
      forall n | 0 <= n <= |init| ensures AllAgree(Run(init[..n])) { assert AllAgree(Run(ds[..n])); }
    }
    if AgreeThroughout(init) && AllAgree(Run(ds)) {
      forall n | 0 <= n <= |ds| ensures AllAgree(Run(ds[..n])) {
        if n <= |init| { assert AllAgree(Run(init[..n])); }
      }
    }
    if NeverDusty(ds) {
      forall n | 0 <= n < |init| ensures !Dusty(Run(init[..n]), init[n]) { assert !Dusty(Run(ds[..n]), ds[n]); }
      assert !Dusty(Run(ds[..|init|]), ds[|init|]);
    }
    if NeverDusty(init) && !Dusty(Run(init), ds[|ds| - 1]) {
      forall n | 0 <= n < |ds| ensures !Dusty(Run(ds[..n]), ds[n]) {
        if n < |init| { assert !Dusty(Run(init[..n]), init[n]); }
      }
    }
  }

  /** Such a deal: half of what the tolerance is stays with the position, and the open entry is gone. */
  lemma DustLeft(k: Key)
    ensures var ds := [Deal(k, Buy, 1.0, 1.0, 0.0, 0.0), Deal(k, Sell, 0.9999999999995, 1.0, 0.0, 0.0)];
      && k !in Run(ds).entries && PosAt(Run(ds).book.positions, k).qty == 0.0000000000005
      && !NeverDusty(ds) && !AgreeThroughout(ds)
  {
    var buy, sell := Deal(k, Buy, 1.0, 1.0, 0.0, 0.0), Deal(k, Sell, 0.9999999999995, 1.0, 0.0, 0.0);
    var ds := [buy, sell];
    assert ds[..1] == [buy] && [buy][..0] == [];
    OthersUnmoved(EMPTY, buy, k);
    OthersUnmoved(Run([buy]), sell, k);
    assert Run([buy]) == Execute(EMPTY, buy) && Run(ds) == Execute(Run([buy]), sell);
    hide Execute, Averaged, Gain;
    assert Dusty(Run(ds[..1]), ds[1]);
    LockstepExactly(ds);
  }

  /** `q` is a whole number of lots. */
  ghost predicate OnGrid(q: real, lot: real) {
    exists n: int :: q == Multiple(n, lot)
  }

  function Multiple(n: int, lot: real): real {
    n as real * lot
  }

  lemma GridSum(a: real, b: real, lot: real)
    requires OnGrid(a, lot) && OnGrid(b, lot)
    ensures OnGrid(a + b, lot) && OnGrid(-a, lot)
  {
    var m: int :| a == Multiple(m, lot);
    var n: int :| b == Multiple(n, lot);
    assert a + b == Multiple(m + n, lot);
    assert -a == Multiple(-m, lot);
  }

  lemma GridCoarse(q: real, lot: real)
    requires OnGrid(q, lot) && lot > DUST && q != 0.0
    ensures Position.Abs(q) > DUST
  {
    var n: int :| q == Multiple(n, lot);
    if n > 0 {
      assert Multiple(n, lot) >= lot;
    } else if n < 0 {
      assert Multiple(-n, lot) >= lot;
    }
  }

  ghost predicate BookOnGrid(b: Book, lot: real) {
    forall k :: OnGrid(PosAt(b.positions, k).qty, lot)
  }

  lemma GridStep(s: Desk, d: Deal, lot: real)
    requires BookOnGrid(s.book, lot) && OnGrid(d.qty, lot) && lot > DUST
    ensures BookOnGrid(Execute(s, d).book, lot) && !Dusty(s, d)
  {
    var p := PosAt(s.book.positions, d.key);
    hide OnGrid, Execute, ApplyFill, EntryAt, NextEntry, Cash, Value;
    FillStep(p, FillOf(d));
    GridSum(d.qty, d.qty, lot);
    GridSum(p.qty, Signed(FillOf(d)), lot);
    if p.qty + Signed(FillOf(d)) != 0.0 {
      GridCoarse(p.qty + Signed(FillOf(d)), lot);
    }
    if d.reference == 0.0 {
      SkippedDeal(s, d);
    } else {
      forall k ensures OnGrid(PosAt(Execute(s, d).book.positions, k).qty, lot) {
        OthersUnmoved(s, d, k);
      }
    }
  }

  lemma ZeroOnGrid(lot: real)
    ensures OnGrid(0.0, lot)
  {
    assert 0.0 == Multiple(0, lot);
  }

  lemma {:induction false} GridRun(ds: seq<Deal>, lot: real)
    requires lot > DUST && forall n :: 0 <= n < |ds| ==> OnGrid(ds[n].qty, lot)
    ensures NeverDusty(ds) && BookOnGrid(Run(ds).book, lot)
  {
    if ds == [] {
      ZeroOnGrid(lot);
    } else {
      var init := ds[..|ds| - 1];
      GridRun(init, lot);
      Prefixes(ds);
      assert Run(ds) == Execute(Run(init), ds[|ds| - 1]);
      hide Run, Execute, BookOnGrid, OnGrid, NeverDusty;
      GridStep(Run(init), ds[|ds| - 1], lot);
    }
  }

  /** Where every quantity is a whole number of lots, and a lot is larger than the tolerance, the two
      ledgers agree for every key after every deal. */
  lemma Lockstep(ds: seq<Deal>, lot: real)
    requires lot > DUST
    requires forall n :: 0 <= n < |ds| ==> TwoSided(ds[n]) && OnGrid(ds[n].qty, lot)
    ensures forall n, k :: 0 <= n <= |ds| ==>
      Agree(EntryAt(Run(ds[..n]).entries, k), PosAt(Run(ds[..n]).book.positions, k))
  {
    GridRun(ds, lot);
    LockstepExactly(ds);
    hide Agree, EntryAt, PosAt, Run, NeverDusty;
    forall n, k | 0 <= n <= |ds|
      ensures Agree(EntryAt(Run(ds[..n]).entries, k), PosAt(Run(ds[..n]).book.positions, k))
    {
      assert AllAgree(Run(ds[..n]));
    }
  }

  // ---------------------------------------------------------------------------
  // Profit
  // ---------------------------------------------------------------------------

  function TotalPnL(trades: seq<Trade>): real {
    if trades == [] then 0.0 else TotalPnL(trades[..|trades| - 1]) + trades[|trades| - 1].pnl
  }

  function TotalFees(trades: seq<Trade>): real {
    if trades == [] then 0.0 else TotalFees(trades[..|trades| - 1]) + trades[|trades| - 1].fees
  }

  /** What each key's position has realized. */
  function Realized(b: Book): Key -> real {
    (k: Key) => PosAt(b.positions, k).realized
  }

  /** The trades' profit before fees is what the positions realized, and the running profit is their sum
      after fees. */
  ghost predicate ProfitsMatch(s: Desk) {
    && s.realized == TotalPnL(s.trades)
    && TotalPnL(s.trades) + TotalFees(s.trades) == Sum(s.book.positions.Keys, Realized(s.book))
  }

  /** The profit of one fill, as the trade record and as the position see it. */
  lemma SameProfit(entry: Option<Entry>, p: Pos, d: Deal)
    requires TwoSided(d) && Agree(entry, p)
    ensures var p' := ApplyFill(p, FillOf(d));
      if Closes(entry, d) then
        var t := Closed(entry.value, d);
        t.pnl + t.fees == p'.realized - p.realized
      else p'.realized == p.realized
  {
    hide Averaged, Gain;
  }

  /** A sum over the keys of a map after one of them changed or was added. */
  lemma SumUpdated(m: map<Key, Pos>, k: Key, p: Pos, f: Key -> real, g: Key -> real)
    requires forall j :: j != k ==> g(j) == f(j)
    requires k !in m ==> f(k) == 0.0
    ensures Sum(m[k := p].Keys, g) == Sum(m.Keys, f) - f(k) + g(k)
  {
    if k in m {
      assert m[k := p].Keys == m.Keys;
      SumChange(m.Keys, f, g, k);
    } else {
      assert m[k := p].Keys == m.Keys + {k};
      SumInsert(m.Keys, g, k);
      SumSame(m.Keys, f, g);
    }
  }

  lemma RealizedStep(b: Book, f: Fill)
    ensures var k := KeyOf(f);
      Sum(BookFill(b, f).positions.Keys, Realized(BookFill(b, f))) ==
        Sum(b.positions.Keys, Realized(b))
        + ApplyFill(PosAt(b.positions, k), f).realized - PosAt(b.positions, k).realized
  {
    var k := KeyOf(f);
    hide ApplyFill;
    SumUpdated(b.positions, k, ApplyFill(PosAt(b.positions, k), f), Realized(b), Realized(BookFill(b, f)));
  }

  lemma TotalsStep(trades: seq<Trade>, t: Trade)
    ensures TotalPnL(trades + [t]) == TotalPnL(trades) + t.pnl
    ensures TotalFees(trades + [t]) == TotalFees(trades) + t.fees
  {
    assert (trades + [t])[..|trades|] == trades;
  }

  lemma ProfitStep(s: Desk, d: Deal)
    requires TwoSided(d) && AllAgree(s) && ProfitsMatch(s)
    ensures ProfitsMatch(Execute(s, d))
  {
    var k, f := d.key, FillOf(d);
    assert KeyOf(f) == k;
    assert Agree(EntryAt(s.entries, k), PosAt(s.book.positions, k));
    hide Agree, AllAgree, ApplyFill, Realized, FillOf, TotalPnL, TotalFees, Closed, NextEntry, BookFill, EntryAt, PosAt;
    SameProfit(EntryAt(s.entries, k), PosAt(s.book.positions, k), d);
    RealizedStep(s.book, f);
    if Closes(EntryAt(s.entries, k), d) {
      TotalsStep(s.trades, Closed(EntryAt(s.entries, k).value, d));
    }
  }

  /** As long as the ledgers agree, the trades' profits with their fees added back are exactly what the
      positions realized. */
  lemma {:induction false} ProfitsAgree(ds: seq<Deal>)
    requires NeverDusty(ds) && forall n :: 0 <= n < |ds| ==> TwoSided(ds[n])
    ensures ProfitsMatch(Run(ds))
  {
    if ds == [] {
      assert Sum({}, Realized(EMPTY_BOOK)) == 0.0;
    } else {
      var init := ds[..|ds| - 1];
      LockstepExactly(init);
      Prefixes(ds);
      ProfitsAgree(init);
      assert Run(ds) == Execute(Run(init), ds[|ds| - 1]);
      hide Run, Execute, AllAgree, ProfitsMatch, NeverDusty;
      ProfitStep(Run(init), ds[|ds| - 1]);
    }
  }
}
