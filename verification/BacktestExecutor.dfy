/** The backtest executor as an object: open entries that fills update in place, and the position manager. */
module BacktestExecutor {
  import opened Wrappers
  import opened Names
  import opened Sums
  import opened Position
  import opened PositionManager
  import opened Backtest
  import opened BacktestEquity

  class OpenEntry {
    const side: Side
    var entryPrice: real
    var qty: Lots
    var totalFee: real

    function Val(): Entry
      reads this
    {
      Entry(side, entryPrice, qty, totalFee)
    }

    constructor (side: Side, entryPrice: real, qty: Lots, totalFee: real)
      ensures Val() == Entry(side, entryPrice, qty, totalFee)
    {
      this.side, this.entryPrice, this.qty, this.totalFee := side, entryPrice, qty, totalFee;
    }

    method Add(d: Deal)
      modifies this
      ensures Val() == Added(old(Val()), d)
    {
      var totalQty := qty + d.qty;
      entryPrice := Averaged(entryPrice, qty, FillPrice(d), d.qty);
      qty := totalQty;
      totalFee := totalFee + d.fee;
    }
  }

  function EntryValues(entries: map<Key, OpenEntry>): map<Key, Entry>
    reads entries.Values
  {
    map k | k in entries :: entries[k].Val()
  }

  ghost predicate Separate(entries: map<Key, OpenEntry>) {
    forall j, k :: j in entries && k in entries && j != k ==> entries[j] != entries[k]
  }

  class Executor {
    const posMgr: Manager
    var openEntries: map<Key, OpenEntry>
    var trades: seq<Trade>
    var fees: real
    var realizedPnL: real

    ghost predicate Valid()
      reads this, posMgr
    {
      posMgr.Valid() && Separate(openEntries)
    }

    ghost function Entries(): map<Key, Entry>
      reads this, openEntries.Values
    {
      EntryValues(openEntries)
    }

    ghost function View(): Desk
      reads this, openEntries.Values, posMgr, posMgr.Records()
    {
      Desk(Entries(), trades, fees, realizedPnL, posMgr.View())
    }

    constructor ()
      ensures Valid() && View() == EMPTY
    {
      posMgr := new Manager();
      openEntries, trades, fees, realizedPnL := map[], [], 0.0, 0.0;
    }

    /** Replaces the entry of a key by a new one. */
    method Open(k: Key, side: Side, price: real, qty: Lots, fee: real)
      requires Separate(openEntries)
      modifies this`openEntries
      ensures Separate(openEntries) && Entries() == old(Entries())[k := Entry(side, price, qty, fee)]
      ensures fresh(openEntries.Values - old(openEntries.Values))
    {
      var entry := new OpenEntry(side, price, qty, fee);
      openEntries := openEntries[k := entry];
    }

    /** Takes quantity off an open entry, in place. */
    method Shrink(k: Key, remaining: Lots)
      requires Separate(openEntries) && k in openEntries
      modifies openEntries[k]
      ensures Entries() == old(Entries())[k := old(Entries())[k].(qty := remaining)]
    {
      ghost var before := Entries();
      openEntries[k].qty := remaining;
      assert forall j :: j in openEntries && j != k ==> openEntries[j].Val() == before[j];
    }

    /** Closes an entry, and opens what the fill has in excess of it the other way round. */
    method Flip(d: Deal, excess: real)
      requires Separate(openEntries) && d.key in openEntries
      modifies this`openEntries
      ensures Separate(openEntries) && fresh(openEntries.Values - old(openEntries.Values))
      ensures Entries() == SetEntry(old(Entries()), d.key,
        if excess > DUST then Some(Entry(d.side, FillPrice(d), excess, 0.0)) else None)
    {
      openEntries := openEntries - {d.key};
      if excess > DUST {
        Open(d.key, d.side, FillPrice(d), excess, 0.0);
      }
    }

    /** Takes the fill's quantity off an open entry on the other side. */
    method Reduce(d: Deal)
      requires Separate(openEntries) && Closes(EntryAt(Entries(), d.key), d)
      modifies this`openEntries, openEntries.Values
      ensures Separate(openEntries) && fresh(openEntries.Values - old(openEntries.Values))
      ensures Entries() == SetEntry(old(Entries()), d.key, Reduced(old(Entries())[d.key], d))
    {
      var entry := openEntries[d.key];
      assert Entries()[d.key] == entry.Val();
      hide Separate, EntryValues;
      var remaining: real := entry.qty - d.qty;
      if remaining <= DUST {
        Flip(d, d.qty - entry.qty);
      } else {
        Shrink(d.key, remaining);
      }
    }

    /** Takes a completed round trip into the trades, and what it leaves open into the entries. */
    method Close(d: Deal)
      requires Separate(openEntries) && Closes(EntryAt(Entries(), d.key), d)
      modifies this`openEntries, this`trades, this`realizedPnL, openEntries.Values
      ensures Separate(openEntries) && fresh(openEntries.Values - old(openEntries.Values))
      ensures Entries() == SetEntry(old(Entries()), d.key, Reduced(old(Entries())[d.key], d))
      ensures var t := Closed(old(Entries())[d.key], d);
        trades == old(trades) + [t] && realizedPnL == old(realizedPnL) + t.pnl
    {
      hide Gain, SetEntry, Reduced, Separate;
      var entry := openEntries[d.key];
      var closeQty := Min(d.qty, entry.qty);
      var totalFee := entry.totalFee + d.fee;
      var pnl := Gain(entry.side.Buy?, entry.entryPrice, FillPrice(d), closeQty) - totalFee;
      trades := trades + [Trade(d.key.market.symbol, entry.side, entry.entryPrice, FillPrice(d),
                                closeQty, pnl, totalFee, Position.Abs(d.slippage))];
      realizedPnL := realizedPnL + pnl;
      Reduce(d);
    }

    /** Keeps the record of round trips. */
    method RecordTradeEntry(d: Deal)
      requires Separate(openEntries)
      modifies this`openEntries, this`trades, this`realizedPnL, openEntries.Values
      ensures Separate(openEntries) && fresh(openEntries.Values - old(openEntries.Values))
      ensures var entry := EntryAt(old(Entries()), d.key);
        && Entries() == SetEntry(old(Entries()), d.key, NextEntry(entry, d))
        && trades == (if Closes(entry, d) then old(trades) + [Closed(entry.value, d)] else old(trades))
        && realizedPnL == (if Closes(entry, d) then old(realizedPnL) + Closed(entry.value, d).pnl else old(realizedPnL))
    {
      hide Closed, Added, Reduced;
      ghost var before := Entries();
      if d.key !in openEntries {
        Open(d.key, d.side, FillPrice(d), d.qty, d.fee);
        return;
      }
      var entry := openEntries[d.key];
      assert EntryAt(Entries(), d.key) == Some(entry.Val());
      if entry.side != d.side {
        Close(d);
      } else {
        entry.Add(d);
        assert forall k :: k in openEntries && k != d.key ==> openEntries[k].Val() == before[k];
      }
    }

    /** Tells the position manager of a fill. */
    method Settle(d: Deal)
      requires Valid()
      modifies this`fees, posMgr, posMgr.Records()
      ensures Valid() && fresh(posMgr.Records() - old(posMgr.Records()))
      ensures View() == old(View()).(fees := old(fees) + d.fee, book := BookFill(old(View()).book, FillOf(d)))
    {
      hide BookFill, FillOf, Separate, Manager.Valid, Manager.View;
      fees := fees + d.fee;
      posMgr.ApplyFill(FillOf(d));
    }

    /** The record of round trips leaves the position manager alone. */
    method RecordBeside(d: Deal)
      requires Valid()
      modifies this`openEntries, this`trades, this`realizedPnL, openEntries.Values, posMgr.Records()
      ensures Valid() && View() == Record(old(View()), d)
    {
      hide Closed, NextEntry, SetEntry, Separate, Manager.Valid, Manager.View;
      RecordTradeEntry(d);
      assert posMgr.View() == old(posMgr.View());
    }

    /** Fills a deal that has a reference price, in the position manager and in the record of trades. */
    method SimulateFill(d: Deal)
      requires Valid()
      modifies this, openEntries.Values, posMgr, posMgr.Records()
      ensures Valid()
      ensures View() == Execute(old(View()), d)
    {
      hide Record, BookFill, FillOf, Separate, Manager.Valid, Manager.View;
      if d.reference == 0.0 {
        return;
      }
      Settle(d);
      RecordBeside(d);
    }
  }

  /** Adds up open entries in whatever order they come: the sum is the same. */
  method ComputeUnrealizedPnL(entries: map<Key, Entry>, lastPrices: Prices) returns (unrealized: real)
    ensures unrealized == Sum(entries.Keys, Unrealized(entries, lastPrices))
  {
    hide Gained;
    unrealized := 0.0;
    var left := entries.Keys;
    ghost var f := Unrealized(entries, lastPrices);
    while left != {}
      invariant left <= entries.Keys
      invariant unrealized + Sum(left, f) == Sum(entries.Keys, f)
      decreases |left|
    {
      var k :| k in left;
      SumExtract(left, f, k);
      left := left - {k};
      if k.market.symbol in lastPrices {
        unrealized := unrealized + Gained(entries[k], lastPrices[k.market.symbol]);
      }
    }
  }
}
