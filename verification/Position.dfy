/** Position accounting (nexus/internal/execution/position.go): one position, and the book of per-strategy
    and netted positions. Amounts are exact. */
module Position {
  import opened Names
  import opened Sums

  datatype PosSide = Long | Short | Flat

  datatype Pos = Pos(side: PosSide, qty: real, avgEntry: real, realized: real, fees: real, trades: nat)

  const FLAT := Pos(Flat, 0.0, 0.0, 0.0, 0.0, 0)

  function Abs(x: real): real {
    if x < 0.0 then -x else x
  }

  function SideOf(qty: real): PosSide {
    if qty > 0.0 then Long else if qty < 0.0 then Short else Flat
  }

  function SameDirection(a: real, b: real): bool {
    (a > 0.0 && b > 0.0) || (a < 0.0 && b < 0.0)
  }

  /** The average price of `q` bought at `a` and `r` more at `b`. */
  function Averaged(a: real, q: real, b: real, r: real): real
    requires q + r != 0.0
  {
    (a * q + b * r) / (q + r)
  }

  /** The profit of closing part of a long or short holding. */
  function Gain(long: bool, entry: real, exit: real, closed: real): real {
    if long then (exit - entry) * closed else (entry - exit) * closed
  }

  /** One fill: it opens, adds, reduces, closes or flips. */
  function Apply(p: Pos, price: real, signed: real, fee: real): Pos {
    var newQty := p.qty + signed;
    var q := p.(fees := p.fees + fee, trades := p.trades + 1, qty := newQty, side := SideOf(newQty));
    if p.qty == 0.0 then q.(avgEntry := price)
    else if SameDirection(p.qty, signed) then
      q.(avgEntry := Averaged(p.avgEntry, Abs(p.qty), price, Abs(signed)))
    else
      var closed := if Abs(signed) < Abs(p.qty) then Abs(signed) else Abs(p.qty);
      q.(realized := p.realized + Gain(p.qty > 0.0, p.avgEntry, price, closed),
         avgEntry := if newQty == 0.0 then 0.0 else if SameDirection(newQty, p.qty) then p.avgEntry else price)
  }

  /** The entry price and the realized profit after a fill. A fill that opens has its own price as entry price; one
      that adds moves it to the weighted average, and neither realizes anything. A fill against the position
      realizes the difference to the entry price on what it closes; what it leaves keeps its entry price, what it
      flips has the fill's, and nothing has none. */
  lemma ApplyIs(p: Pos, price: real, signed: real, fee: real)
    ensures var q := Apply(p, price, signed, fee);
      && (p.qty == 0.0 ==> q.avgEntry == price && q.realized == p.realized)
      && (SameDirection(p.qty, signed) ==>
            q.realized == p.realized && q.avgEntry * (p.qty + signed) == p.avgEntry * p.qty + price * signed)
      && (p.qty != 0.0 && !SameDirection(p.qty, signed) && Abs(signed) < Abs(p.qty) ==>
            q.realized == p.realized - signed * (price - p.avgEntry) && q.avgEntry == p.avgEntry)
      && (p.qty != 0.0 && !SameDirection(p.qty, signed) && Abs(signed) >= Abs(p.qty) ==>
            && q.realized == p.realized + p.qty * (price - p.avgEntry)
            && q.avgEntry == if Abs(signed) == Abs(p.qty) then 0.0 else price)
  {
    if SameDirection(p.qty, signed) {
      AverageIsCost(p.avgEntry, Abs(p.qty), price, Abs(signed));
    }
  }

  // ---------------------------------------------------------------------------
  // The accounting identity
  // ---------------------------------------------------------------------------

  /** What a position has made in cash: the realized profit less the cost of what is still held. */
  function Cash(p: Pos): real {
    p.realized - p.qty * p.avgEntry
  }

  lemma AverageIsCost(a: real, q: real, b: real, r: real)
    requires q + r != 0.0
    ensures (q + r) * Averaged(a, q, b, r) == q * a + r * b
  {
  }

  /** A fill moves exactly its notional value, however it meets the position. */
  lemma CashStep(p: Pos, price: real, signed: real, fee: real)
    ensures Cash(Apply(p, price, signed, fee)) == Cash(p) - signed * price
  {
    if p.qty == 0.0 {
    } else if SameDirection(p.qty, signed) {
      AverageIsCost(p.avgEntry, Abs(p.qty), price, Abs(signed));
      var avg := Apply(p, price, signed, fee).avgEntry;
      if p.qty > 0.0 {
        assert (p.qty + signed) * avg == p.qty * p.avgEntry + signed * price;
      } else {
        assert (-p.qty - signed) * avg == -p.qty * p.avgEntry - signed * price;
      }
    } else {
      CashOpposite(p, price, signed, fee);
    }
  }

  lemma CashOpposite(p: Pos, price: real, signed: real, fee: real)
    requires p.qty != 0.0 && !SameDirection(p.qty, signed)
    ensures Cash(Apply(p, price, signed, fee)) == Cash(p) - signed * price
  {
    var q := Apply(p, price, signed, fee);
    if p.qty > 0.0 {
      if -signed < p.qty {
        assert q.realized == p.realized + (price - p.avgEntry) * (-signed);
        assert q.qty * q.avgEntry == (p.qty + signed) * p.avgEntry;
      } else {
        assert q.realized == p.realized + (price - p.avgEntry) * p.qty;
        assert q.qty * q.avgEntry == (p.qty + signed) * price;
      }
    } else {
      if signed < -p.qty {
        assert q.realized == p.realized + (p.avgEntry - price) * signed;
        assert q.qty * q.avgEntry == (p.qty + signed) * p.avgEntry;
      } else {
        assert q.realized == p.realized + (p.avgEntry - price) * (-p.qty);
        assert q.qty * q.avgEntry == (p.qty + signed) * price;
      }
    }
  }

  // ---------------------------------------------------------------------------
  // Fills
  // ---------------------------------------------------------------------------

  datatype Fill = Fill(strategy: Name, exchange: Name, symbol: Name, side: Side, qty: real, price: real, fee: real)

  /** Everything but a sell counts as a purchase. */
  function Signed(f: Fill): real {
    if f.side.Sell? then -f.qty else f.qty
  }

  /** What the fill moves at its price. */
  function Value(f: Fill): real {
    Signed(f) * f.price
  }

  function ApplyFill(p: Pos, f: Fill): Pos {
    Apply(p, f.price, Signed(f), f.fee)
  }

  function RunFills(fs: seq<Fill>): Pos {
    if fs == [] then FLAT else ApplyFill(RunFills(fs[..|fs| - 1]), fs[|fs| - 1])
  }

  function NetQty(fs: seq<Fill>): real {
    if fs == [] then 0.0 else NetQty(fs[..|fs| - 1]) + Signed(fs[|fs| - 1])
  }

  function NetCash(fs: seq<Fill>): real {
    if fs == [] then 0.0 else NetCash(fs[..|fs| - 1]) - Value(fs[|fs| - 1])
  }

  /** What a fill changes whatever the position. */
  lemma FillStep(p: Pos, f: Fill)
    ensures var q := ApplyFill(p, f);
      && q.qty == p.qty + Signed(f) && q.side == SideOf(q.qty)
      && q.fees == p.fees + f.fee && q.trades == p.trades + 1
      && Cash(q) == Cash(p) - Value(f)
  {
    CashStep(p, f.price, Signed(f), f.fee);
    hide Cash;
  }

  lemma {:induction false} RunCash(fs: seq<Fill>)
    ensures var p := RunFills(fs);
      p.qty == NetQty(fs) && Cash(p) == NetCash(fs) && p.side == SideOf(p.qty)
  {
    FlatCash();
    hide ApplyFill, Cash, SideOf, Value, Signed;
    if fs == [] {
    } else {
      RunCash(fs[..|fs| - 1]);
      FillStep(RunFills(fs[..|fs| - 1]), fs[|fs| - 1]);
    }
  }

  /** After any fills: the quantity is their signed sum, and realized profit is net cash plus the entry
      value of what is held. The side always says the sign of the quantity. */
  lemma AccountingIdentity(fs: seq<Fill>)
    ensures var p := RunFills(fs);
      && p.qty == NetQty(fs)
      && p.realized == NetCash(fs) + p.qty * p.avgEntry
      && p.side == SideOf(p.qty)
  {
    RunCash(fs);
    hide RunFills, NetQty, NetCash;
  }

  lemma {:induction false} NetOfAppend(fs: seq<Fill>, gs: seq<Fill>)
    ensures NetQty(fs + gs) == NetQty(fs) + NetQty(gs)
    ensures NetCash(fs + gs) == NetCash(fs) + NetCash(gs)
  {
    if gs == [] {
      assert fs + gs == fs;
    } else {
      var init := gs[..|gs| - 1];
      NetOfAppend(fs, init);
      assert (fs + gs)[..|fs + gs| - 1] == fs + init;
    }
  }

  lemma NetOfOne(f: Fill)
    ensures NetQty([f]) == Signed(f) && NetCash([f]) == -Value(f)
  {
    assert [f][..0] == [];
  }

  lemma WithoutOne(fs: seq<Fill>, gs: seq<Fill>) returns (a: seq<Fill>, b: seq<Fill>)
    requires fs != [] && multiset(fs) == multiset(gs)
    ensures gs == a + [fs[|fs| - 1]] + b
    ensures multiset(fs[..|fs| - 1]) == multiset(a + b)
  {
    var f := fs[|fs| - 1];
    assert fs == fs[..|fs| - 1] + [f];
    assert f in multiset(fs);
    assert f in gs;
    var i :| 0 <= i < |gs| && gs[i] == f;
    a, b := gs[..i], gs[i + 1..];
    assert gs == a + [f] + b;
    assert multiset(fs) == multiset(fs[..|fs| - 1]) + multiset{f};
    assert multiset(gs) == multiset(a) + multiset{f} + multiset(b);
    assert multiset(a + b) == multiset(a) + multiset(b);
    assert multiset(fs[..|fs| - 1]) == multiset(fs) - multiset{f};
  }

  lemma {:induction false} NetIgnoresOrder(fs: seq<Fill>, gs: seq<Fill>)
    requires multiset(fs) == multiset(gs)
    ensures NetQty(fs) == NetQty(gs) && NetCash(fs) == NetCash(gs)
    decreases |fs|
  {
    hide Value, Signed;
    if fs == [] {
      assert |multiset(gs)| == |gs|;
    } else {
      var init, f := fs[..|fs| - 1], fs[|fs| - 1];
      var a, b := WithoutOne(fs, gs);
      NetIgnoresOrder(init, a + b);
      assert fs == init + [f];
      NetOfOne(f);
      NetOfAppend(init, [f]);
      NetOfAppend(a, [f]);
      NetOfAppend(a + [f], b);
      NetOfAppend(a, b);
    }
  }

  /** Whatever order the fills come in, the position ends with the same quantity and the same cash. */
  lemma OrderDoesNotMatter(fs: seq<Fill>, gs: seq<Fill>)
    requires multiset(fs) == multiset(gs)
    ensures RunFills(fs).qty == RunFills(gs).qty
    ensures Cash(RunFills(fs)) == Cash(RunFills(gs))
  {
    hide RunFills, NetQty, NetCash, Cash;
    RunCash(fs);
    RunCash(gs);
    NetIgnoresOrder(fs, gs);
  }

  // ---------------------------------------------------------------------------
  // The book
  // ---------------------------------------------------------------------------

  datatype Market = Market(exchange: Name, symbol: Name)

  datatype Key = Key(strategy: Name, market: Market)

  datatype Book = Book(positions: map<Key, Pos>, netted: map<Market, Pos>)

  const EMPTY_BOOK := Book(map[], map[])

  function KeyOf(f: Fill): Key {
    Key(f.strategy, Market(f.exchange, f.symbol))
  }

  function PosAt<K>(m: map<K, Pos>, k: K): Pos {
    if k in m then m[k] else FLAT
  }

  function BookFill(b: Book, f: Fill): Book {
    var k := KeyOf(f);
    Book(b.positions[k := ApplyFill(PosAt(b.positions, k), f)],
         b.netted[k.market := ApplyFill(PosAt(b.netted, k.market), f)])
  }

  function BookRun(fs: seq<Fill>): Book {
    if fs == [] then EMPTY_BOOK else BookFill(BookRun(fs[..|fs| - 1]), fs[|fs| - 1])
  }

  /** The fills of one strategy at one market. */
  function Own(fs: seq<Fill>, k: Key): seq<Fill> {
    if fs == [] then []
    else
      var f := fs[|fs| - 1];
      Own(fs[..|fs| - 1], k) + if f.strategy == k.strategy && f.exchange == k.market.exchange
                                  && f.symbol == k.market.symbol then [f] else []
  }

  /** The fills at one market. */
  function AllAt(fs: seq<Fill>, m: Market): seq<Fill> {
    if fs == [] then []
    else
      var f := fs[|fs| - 1];
      AllAt(fs[..|fs| - 1], m) + if f.exchange == m.exchange && f.symbol == m.symbol then [f] else []
  }

  lemma RunOfMore(fs: seq<Fill>, f: Fill)
    ensures RunFills(fs + [f]) == ApplyFill(RunFills(fs), f)
  {
    assert (fs + [f])[..|fs|] == fs;
  }

  /** Every position of the book is that of its own fills, as if there were no others; and every netted position
      that of all the fills of its market, in the order they came. */
  lemma {:induction false} BookIsOwnFills(fs: seq<Fill>, k: Key)
    ensures PosAt(BookRun(fs).positions, k) == RunFills(Own(fs, k))
    ensures PosAt(BookRun(fs).netted, k.market) == RunFills(AllAt(fs, k.market))
  {
    if fs != [] {
      var init, f := fs[..|fs| - 1], fs[|fs| - 1];
      BookIsOwnFills(init, k);
      RunOfMore(Own(init, k), f);
      RunOfMore(AllAt(init, k.market), f);
      assert Own(init, k) + [] == Own(init, k) && AllAt(init, k.market) + [] == AllAt(init, k.market);
      hide ApplyFill, RunFills;
    }
  }

  /** A measure of the positions of one market, over all strategies. */
  function Of(positions: map<Key, Pos>, m: Market, measure: Pos -> real): Key -> real {
    (k: Key) => if k in positions && k.market == m then measure(positions[k]) else 0.0
  }

  ghost predicate Nets(b: Book, m: Market, measure: Pos -> real) {
    measure(PosAt(b.netted, m)) == Sum(b.positions.Keys, Of(b.positions, m, measure))
  }

  /** A measure that every fill changes by an amount of its own, whatever the position. */
  ghost predicate Additive(measure: Pos -> real, change: Fill -> real) {
    measure(FLAT) == 0.0 && forall p, f :: measure(ApplyFill(p, f)) == measure(p) + change(f)
  }

  lemma NetsStep(b: Book, f: Fill, m: Market, measure: Pos -> real, change: Fill -> real)
    requires Additive(measure, change) && Nets(b, m, measure)
    ensures Nets(BookFill(b, f), m, measure)
  {
    var k, b' := KeyOf(f), BookFill(b, f);
    var before, after := Of(b.positions, m, measure), Of(b'.positions, m, measure);
    var keys := b.positions.Keys;
    assert b'.positions.Keys == keys + {k};
    assert after(k) == before(k) + if k.market == m then change(f) else 0.0;
    if k in keys {
      assert keys + {k} == keys;
      SumChange(keys, before, after, k);
    } else {
      SumInsert(keys, after, k);
      SumSame(keys, before, after);
    }
  }

  lemma {:induction false} NetsRun(fs: seq<Fill>, m: Market, measure: Pos -> real, change: Fill -> real)
    requires Additive(measure, change)
    ensures Nets(BookRun(fs), m, measure)
  {
    if fs == [] {
    } else {
      NetsRun(fs[..|fs| - 1], m, measure, change);
      NetsStep(BookRun(fs[..|fs| - 1]), fs[|fs| - 1], m, measure, change);
    }
  }

  lemma FlatCash()
    ensures Cash(FLAT) == 0.0 && FLAT.side == SideOf(0.0)
  {
  }

  /** After any fills, each netted position's quantity, fees, number of trades and cash are the sums of
      its market's positions over all strategies. */
  lemma NettingConserves(fs: seq<Fill>, m: Market)
    ensures Nets(BookRun(fs), m, (p: Pos) => p.qty)
    ensures Nets(BookRun(fs), m, (p: Pos) => p.fees)
    ensures Nets(BookRun(fs), m, (p: Pos) => p.trades as real)
    ensures Nets(BookRun(fs), m, (p: Pos) => Cash(p))
  {
    FlatCash();
    hide ApplyFill, BookRun, Nets, Cash, Value, Signed;
    forall p, f: Fill
      ensures var q := ApplyFill(p, f);
        && q.qty == p.qty + Signed(f) && q.fees == p.fees + f.fee && q.trades == p.trades + 1
        && Cash(q) == Cash(p) - Value(f)
    {
      FillStep(p, f);
    }
    NetsRun(fs, m, (p: Pos) => p.qty, (f: Fill) => Signed(f));
    NetsRun(fs, m, (p: Pos) => p.fees, (f: Fill) => f.fee);
    NetsRun(fs, m, (p: Pos) => p.trades as real, (f: Fill) => 1.0);
    NetsRun(fs, m, (p: Pos) => Cash(p), (f: Fill) => -Value(f));
  }
}
