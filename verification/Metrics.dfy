/** Performance figures of a list of trades (nexus/internal/backtest/metrics.go): the equity curve, its
    largest fall, the rates of single trades, and the totals. */
module Metrics {
  import opened Backtest

  function Net(t: Trade): real {
    t.pnl - t.fees - t.slippage
  }

  function TotalSlippage(trades: seq<Trade>): real {
    if trades == [] then 0.0 else TotalSlippage(trades[..|trades| - 1]) + trades[|trades| - 1].slippage
  }

  /** The net profit as the totals give it. */
  function NetPnL(trades: seq<Trade>): real {
    TotalPnL(trades) - TotalFees(trades) - TotalSlippage(trades)
  }

  lemma NetOfMore(trades: seq<Trade>, i: nat)
    requires i < |trades|
    ensures NetPnL(trades[..i + 1]) == NetPnL(trades[..i]) + Net(trades[i])
  {
    assert trades[..i + 1][..i] == trades[..i];
  }

  // ---------------------------------------------------------------------------
  // The largest fall
  // ---------------------------------------------------------------------------

  /** A fall from a point to a later one, or to itself. */
  ghost predicate Falls(equity: seq<real>, fall: real) {
    exists i, j :: FallBetween(equity, i, j, fall)
  }

  predicate FallBetween(equity: seq<real>, i: int, j: int, fall: real) {
    0 <= i <= j < |equity| && fall == equity[i] - equity[j]
  }

  /** The highest point so far is at `i`. */
  predicate PeakAt(equity: seq<real>, i: int, j: int) {
    0 <= i <= j < |equity| && forall m :: 0 <= m <= j ==> equity[m] <= equity[i]
  }

  function Fraction(fall: real, peak: real): real
    requires peak > 0.0
  {
    fall / peak
  }

  lemma FractionIs(fall: real, peak: real)
    requires peak > 0.0
    ensures Fraction(fall, peak) * peak == fall
  {
  }

  /** Falls from a positive highest point so far, as fractions of it. */
  ghost predicate FallsByFraction(equity: seq<real>, pct: real) {
    exists i, j :: PeakAt(equity, i, j) && equity[i] > 0.0 && pct == Fraction(equity[i] - equity[j], equity[i])
  }

  ghost predicate NoFallBeyond(equity: seq<real>, n: nat, fall: real)
    requires n <= |equity|
  {
    forall i, j :: 0 <= i <= j < n ==> equity[i] - equity[j] <= fall
  }

  ghost predicate NoFractionBeyond(equity: seq<real>, n: nat, pct: real)
    requires n <= |equity|
  {
    forall i, j :: PeakAt(equity, i, j) && j < n && equity[i] > 0.0 ==>
      Fraction(equity[i] - equity[j], equity[i]) <= pct
  }

  /** The highest of the first `n` points. */
  predicate TopOf(equity: seq<real>, top: int, n: nat) {
    0 <= top < |equity| && if n == 0 then top == 0 else PeakAt(equity, top, n - 1)
  }

  lemma TopMoves(equity: seq<real>, top: int, n: nat)
    requires n < |equity| && TopOf(equity, top, n)
    ensures var top' := if equity[n] > equity[top] then n else top;
      TopOf(equity, top', n + 1) && Falls(equity, equity[top'] - equity[n])
      && equity[top'] >= equity[n]
  {
    var top' := if equity[n] > equity[top] then n else top;
    assert FallBetween(equity, top', n, equity[top'] - equity[n]);
  }

  lemma FallsMore(equity: seq<real>, top: int, n: nat, fall: real)
    requires n < |equity| && TopOf(equity, top, n + 1) && NoFallBeyond(equity, n, fall)
    ensures NoFallBeyond(equity, n + 1, if equity[top] - equity[n] > fall then equity[top] - equity[n] else fall)
  {
  }

  /** A fraction is looked at only below a positive peak. */
  function WorseOf(pct: real, fall: real, peak: real): real {
    if peak > 0.0 && Fraction(fall, peak) > pct then Fraction(fall, peak) else pct
  }

  lemma FractionsMore(equity: seq<real>, top: int, n: nat, pct: real)
    requires n < |equity| && TopOf(equity, top, n + 1) && NoFractionBeyond(equity, n, pct)
    ensures NoFractionBeyond(equity, n + 1, WorseOf(pct, equity[top] - equity[n], equity[top]))
    ensures WorseOf(pct, equity[top] - equity[n], equity[top]) == pct
      || FallsByFraction(equity, WorseOf(pct, equity[top] - equity[n], equity[top]))
  {
    hide Fraction;
    forall i, j | PeakAt(equity, i, j) && j < n + 1 && equity[i] > 0.0
      ensures Fraction(equity[i] - equity[j], equity[i]) <= WorseOf(pct, equity[top] - equity[n], equity[top])
    {
      if j == n {
        assert equity[i] == equity[top];
      }
    }
  }

  lemma NothingFalls(equity: seq<real>)
    requires equity != []
    ensures Falls(equity, 0.0) && NoFallBeyond(equity, 0, 0.0) && NoFractionBeyond(equity, 0, 0.0)
  {
    assert FallBetween(equity, 0, 0, 0.0);
  }

  /** One pass finds the largest fall between any two points in time, and the largest fraction lost of a
      positive peak. */
  method MaxDrawdownFromEquity(equity: seq<real>) returns (drawdown: real, drawdownPct: real)
    ensures |equity| < 2 ==> drawdown == 0.0 && drawdownPct == 0.0
    ensures |equity| >= 2 ==> Falls(equity, drawdown) && NoFallBeyond(equity, |equity|, drawdown)
    ensures drawdownPct >= 0.0 && (drawdownPct != 0.0 ==> FallsByFraction(equity, drawdownPct))
    ensures |equity| >= 2 ==> NoFractionBeyond(equity, |equity|, drawdownPct)
  {
    hide Fraction, Falls, FallsByFraction, NoFallBeyond, NoFractionBeyond, PeakAt;
    if |equity| < 2 {
      return 0.0, 0.0;
    }
    NothingFalls(equity);
    var peak := equity[0];
    var maxDD, maxDDPct := 0.0, 0.0;
    ghost var top := 0;
    for n := 0 to |equity|
      invariant TopOf(equity, top, n) && peak == equity[top]
      invariant Falls(equity, maxDD) && NoFallBeyond(equity, n, maxDD)
      invariant maxDDPct >= 0.0 && (maxDDPct != 0.0 ==> FallsByFraction(equity, maxDDPct))
      invariant NoFractionBeyond(equity, n, maxDDPct)
    {
      var eq := equity[n];
      TopMoves(equity, top, n);
      if eq > peak {
        peak := eq;
        top := n;
      }
      FallsMore(equity, top, n, maxDD);
      FractionsMore(equity, top, n, maxDDPct);
      var dd := peak - eq;
      if dd > maxDD {
        maxDD := dd;
      }
      if peak > 0.0 {
        var ddPct := Fraction(dd, peak);
        if ddPct > maxDDPct {
          maxDDPct := ddPct;
        }
      }
    }
    return maxDD, maxDDPct;
  }

  /** The highest of the points up to `j`. */
  lemma {:induction false} SomePeak(equity: seq<real>, j: nat) returns (p: nat)
    requires j < |equity|
    ensures PeakAt(equity, p, j)
  {
    if j == 0 {
      p := 0;
    } else {
      p := SomePeak(equity, j - 1);
      if equity[j] > equity[p] {
        p := j;
      }
    }
  }

  /** What is left, as a fraction. */
  lemma Rest(end: real, peak: real) returns (rest: real)
    requires peak > 0.0
    ensures Fraction(peak - end, peak) == 1.0 - rest && rest * peak == end
  {
    var lost := Fraction(peak - end, peak);
    rest := 1.0 - lost;
    assert lost * peak == peak - end;
  }

  /** Two fractions of one rest: the larger whole has the smaller, unless the rest is below zero. */
  lemma RestOfMore(u: real, low: real, v: real, high: real, end: real)
    requires 0.0 < low <= high && u * low == end && v * high == end
    ensures v <= u <==> end >= 0.0 || low == high
  {
    assert (u - v) * high == u * (high - low);
    if end >= 0.0 {
      assert u >= 0.0;
      assert v <= u;
    } else {
      assert u < 0.0;
      if low < high {
        assert u * (high - low) < 0.0;
        assert u < v;
      } else {
        assert (u - v) * high == 0.0;
      }
    }
  }

  lemma HigherPeakLosesMore(low: real, high: real, end: real)
    requires 0.0 < low <= high
    ensures Fraction(low - end, low) <= Fraction(high - end, high) <==> end >= 0.0 || low == high
  {
    var u := Rest(end, low);
    var v := Rest(end, high);
    RestOfMore(u, low, v, high, end);
  }

  /** A fall from any positive point is at most as large a fraction of it as the fall from the running peak is
      of the peak, if and only if it does not end below zero or the point is as high as the peak. */
  lemma FractionOfAnyPoint(equity: seq<real>, i: nat, p: nat, j: nat)
    requires i <= j < |equity| && equity[i] > 0.0 && PeakAt(equity, p, j)
    ensures Fraction(equity[i] - equity[j], equity[i]) <= Fraction(equity[p] - equity[j], equity[p]) <==>
      equity[j] >= 0.0 || equity[i] == equity[p]
  {
    hide Fraction;
    HigherPeakLosesMore(equity[i], equity[p], equity[j]);
  }

  /** So on a curve that never goes below zero no fall is a larger fraction than the one found. */
  lemma FractionsFound(equity: seq<real>, pct: real, i: nat, j: nat)
    requires NoFractionBeyond(equity, |equity|, pct)
    requires i <= j < |equity| && equity[i] > 0.0 && equity[j] >= 0.0
    ensures Fraction(equity[i] - equity[j], equity[i]) <= pct
  {
    var p := SomePeak(equity, j);
    hide Fraction;
    FractionOfAnyPoint(equity, i, p, j);
  }

  /** Below zero it can be: this curve falls by 600% of its first point, and by 150% of its peak. */
  lemma BelowZero()
    ensures var equity := [1.0, 10.0, -5.0];
      NoFractionBeyond(equity, 3, 1.5) && Fraction(equity[0] - equity[2], equity[0]) == 6.0
  {
    var equity := [1.0, 10.0, -5.0];
    forall i, j | PeakAt(equity, i, j) && j < 3 && equity[i] > 0.0
      ensures Fraction(equity[i] - equity[j], equity[i]) <= 1.5
    {
      assert equity[0] <= equity[i];
      assert j >= 1 ==> equity[1] <= equity[i];
      assert i <= 1;
    }
  }

  // ---------------------------------------------------------------------------
  // The equity curve and the returns
  // ---------------------------------------------------------------------------

  /** The curve starts at the initial capital and is, after each trade, the capital and the net profit of the
      trades so far. */
  predicate IsCurve(equity: seq<real>, trades: seq<Trade>, initial: real) {
    |equity| == |trades| + 1 && forall i :: 0 <= i <= |trades| ==> equity[i] == initial + NetPnL(trades[..i])
  }

  method BuildEquityCurve(trades: seq<Trade>, initialCapital: real) returns (equity: seq<real>)
    ensures IsCurve(equity, trades, initialCapital)
  {
    hide NetPnL, Net;
    var curve := new real[|trades| + 1];
    curve[0] := initialCapital;
    NothingNet(trades);
    for i := 0 to |trades|
      invariant forall j :: 0 <= j <= i ==> curve[j] == initialCapital + NetPnL(trades[..j])
    {
      NetOfMore(trades, i);
      curve[i + 1] := curve[i] + Net(trades[i]);
    }
    return curve[..];
  }

  lemma NothingNet(trades: seq<Trade>)
    ensures NetPnL(trades[..0]) == 0.0
  {
  }

  /** The fraction of the running capital that each trade made, while there is capital. */
  predicate AreReturns(rates: seq<real>, trades: seq<Trade>, initial: real) {
    |rates| == |trades| &&
    forall i :: 0 <= i < |trades| ==> rates[i] == ReturnOn(initial + NetPnL(trades[..i]), Net(trades[i]))
  }

  function ReturnOn(capital: real, net: real): real {
    if capital > 0.0 then net / capital else 0.0
  }

  method TradeReturns(trades: seq<Trade>, initialCapital: real) returns (rates: seq<real>)
    ensures AreReturns(rates, trades, initialCapital)
  {
    hide NetPnL, Net, ReturnOn;
    if |trades| == 0 {
      return [];
    }
    var result := new real[|trades|];
    var capital := initialCapital;
    NothingNet(trades);
    for i := 0 to |trades|
      invariant capital == initialCapital + NetPnL(trades[..i])
      invariant forall j :: 0 <= j < i ==> result[j] == ReturnOn(initialCapital + NetPnL(trades[..j]), Net(trades[j]))
    {
      NetOfMore(trades, i);
      result[i] := ReturnOn(capital, Net(trades[i]));
      capital := capital + Net(trades[i]);
    }
    return result[..];
  }

  /** A return, times the capital that it was made on, is what its trade made after fees and slippage; on no capital,
      or less, it is 0. */
  lemma ReturnsAre(rates: seq<real>, trades: seq<Trade>, initial: real, i: nat)
    requires AreReturns(rates, trades, initial) && i < |trades|
    ensures var capital, t := initial + NetPnL(trades[..i]), trades[i];
      && (capital > 0.0 ==> rates[i] * capital == t.pnl - t.fees - t.slippage)
      && (capital <= 0.0 ==> rates[i] == 0.0)
  {
    hide NetPnL;
  }

  /** The returns compounded. */
  function Compounded(rates: seq<real>): real {
    if rates == [] then 1.0 else Compounded(rates[..|rates| - 1]) * (1.0 + rates[|rates| - 1])
  }

  lemma Grow(x: real, initial: real, capital: real, net: real)
    requires x * initial == capital && capital > 0.0
    ensures x * (1.0 + ReturnOn(capital, net)) * initial == capital + net
  {
    var r := ReturnOn(capital, net);
    assert capital * r == net;
    assert x * (1.0 + r) * initial == x * initial + (x * initial) * r;
  }

  lemma {:induction false} CompoundsTo(rates: seq<real>, trades: seq<Trade>, initial: real, n: nat)
    requires AreReturns(rates, trades, initial) && n <= |trades|
    requires forall i :: 0 <= i < n ==> initial + NetPnL(trades[..i]) > 0.0
    ensures Compounded(rates[..n]) * initial == initial + NetPnL(trades[..n])
  {
    hide NetPnL, Net, ReturnOn;
    NothingNet(trades);
    if n > 0 {
      CompoundsTo(rates, trades, initial, n - 1);
      NetOfMore(trades, n - 1);
      assert rates[..n][..n - 1] == rates[..n - 1];
      Grow(Compounded(rates[..n - 1]), initial, initial + NetPnL(trades[..n - 1]), Net(trades[n - 1]));
    }
  }

  lemma Growth(rates: seq<real>, trades: seq<Trade>, initial: real)
    requires AreReturns(rates, trades, initial) && initial > 0.0
    requires forall i :: 0 <= i < |trades| ==> initial + NetPnL(trades[..i]) > 0.0
    ensures Compounded(rates) == (initial + NetPnL(trades)) / initial
  {
    hide NetPnL, Compounded;
    CompoundsTo(rates, trades, initial, |trades|);
    hide AreReturns;
    assert trades[..|trades|] == trades && rates[..|trades|] == rates;
    Divided(Compounded(rates), initial, initial + NetPnL(trades));
  }

  lemma Divided(x: real, y: real, z: real)
    requires y > 0.0 && x * y == z
    ensures x == z / y
  {
  }

  /** The curve, the returns and the totals are three separate loops over the trades. The curve ends at the
      initial capital and the net profit of the totals; and if it is positive up to its last step, the
      compounded returns are the growth from its first point to its last. */
  lemma CurveReturnsAndTotals(trades: seq<Trade>, initial: real, equity: seq<real>, rates: seq<real>)
    requires IsCurve(equity, trades, initial) && AreReturns(rates, trades, initial)
    ensures equity[0] == initial && equity[|trades|] == initial + NetPnL(trades)
    ensures (initial > 0.0 && forall i :: 0 <= i < |trades| ==> equity[i] > 0.0) ==>
      Compounded(rates) == equity[|trades|] / equity[0]
  {
    NothingNet(trades);
    assert trades[..|trades|] == trades;
    hide NetPnL, AreReturns, Compounded;
    if initial > 0.0 && forall i :: 0 <= i < |trades| ==> equity[i] > 0.0 {
      forall i | 0 <= i < |trades| ensures initial + NetPnL(trades[..i]) > 0.0 {
        assert equity[i] > 0.0;
      }
      Growth(rates, trades, initial);
    }
  }

  // ---------------------------------------------------------------------------
  // The totals
  // ---------------------------------------------------------------------------

  datatype Totals = Totals(
    pnl: real, fees: real, slippage: real, wins: nat,
    grossProfit: real, grossLoss: real, largestWin: real, largestLoss: real)

  ghost predicate Largest(trades: seq<Trade>, win: real) {
    (win == 0.0 || exists i :: 0 <= i < |trades| && win == Net(trades[i]))
    && win >= 0.0 && forall i :: 0 <= i < |trades| ==> Net(trades[i]) <= win
  }

  ghost predicate Smallest(trades: seq<Trade>, loss: real) {
    (loss == 0.0 || exists i :: 0 <= i < |trades| && loss == Net(trades[i]))
    && loss <= 0.0 && forall i :: 0 <= i < |trades| ==> Net(trades[i]) >= loss
  }

  lemma LargestOfMore(trades: seq<Trade>, n: nat, win: real, loss: real)
    requires n < |trades| && Largest(trades[..n], win) && Smallest(trades[..n], loss)
    ensures Largest(trades[..n + 1], if Net(trades[n]) > win then Net(trades[n]) else win)
    ensures Smallest(trades[..n + 1], if Net(trades[n]) < loss then Net(trades[n]) else loss)
  {
    hide Net;
    var more := trades[..n + 1];
    assert more[n] == trades[n] && forall i :: 0 <= i < n ==> more[i] == trades[..n][i];
  }

  /** What the trades that won come to, after fees and slippage. */
  function Won(trades: seq<Trade>): real {
    if trades == [] then 0.0
    else
      var t := trades[|trades| - 1];
      var net := t.pnl - t.fees - t.slippage;
      Won(trades[..|trades| - 1]) + if net > 0.0 then net else 0.0
  }

  /** What the trades that lost come to, as a positive amount. */
  function Lost(trades: seq<Trade>): real {
    if trades == [] then 0.0
    else
      var t := trades[|trades| - 1];
      var net := t.pnl - t.fees - t.slippage;
      Lost(trades[..|trades| - 1]) + if net < 0.0 then -net else 0.0
  }

  /** The numbers of the winning trades among the first `n`. */
  function Winners(trades: seq<Trade>, n: nat): set<int>
    requires n <= |trades|
  {
    set i | 0 <= i < n && Net(trades[i]) > 0.0
  }

  lemma WinnersOfMore(trades: seq<Trade>, n: nat)
    requires n < |trades|
    ensures |Winners(trades, n + 1)| == |Winners(trades, n)| + if Net(trades[n]) > 0.0 then 1 else 0
  {
    hide Net;
    assert Winners(trades, n + 1) == Winners(trades, n) + if Net(trades[n]) > 0.0 then {n} else {};
  }

  lemma TotalsOfMore(trades: seq<Trade>, n: nat)
    requires n < |trades|
    ensures var (init, more, t) := (trades[..n], trades[..n + 1], trades[n]);
      var net := t.pnl - t.fees - t.slippage;
      && TotalPnL(more) == TotalPnL(init) + t.pnl && TotalFees(more) == TotalFees(init) + t.fees
      && TotalSlippage(more) == TotalSlippage(init) + t.slippage
      && Won(more) == Won(init) + (if net > 0.0 then net else 0.0)
      && Lost(more) == Lost(init) + (if net < 0.0 then -net else 0.0)
  {
    assert trades[..n + 1][..n] == trades[..n];
  }

  /** One loop over the trades: its gross profit is what the winning trades come to and its gross loss what the
      losing ones do, and they differ by exactly the net profit of its totals. */
  method SumTrades(trades: seq<Trade>) returns (t: Totals)
    ensures t.pnl == TotalPnL(trades) && t.fees == TotalFees(trades) && t.slippage == TotalSlippage(trades)
    ensures t.grossProfit == Won(trades) && t.grossLoss == Lost(trades)
    ensures t.grossProfit - t.grossLoss == NetPnL(trades) && t.grossProfit >= 0.0 && t.grossLoss >= 0.0
    ensures t.wins == |Winners(trades, |trades|)| <= |trades|
    ensures Largest(trades, t.largestWin) && Smallest(trades, t.largestLoss)
  {
    t := Totals(0.0, 0.0, 0.0, 0, 0.0, 0.0, 0.0, 0.0);
    assert Winners(trades, 0) == {};
    for n := 0 to |trades|
      invariant t.pnl == TotalPnL(trades[..n]) && t.fees == TotalFees(trades[..n])
      invariant t.slippage == TotalSlippage(trades[..n])
      invariant t.grossProfit == Won(trades[..n]) && t.grossLoss == Lost(trades[..n])
      invariant t.grossProfit - t.grossLoss == NetPnL(trades[..n]) && t.grossProfit >= 0.0 && t.grossLoss >= 0.0
      invariant t.wins == |Winners(trades, n)| <= n
      invariant Largest(trades[..n], t.largestWin) && Smallest(trades[..n], t.largestLoss)
    {
      var tr := trades[n];
      NetOfMore(trades, n);
      TotalsOfMore(trades, n);
      WinnersOfMore(trades, n);
      LargestOfMore(trades, n, t.largestWin, t.largestLoss);
      hide Largest, Smallest, Won, Lost, TotalPnL, TotalFees, TotalSlippage, NetPnL, Winners;
      var net := tr.pnl - tr.fees - tr.slippage;
      t := t.(pnl := t.pnl + tr.pnl, fees := t.fees + tr.fees, slippage := t.slippage + tr.slippage);
      if net > 0.0 {
        t := t.(wins := t.wins + 1, grossProfit := t.grossProfit + net,
                largestWin := if net > t.largestWin then net else t.largestWin);
      } else if net < 0.0 {
        t := t.(grossLoss := t.grossLoss + -net, largestLoss := if net < t.largestLoss then net else t.largestLoss);
      }
    }
    assert trades[..|trades|] == trades;
  }
}
