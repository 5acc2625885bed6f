/** Volume-weighted average price over a rolling window (nexus/internal/features/vwap.go). */
module Vwap {
  import opened RollingWindow

  datatype Deal = Deal(price: real, qty: real)

  /** What the buffer keeps of a trade. */
  datatype Weight = Weight(priceQty: real, qty: real)

  function WeightOf(t: Stamped<Deal>): Stamped<Weight> {
    Stamped(t.ts, Weight(t.value.price * t.value.qty, t.value.qty))
  }

  function Weights(h: seq<Stamped<Deal>>): seq<Stamped<Weight>> {
    seq(|h|, i requires 0 <= i < |h| => WeightOf(h[i]))
  }

  // ---------------------------------------------------------------------------
  // The state as a value
  // ---------------------------------------------------------------------------

  datatype State = State(live: seq<Stamped<Weight>>, sumPQ: real, sumQ: real)

  const IDLE := State([], 0.0, 0.0)

  function Clamped(x: real): real {
    if x < 0.0 then 0.0 else x
  }

  /** Takes out the oldest entry. */
  function Less(s: State): State
    requires s.live != []
  {
    State(s.live[1..], s.sumPQ - s.live[0].value.priceQty, s.sumQ - s.live[0].value.qty)
  }

  function Dropped(s: State, cutoff: int): State
    decreases |s.live|
  {
    if s.live == [] || s.live[0].ts >= cutoff then s else Dropped(Less(s), cutoff)
  }

  function Evicted(s: State, cutoff: int): State {
    var d := Dropped(s, cutoff);
    d.(sumPQ := Clamped(d.sumPQ), sumQ := Clamped(d.sumQ))
  }

  function More(s: State, e: Stamped<Weight>): State {
    State(s.live + [e], s.sumPQ + e.value.priceQty, s.sumQ + e.value.qty)
  }

  function Added(s: State, capacity: nat, e: Stamped<Weight>): State
    requires capacity > 0
  {
    More(if |s.live| < capacity then s else Less(s), e)
  }

  function Traded(s: State, capacity: nat, window: int, t: Stamped<Deal>): State
    requires capacity > 0
  {
    Added(Evicted(s, t.ts - window), capacity, WeightOf(t))
  }

  function Run(h: seq<Stamped<Deal>>, capacity: nat, window: int): State
    requires capacity > 0
  {
    if h == [] then IDLE else Traded(Run(h[..|h| - 1], capacity, window), capacity, window, h[|h| - 1])
  }

  function AverageOf(s: State): real {
    if s.live == [] || s.sumQ == 0.0 then 0.0 else s.sumPQ / s.sumQ
  }

  // ---------------------------------------------------------------------------
  // The running sums are the sums of the window
  // ---------------------------------------------------------------------------

  const PQ := (e: Stamped<Weight>) => e.value.priceQty
  const Q := (e: Stamped<Weight>) => e.value.qty

  /** No entry is negative, and the sums are the sums of the live entries. */
  ghost predicate Honest(s: State) {
    && (forall i :: 0 <= i < |s.live| ==> PQ(s.live[i]) >= 0.0 && Q(s.live[i]) >= 0.0)
    && s.sumPQ == Total(s.live, PQ) && s.sumQ == Total(s.live, Q)
  }

  lemma {:induction false} DropHonest(s: State, cutoff: int)
    requires Honest(s)
    ensures Honest(Dropped(s, cutoff)) && Dropped(s, cutoff).live == DropExpired(s.live, cutoff)
    decreases |s.live|
  {
    if s.live == [] || s.live[0].ts >= cutoff {
    } else {
      DropHonest(Less(s), cutoff);
    }
  }

  /** The guards against negative sums change nothing. */
  lemma EvictHonest(s: State, cutoff: int)
    requires Honest(s)
    ensures Honest(Evicted(s, cutoff)) && Evicted(s, cutoff) == Dropped(s, cutoff)
    ensures Evicted(s, cutoff).live == DropExpired(s.live, cutoff)
  {
    DropHonest(s, cutoff);
    TotalNonnegative(Dropped(s, cutoff).live, PQ);
    TotalNonnegative(Dropped(s, cutoff).live, Q);
  }

  lemma TradeHonest(s: State, capacity: nat, window: int, t: Stamped<Deal>)
    requires capacity > 0 && Honest(s) && t.value.price >= 0.0 && t.value.qty >= 0.0
    ensures var s' := Traded(s, capacity, window, t);
      Honest(s') && s'.live == Push(s.live, capacity, window, WeightOf(t))
  {
    var kept := Evicted(s, t.ts - window);
    EvictHonest(s, t.ts - window);
    hide Evicted, Dropped;
    var room := if |kept.live| < capacity then kept else Less(kept);
    assert Honest(room);
    TotalOfMore(room.live, WeightOf(t), PQ);
    TotalOfMore(room.live, WeightOf(t), Q);
    assert t.value.price * t.value.qty >= 0.0;
  }

  ghost predicate Nonnegative(h: seq<Stamped<Deal>>) {
    forall i :: 0 <= i < |h| ==> h[i].value.price >= 0.0 && h[i].value.qty >= 0.0
  }

  lemma {:induction false} RunHonest(h: seq<Stamped<Deal>>, capacity: nat, window: int)
    requires capacity > 0 && Nonnegative(h)
    ensures Honest(Run(h, capacity, window)) && Run(h, capacity, window).live == Live(Weights(h), capacity, window)
  {
    hide Honest;
    if h == [] {
      assert Honest(IDLE) by { EmptyHonest(); }
    } else {
      var init := h[..|h| - 1];
      RunHonest(init, capacity, window);
      TradeHonest(Run(init, capacity, window), capacity, window, h[|h| - 1]);
      assert Weights(h)[..|h| - 1] == Weights(init);
    }
  }

  lemma EmptyHonest()
    ensures Honest(IDLE)
  {
  }

  /** After any trades in time order with nonnegative prices and quantities: the live entries are exactly
      those of the trades among the last `capacity` that are not older than the window, in order, and the
      incremental sums are the sums over them. */
  lemma BufferIsWindow(h: seq<Stamped<Deal>>, capacity: nat, window: int)
    requires capacity > 0 && window >= 0 && Nonnegative(h) && InOrder(h)
    ensures var s := Run(h, capacity, window);
      && IsWindow(s.live, Weights(h), capacity, window)
      && s.sumPQ == Total(s.live, PQ) && s.sumQ == Total(s.live, Q)
  {
    RunHonest(h, capacity, window);
    assert InOrder(Weights(h));
    hide Run, IsWindow, Total;
    LiveIsWindow(Weights(h), capacity, window);
  }

  function Scaled(x: real, q: real): real {
    x * q
  }

  lemma Scale(lo: real, hi: real, price: real, qty: real)
    requires lo <= price <= hi && qty >= 0.0
    ensures Scaled(lo, qty) <= price * qty <= Scaled(hi, qty)
  {
    ScaleUp(lo, price, qty);
    ScaleUp(price, hi, qty);
  }

  lemma ScaleUp(a: real, b: real, q: real)
    requires a <= b && q >= 0.0
    ensures Scaled(a, q) <= Scaled(b, q)
  {
    assert (b - a) * q >= 0.0;
  }

  lemma Nothing(x: real)
    ensures Scaled(x, 0.0) == 0.0
  {
  }

  lemma Spread(x: real, a: real, b: real)
    ensures Scaled(x, a + b) == Scaled(x, a) + Scaled(x, b)
  {
  }

  ghost predicate Between(w: seq<Stamped<Weight>>, lo: real, hi: real) {
    forall i :: 0 <= i < |w| ==> Scaled(lo, Q(w[i])) <= PQ(w[i]) <= Scaled(hi, Q(w[i]))
  }

  lemma {:induction false} TotalBetween(w: seq<Stamped<Weight>>, lo: real, hi: real)
    requires Between(w, lo, hi)
    ensures Scaled(lo, Total(w, Q)) <= Total(w, PQ) <= Scaled(hi, Total(w, Q))
  {
    hide Scaled;
    if w == [] {
      Nothing(lo);
      Nothing(hi);
    } else {
      TotalBetween(w[1..], lo, hi);
      Spread(lo, Q(w[0]), Total(w[1..], Q));
      Spread(hi, Q(w[0]), Total(w[1..], Q));
    }
  }

  lemma QuotientBetween(lo: real, hi: real, pq: real, q: real)
    requires q > 0.0 && Scaled(lo, q) <= pq <= Scaled(hi, q)
    ensures lo <= pq / q <= hi
  {
  }

  /** The prices of the last `n` trades. */
  ghost predicate PricesWithin(h: seq<Stamped<Deal>>, n: nat, lo: real, hi: real) {
    forall i :: 0 <= i < |h| && i >= |h| - n ==> lo <= h[i].value.price <= hi
  }

  lemma WeightsBetween(h: seq<Stamped<Deal>>, w: seq<Stamped<Weight>>, lo: real, hi: real)
    requires |w| <= |h| && w == Weights(h)[|h| - |w|..] && Nonnegative(h) && PricesWithin(h, |w|, lo, hi)
    ensures Between(w, lo, hi)
  {
    hide Scaled;
    forall i | 0 <= i < |w|
      ensures Scaled(lo, Q(w[i])) <= PQ(w[i]) <= Scaled(hi, Q(w[i]))
    {
      var t := h[|h| - |w| + i];
      assert w[i] == WeightOf(t);
      Scale(lo, hi, t.value.price, t.value.qty);
    }
  }

  lemma SomeLive(s: State)
    requires Honest(s) && s.sumQ != 0.0
    ensures s.live != [] && s.sumQ > 0.0
  {
    TotalNonnegative(s.live, Q);
  }

  lemma ValueOfWindow(s: State, h: seq<Stamped<Deal>>, lo: real, hi: real)
    requires Honest(s) && s.sumQ != 0.0 && |s.live| <= |h| && s.live == Weights(h)[|h| - |s.live|..]
    requires Nonnegative(h) && PricesWithin(h, |s.live|, lo, hi)
    ensures lo <= AverageOf(s) <= hi
  {
    SomeLive(s);
    WeightsBetween(h, s.live, lo, hi);
    TotalBetween(s.live, lo, hi);
    QuotientBetween(lo, hi, s.sumPQ, s.sumQ);
  }

  /** The average lies between the least and the greatest live price. */
  lemma ValueBetweenPrices(h: seq<Stamped<Deal>>, capacity: nat, window: int, lo: real, hi: real)
    requires capacity > 0 && window >= 0 && Nonnegative(h) && InOrder(h)
    requires var s := Run(h, capacity, window); s.sumQ != 0.0 && PricesWithin(h, |s.live|, lo, hi)
    ensures lo <= AverageOf(Run(h, capacity, window)) <= hi
  {
    hide Run, Honest, Live, Total, AverageOf, PricesWithin, Nonnegative, InOrder, StartsAt;
    BufferIsWindow(h, capacity, window);
    RunHonest(h, capacity, window);
    ValueOfWindow(Run(h, capacity, window), h, lo, hi);
  }

  // ---------------------------------------------------------------------------
  // The value is the volume-weighted average price of the window's trades
  // ---------------------------------------------------------------------------

  /** The quantity traded. */
  function Volume(w: seq<Stamped<Deal>>): real {
    if w == [] then 0.0 else w[0].value.qty + Volume(w[1..])
  }

  /** The money traded. */
  function Turnover(w: seq<Stamped<Deal>>): real {
    if w == [] then 0.0 else w[0].value.price * w[0].value.qty + Turnover(w[1..])
  }

  lemma {:induction false} TotalsOfTrades(w: seq<Stamped<Deal>>)
    ensures Total(Weights(w), PQ) == Turnover(w) && Total(Weights(w), Q) == Volume(w)
  {
    if w != [] {
      TotalsOfTrades(w[1..]);
      assert Weights(w)[1..] == Weights(w[1..]);
    }
  }

  lemma {:induction false} NoVolumeNoMoney(w: seq<Stamped<Deal>>)
    requires Nonnegative(w)
    ensures Volume(w) >= 0.0 && (Volume(w) == 0.0 ==> Turnover(w) == 0.0)
  {
    if w != [] {
      NoVolumeNoMoney(w[1..]);
    }
  }

  predicate Averages(v: real, volume: real, turnover: real) {
    v * volume == turnover && (volume == 0.0 ==> v == 0.0)
  }

  /** Over every run in time order: the value, times the quantity that the trades of the window come to, is the
      money they come to; and it is 0 when they come to no quantity. */
  lemma ValueIsVwap(h: seq<Stamped<Deal>>, capacity: nat, window: int, w: seq<Stamped<Deal>>)
    requires capacity > 0 && window >= 0 && Nonnegative(h) && InOrder(h) && IsWindow(w, h, capacity, window)
    ensures Averages(AverageOf(Run(h, capacity, window)), Volume(w), Turnover(w))
  {
    hide Averages, Nonnegative, Run, Total, AverageOf, IsWindow, InOrder;
    var s := Run(h, capacity, window);
    BufferIsWindow(h, capacity, window);
    SameWindow(s.live, Weights(h), w, h, capacity, window);
    WindowOfTrades(s.live, h, w, capacity, window);
    hide Weights;
    TotalsOfTrades(w);
    NoVolumeNoMoney(w);
    assert w == [] ==> Volume(w) == 0.0;
    hide Volume, Turnover;
    AverageIsQuotient(s, Volume(w), Turnover(w));
  }

  lemma WindowOfTrades(live: seq<Stamped<Weight>>, h: seq<Stamped<Deal>>, w: seq<Stamped<Deal>>, capacity: nat,
                       window: int)
    requires IsWindow(live, Weights(h), capacity, window) && IsWindow(w, h, capacity, window) && |live| == |w|
    ensures live == Weights(w) && (Nonnegative(h) ==> Nonnegative(w))
  {
    hide StartsAt;
  }

  lemma AverageIsQuotient(s: State, volume: real, turnover: real)
    requires s.sumQ == volume && s.sumPQ == turnover
    requires volume == 0.0 ==> turnover == 0.0
    requires volume != 0.0 ==> s.live != []
    ensures Averages(AverageOf(s), volume, turnover)
  {
  }

  // ---------------------------------------------------------------------------
  // The circular buffer
  // ---------------------------------------------------------------------------

  class VwapState {
    const buf: array<Stamped<Weight>>
    var head: nat
    var count: nat
    var sumPQ: real
    var sumQ: real

    predicate Valid()
      reads this
    {
      head < buf.Length && count <= buf.Length
    }

    function View(): State
      requires Valid()
      reads this, buf
    {
      State(Slots(buf[..], head, count), sumPQ, sumQ)
    }

    constructor (capacity: nat)
      requires capacity > 0
      ensures Valid() && fresh(buf) && buf.Length == capacity && View() == IDLE
    {
      buf := new Stamped<Weight>[capacity](i => Stamped(0, Weight(0.0, 0.0)));
      head, count, sumPQ, sumQ := 0, 0, 0.0, 0.0;
    }

    /** Takes expired entries off the old end, and guards the sums against drift below zero. */
    method EvictExpired(cutoff: int)
      requires Valid()
      modifies this`count, this`sumPQ, this`sumQ
      ensures Valid() && View() == Evicted(old(View()), cutoff)
    {
      ghost var s := View();
      while count > 0
        invariant Valid() && Dropped(View(), cutoff) == Dropped(s, cutoff)
        decreases count
      {
        var tailIdx := Place(buf.Length, head, count, 0);
        CountDrops(buf[..], head, count);
        if buf[tailIdx].ts < cutoff {
          ghost var before := View();
          sumPQ := sumPQ - buf[tailIdx].value.priceQty;
          sumQ := sumQ - buf[tailIdx].value.qty;
          count := count - 1;
          assert View() == Less(before);
        } else {
          break;
        }
      }
      if sumPQ < 0.0 {
        sumPQ := 0.0;
      }
      if sumQ < 0.0 {
        sumQ := 0.0;
      }
    }

    method Add(entry: Stamped<Weight>)
      requires Valid()
      modifies this, buf
      ensures Valid() && View() == Added(old(View()), buf.Length, entry)
    {
      hide Next;
      NextIs(buf.Length, head);
      if count < buf.Length {
        WriteAppends(buf[..], head, count, entry);
        buf[head] := entry;
        head := Next(buf.Length, head);
        count := count + 1;
      } else {
        WriteOverwrites(buf[..], head, entry);
        var oldest := buf[head];
        sumPQ := sumPQ - oldest.value.priceQty;
        sumQ := sumQ - oldest.value.qty;
        buf[head] := entry;
        head := Next(buf.Length, head);
      }
      sumPQ := sumPQ + entry.value.priceQty;
      sumQ := sumQ + entry.value.qty;
    }

    method OnTrade(window: int, trade: Stamped<Deal>)
      requires Valid()
      modifies this, buf
      ensures Valid() && View() == Traded(old(View()), buf.Length, window, trade)
    {
      hide Evicted, Added, Slots;
      EvictExpired(trade.ts - window);
      Add(WeightOf(trade));
    }

    method Average() returns (v: real)
      requires Valid()
      ensures v == AverageOf(View())
    {
      if count == 0 || sumQ == 0.0 {
        return 0.0;
      }
      return sumPQ / sumQ;
    }
  }
}
