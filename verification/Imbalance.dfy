/** Trade-flow imbalance over a rolling window (nexus/internal/features/imbalance.go). */
module Imbalance {
  import opened Names
  import opened RollingWindow

  datatype Deal = Deal(side: Side, qty: real)

  /** What the buffer keeps of a trade. */
  datatype Flow = Flow(qty: real, isBuy: bool)

  /** Trades on neither side do not count. */
  predicate Sided(t: Stamped<Deal>) {
    t.value.side.Buy? || t.value.side.Sell?
  }

  function FlowOf(t: Stamped<Deal>): Stamped<Flow> {
    Stamped(t.ts, Flow(t.value.qty, t.value.side.Buy?))
  }

  /** The flows of the trades that count. */
  function Flows(h: seq<Stamped<Deal>>): seq<Stamped<Flow>> {
    if h == [] then []
    else
      var t := h[|h| - 1];
      Flows(h[..|h| - 1]) + if Sided(t) then [FlowOf(t)] else []
  }

  // ---------------------------------------------------------------------------
  // The state as a value
  // ---------------------------------------------------------------------------

  datatype State = State(live: seq<Stamped<Flow>>, buyVol: real, selVol: real)

  const IDLE := State([], 0.0, 0.0)

  function Clamped(x: real): real {
    if x < 0.0 then 0.0 else x
  }

  function Bought(e: Stamped<Flow>): real {
    if e.value.isBuy then e.value.qty else 0.0
  }

  function Sold(e: Stamped<Flow>): real {
    if e.value.isBuy then 0.0 else e.value.qty
  }

  /** Takes out the oldest entry. */
  function Less(s: State): State
    requires s.live != []
  {
    State(s.live[1..], s.buyVol - Bought(s.live[0]), s.selVol - Sold(s.live[0]))
  }

  function Dropped(s: State, cutoff: int): State
    decreases |s.live|
  {
    if s.live == [] || s.live[0].ts >= cutoff then s else Dropped(Less(s), cutoff)
  }

  function Evicted(s: State, cutoff: int): State {
    var d := Dropped(s, cutoff);
    d.(buyVol := Clamped(d.buyVol), selVol := Clamped(d.selVol))
  }

  function More(s: State, e: Stamped<Flow>): State {
    State(s.live + [e], s.buyVol + Bought(e), s.selVol + Sold(e))
  }

  function Added(s: State, capacity: nat, e: Stamped<Flow>): State
    requires capacity > 0
  {
    More(if |s.live| < capacity then s else Less(s), e)
  }

  function Traded(s: State, capacity: nat, window: int, t: Stamped<Deal>): State
    requires capacity > 0
  {
    if Sided(t) then Added(Evicted(s, t.ts - window), capacity, FlowOf(t)) else s
  }

  function Run(h: seq<Stamped<Deal>>, capacity: nat, window: int): State
    requires capacity > 0
  {
    if h == [] then IDLE else Traded(Run(h[..|h| - 1], capacity, window), capacity, window, h[|h| - 1])
  }

  function ValueOf(s: State): real {
    if s.live == [] || s.buyVol + s.selVol == 0.0 then 0.0 else (s.buyVol - s.selVol) / (s.buyVol + s.selVol)
  }

  // ---------------------------------------------------------------------------
  // The running volumes are the volumes of the window
  // ---------------------------------------------------------------------------

  const B := (e: Stamped<Flow>) => Bought(e)
  const S := (e: Stamped<Flow>) => Sold(e)

  /** No entry is negative, and the volumes are those of the live entries. */
  ghost predicate Honest(s: State) {
    && (forall i :: 0 <= i < |s.live| ==> B(s.live[i]) >= 0.0 && S(s.live[i]) >= 0.0)
    && s.buyVol == Total(s.live, B) && s.selVol == Total(s.live, S)
  }

  lemma {:induction false} DropHonest(s: State, cutoff: int)
    requires Honest(s)
    ensures Honest(Dropped(s, cutoff)) && Dropped(s, cutoff).live == DropExpired(s.live, cutoff)
    decreases |s.live|
  {
    if s.live == [] || s.live[0].ts >= cutoff {
    } else {
      DropHonest(Less(s), cutoff);
    }
  }

  /** The guards against negative volumes change nothing. */
  lemma EvictHonest(s: State, cutoff: int)
    requires Honest(s)
    ensures Honest(Evicted(s, cutoff)) && Evicted(s, cutoff) == Dropped(s, cutoff)
    ensures Evicted(s, cutoff).live == DropExpired(s.live, cutoff)
  {
    DropHonest(s, cutoff);
    TotalNonnegative(Dropped(s, cutoff).live, B);
    TotalNonnegative(Dropped(s, cutoff).live, S);
  }

  lemma TradeHonest(s: State, capacity: nat, window: int, t: Stamped<Deal>)
    requires capacity > 0 && Honest(s) && t.value.qty >= 0.0 && Sided(t)
    ensures var s' := Traded(s, capacity, window, t);
      Honest(s') && s'.live == Push(s.live, capacity, window, FlowOf(t))
  {
    var kept := Evicted(s, t.ts - window);
    EvictHonest(s, t.ts - window);
    hide Evicted, Dropped;
    var room := if |kept.live| < capacity then kept else Less(kept);
    assert Honest(room);
    TotalOfMore(room.live, FlowOf(t), B);
    TotalOfMore(room.live, FlowOf(t), S);
  }

  ghost predicate Nonnegative(h: seq<Stamped<Deal>>) {
    forall i :: 0 <= i < |h| ==> h[i].value.qty >= 0.0
  }

  lemma {:induction false} RunHonest(h: seq<Stamped<Deal>>, capacity: nat, window: int)
    requires capacity > 0 && Nonnegative(h)
    ensures Honest(Run(h, capacity, window)) && Run(h, capacity, window).live == Live(Flows(h), capacity, window)
  {
    if h != [] {
      hide Honest;
      var init, t := h[..|h| - 1], h[|h| - 1];
      RunHonest(init, capacity, window);
      if Sided(t) {
        TradeHonest(Run(init, capacity, window), capacity, window, t);
        assert Flows(h)[..|Flows(h)| - 1] == Flows(init);
      } else {
        assert Flows(h) == Flows(init);
      }
    }
  }

  lemma {:induction false} FlowsInOrder(h: seq<Stamped<Deal>>)
    requires InOrder(h)
    ensures InOrder(Flows(h)) && forall i :: 0 <= i < |Flows(h)| ==> Flows(h)[i].ts <= h[|h| - 1].ts
    ensures h == [] ==> Flows(h) == []
  {
    if h != [] {
      FlowsInOrder(h[..|h| - 1]);
    }
  }

  /** After any trades in time order with nonnegative quantities: the live entries are exactly those of the
      sided trades among the last `capacity` of them that are not older than the window, in order, and the
      incremental volumes are the volumes over them. */
  lemma BufferIsWindow(h: seq<Stamped<Deal>>, capacity: nat, window: int)
    requires capacity > 0 && window >= 0 && Nonnegative(h) && InOrder(h)
    ensures var s := Run(h, capacity, window);
      && IsWindow(s.live, Flows(h), capacity, window)
      && s.buyVol == Total(s.live, B) && s.selVol == Total(s.live, S)
  {
    RunHonest(h, capacity, window);
    FlowsInOrder(h);
    hide Run, IsWindow, Total;
    LiveIsWindow(Flows(h), capacity, window);
  }

  lemma Ratio(n: real, total: real)
    requires total > 0.0 && -total <= n <= total
    ensures -1.0 <= n / total <= 1.0
    ensures n / total == 1.0 <==> n == total
    ensures n / total == -1.0 <==> n == -total
  {
    var q := n / total;
    assert q * total == n;
  }

  /** The imbalance is in [-1, 1]; it is 1 exactly when volume was bought and none sold, and -1 exactly when
      volume was sold and none bought. */
  lemma ImbalanceInRange(h: seq<Stamped<Deal>>, capacity: nat, window: int)
    requires capacity > 0 && Nonnegative(h)
    ensures var s := Run(h, capacity, window);
      && -1.0 <= ValueOf(s) <= 1.0
      && (ValueOf(s) == 1.0 <==> s.buyVol > 0.0 && s.selVol == 0.0)
      && (ValueOf(s) == -1.0 <==> s.selVol > 0.0 && s.buyVol == 0.0)
  {
    var s := Run(h, capacity, window);
    RunHonest(h, capacity, window);
    TotalNonnegative(s.live, B);
    TotalNonnegative(s.live, S);
    hide Run;
    if s.buyVol + s.selVol != 0.0 {
      Ratio(s.buyVol - s.selVol, s.buyVol + s.selVol);
    }
  }

  // ---------------------------------------------------------------------------
  // The value is what was bought less what was sold, over both
  // ---------------------------------------------------------------------------

  /** The trades that count. */
  function SidedOf(h: seq<Stamped<Deal>>): seq<Stamped<Deal>> {
    if h == [] then []
    else
      var last := h[|h| - 1];
      SidedOf(h[..|h| - 1]) + if last.value.side == Buy || last.value.side == Sell then [last] else []
  }

  /** The quantity traded on one side. */
  function VolumeOn(w: seq<Stamped<Deal>>, side: Side): real {
    if w == [] then 0.0 else (if w[0].value.side == side then w[0].value.qty else 0.0) + VolumeOn(w[1..], side)
  }

  function AsFlows(w: seq<Stamped<Deal>>): seq<Stamped<Flow>> {
    seq(|w|, i requires 0 <= i < |w| => FlowOf(w[i]))
  }

  ghost predicate AllSided(w: seq<Stamped<Deal>>) {
    forall i :: 0 <= i < |w| ==> Sided(w[i])
  }

  lemma {:induction false} FlowsOfSided(h: seq<Stamped<Deal>>)
    ensures Flows(h) == AsFlows(SidedOf(h)) && AllSided(SidedOf(h))
  {
    if h != [] {
      FlowsOfSided(h[..|h| - 1]);
    }
  }

  lemma {:induction false} VolumesOfTrades(w: seq<Stamped<Deal>>)
    requires AllSided(w)
    ensures Total(AsFlows(w), B) == VolumeOn(w, Buy) && Total(AsFlows(w), S) == VolumeOn(w, Sell)
  {
    if w != [] {
      assert AsFlows(w)[1..] == AsFlows(w[1..]);
      VolumesOfTrades(w[1..]);
    }
  }

  lemma WindowOfTrades(live: seq<Stamped<Flow>>, h: seq<Stamped<Deal>>, w: seq<Stamped<Deal>>, capacity: nat,
                       window: int)
    requires IsWindow(live, AsFlows(h), capacity, window) && IsWindow(w, h, capacity, window) && AllSided(h)
    ensures live == AsFlows(w) && AllSided(w)
  {
    SameWindow(live, AsFlows(h), w, h, capacity, window);
    hide StartsAt;
  }

  predicate Balances(v: real, bought: real, sold: real) {
    v * (bought + sold) == bought - sold && (bought + sold == 0.0 ==> v == 0.0)
  }

  /** Over every run in time order: the value, times what the sided trades of the window come to, is what was
      bought less what was sold; and it is 0 when they come to nothing. */
  lemma ValueIsImbalance(h: seq<Stamped<Deal>>, capacity: nat, window: int, w: seq<Stamped<Deal>>)
    requires capacity > 0 && window >= 0 && Nonnegative(h) && InOrder(h) && IsWindow(w, SidedOf(h), capacity, window)
    ensures Balances(ValueOf(Run(h, capacity, window)), VolumeOn(w, Buy), VolumeOn(w, Sell))
  {
    hide Balances, Nonnegative, Run, Total, ValueOf, IsWindow, InOrder, AllSided, Flows, SidedOf, AsFlows;
    var s := Run(h, capacity, window);
    RunHonest(h, capacity, window);
    BufferIsWindow(h, capacity, window);
    FlowsOfSided(h);
    WindowOfTrades(s.live, SidedOf(h), w, capacity, window);
    VolumesOfTrades(w);
    LiveHasVolume(s);
    hide VolumeOn, Honest;
    ValueIsRatio(s);
  }

  /** What is live has no negative volume, and without anything live there is none. */
  lemma LiveHasVolume(s: State)
    requires Honest(s)
    ensures s.buyVol >= 0.0 && s.selVol >= 0.0 && (s.live == [] ==> s.buyVol == s.selVol == 0.0)
  {
    TotalNonnegative(s.live, B);
    TotalNonnegative(s.live, S);
  }

  lemma ValueIsRatio(s: State)
    requires s.buyVol >= 0.0 && s.selVol >= 0.0 && (s.live == [] ==> s.buyVol == s.selVol == 0.0)
    ensures Balances(ValueOf(s), s.buyVol, s.selVol)
  {
  }

  // ---------------------------------------------------------------------------
  // The circular buffer
  // ---------------------------------------------------------------------------

  class ImbalanceState {
    const buf: array<Stamped<Flow>>
    var head: nat
    var count: nat
    var buyVol: real
    var selVol: real

    predicate Valid()
      reads this
    {
      head < buf.Length && count <= buf.Length
    }

    function View(): State
      requires Valid()
      reads this, buf
    {
      State(Slots(buf[..], head, count), buyVol, selVol)
    }

    constructor (capacity: nat)
      requires capacity > 0
      ensures Valid() && fresh(buf) && buf.Length == capacity && View() == IDLE
    {
      buf := new Stamped<Flow>[capacity](i => Stamped(0, Flow(0.0, false)));
      head, count, buyVol, selVol := 0, 0, 0.0, 0.0;
    }

    method Subtract(e: Stamped<Flow>)
      modifies this`buyVol, this`selVol
      ensures buyVol == old(buyVol) - Bought(e) && selVol == old(selVol) - Sold(e)
    {
      if e.value.isBuy {
        buyVol := buyVol - e.value.qty;
      } else {
        selVol := selVol - e.value.qty;
      }
    }

    /** Takes expired entries off the old end, and guards the volumes against drift below zero. */
    method EvictExpired(cutoff: int)
      requires Valid()
      modifies this`count, this`buyVol, this`selVol
      ensures Valid() && View() == Evicted(old(View()), cutoff)
    {
      ghost var s := View();
      while count > 0
        invariant Valid() && Dropped(View(), cutoff) == Dropped(s, cutoff)
        decreases count
      {
        var tailIdx := Place(buf.Length, head, count, 0);
        CountDrops(buf[..], head, count);
        if buf[tailIdx].ts < cutoff {
          ghost var before := View();
          Subtract(buf[tailIdx]);
          count := count - 1;
          assert View() == Less(before);
        } else {
          break;
        }
      }
      if buyVol < 0.0 {
        buyVol := 0.0;
      }
      if selVol < 0.0 {
        selVol := 0.0;
      }
    }

    method Add(entry: Stamped<Flow>)
      requires Valid()
      modifies this, buf
      ensures Valid() && View() == Added(old(View()), buf.Length, entry)
    {
      hide Next;
      NextIs(buf.Length, head);
      if count < buf.Length {
        WriteAppends(buf[..], head, count, entry);
        buf[head] := entry;
        head := Next(buf.Length, head);
        count := count + 1;
      } else {
        WriteOverwrites(buf[..], head, entry);
        Subtract(buf[head]);
        buf[head] := entry;
        head := Next(buf.Length, head);
      }
      if entry.value.isBuy {
        buyVol := buyVol + entry.value.qty;
      } else {
        selVol := selVol + entry.value.qty;
      }
    }

    method OnTrade(window: int, trade: Stamped<Deal>)
      requires Valid()
      modifies this, buf
      ensures Valid() && View() == Traded(old(View()), buf.Length, window, trade)
    {
      hide Evicted, Added, Slots;
      if !Sided(trade) {
        return;
      }
      EvictExpired(trade.ts - window);
      Add(FlowOf(trade));
    }

    method Value() returns (v: real)
      requires Valid()
      ensures v == ValueOf(View())
    {
      if count == 0 {
        return 0.0;
      }
      var total := buyVol + selVol;
      if total == 0.0 {
        return 0.0;
      }
      return (buyVol - selVol) / total;
    }
  }
}
