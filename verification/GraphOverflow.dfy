/** Past the width of the transaction counter: a run whose counter wraps, and an edge left dangling. */
module GraphOverflow {
  import opened Bfs
  import opened GraphState
  import opened GraphRuns

  // A high-traffic limit of -1 converts to the greatest uint32 and so filters nothing.
  const WIDE := Config(10, 1, 0.0, 2, -1)

  /** One transfer from `s` to `x`, then `k` transfers from `s` to `y`. */
  function Flood(s: Addr, x: Addr, y: Addr, k: nat): seq<Op> {
    if k == 0 then [Op.Transfer(MakeTransfer(s, x))]
    else Flood(s, x, y, k - 1) + [Op.Transfer(MakeTransfer(s, y))]
  }

  /** The graph after them. */
  function Flooded(s: Addr, x: Addr, y: Addr, k: nat): GraphState.Graph {
    var blank := Node([Unknown], 0, 0, false, 0, 0);
    var nodes := map[s := blank.(txCount := ToUint32(k + 1)), x := blank.(txCount := 1)];
    var e := MakeTransfer(s, x);
    Graph(if k == 0 then nodes else nodes[y := blank.(txCount := ToUint32(k))],
          map[s := [e]], map[x := [e]], {}, if k == 0 then 2 else 3, 1)
  }

  lemma NextUint32(n: nat)
    ensures ToUint32(ToUint32(n) + 1) == ToUint32(n + 1)
  {
  }

  lemma ZeroUint32()
    ensures ToUint32(0) == 0 == ToUint32(UINT32)
  {
  }

  lemma FloodStart(s: Addr, x: Addr, y: Addr)
    requires s != x && s != y && x != y
    ensures AddTransfer(WIDE, Initial({}), MakeTransfer(s, x)).0 == Flooded(s, x, y, 0)
  {
    var g, e := Initial({}), MakeTransfer(s, x);
    assert !Filtered(WIDE, g, e);
    var g1 := EnsureNode(WIDE, g, s, 0);
    assert g.nodes.Keys == {} && g1.nodes.Keys == {s};
    var g4 := CountTx(CountTx(EnsureNode(WIDE, g1, x, 0), s), x);
    assert g4.nodes == Flooded(s, x, y, 0).nodes;
    assert [] + [e] == [e];
    var g5 := Connect(WIDE, g4, e);
    assert g5.adjOut == map[s := [e]] && g5.adjIn == map[x := [e]];
  }

  /** Both counters of one more transfer, over the nodes as they are. */
  lemma FloodCounts(s: Addr, y: Addr, g: GraphState.Graph)
    requires s != y && s in g.nodes && y in g.nodes
    ensures CountTx(CountTx(g, s), y) ==
      g.(nodes := g.nodes[s := g.nodes[s].(txCount := ToUint32(g.nodes[s].txCount + 1))]
                         [y := g.nodes[y].(txCount := ToUint32(g.nodes[y].txCount + 1))])
  {
    hide ToUint32;
  }

  /** The nodes after a flood, once there is room for the second receiver, lack one more transfer. */
  lemma FloodEnsured(s: Addr, x: Addr, y: Addr, k: nat)
    requires s != x && s != y && x != y
    ensures var g, goal := EnsureNode(WIDE, Flooded(s, x, y, k), y, 0), Flooded(s, x, y, k + 1);
      && s in Flooded(s, x, y, k).nodes && s in g.nodes && y in g.nodes && g.(nodes := map[]) == goal.(nodes := map[])
      && g.nodes[s].txCount == ToUint32(k + 1) && g.nodes[y].txCount == ToUint32(k)
      && goal.nodes ==
           g.nodes[s := g.nodes[s].(txCount := ToUint32(k + 2))][y := g.nodes[y].(txCount := ToUint32(k + 1))]
  {
    ZeroUint32();
    hide ToUint32;
    var g, goal := EnsureNode(WIDE, Flooded(s, x, y, k), y, 0), Flooded(s, x, y, k + 1);
    assert Flooded(s, x, y, k).nodes.Keys == if k == 0 then {s, x} else {s, x, y};
    assert g.nodes.Keys == {s, x, y} == goal.nodes.Keys;
    assert goal.nodes[x] == g.nodes[x];
  }

  lemma FloodNodes(s: Addr, x: Addr, y: Addr, k: nat)
    requires s != x && s != y && x != y
    ensures y in EnsureNode(WIDE, Flooded(s, x, y, k), y, 0).nodes && s in Flooded(s, x, y, k).nodes
    ensures CountTx(CountTx(EnsureNode(WIDE, Flooded(s, x, y, k), y, 0), s), y) == Flooded(s, x, y, k + 1)
  {
    hide ToUint32, CountTx, EnsureNode, Flooded;
    FloodEnsured(s, x, y, k);
    FloodCounts(s, y, EnsureNode(WIDE, Flooded(s, x, y, k), y, 0));
    NextUint32(k + 1);
    NextUint32(k);
  }

  lemma FloodStep(s: Addr, x: Addr, y: Addr, k: nat)
    requires s != x && s != y && x != y
    ensures AddTransfer(WIDE, Flooded(s, x, y, k), MakeTransfer(s, y)).0 == Flooded(s, x, y, k + 1)
  {
    var g, e := Flooded(s, x, y, k), MakeTransfer(s, y);
    FloodNodes(s, x, y, k);
    assert ToUint32(WIDE.highTxThreshold) == UINT32 - 1;
    assert y in g.nodes ==> g.nodes[y].txCount < UINT32;
    hide ToUint32, CountTx;
    assert !Filtered(WIDE, g, e);
    assert EnsureNode(WIDE, g, s, 0) == g;
    assert Connect(WIDE, Flooded(s, x, y, k + 1), e) == Flooded(s, x, y, k + 1);
  }

  lemma {:induction false} FloodRun(s: Addr, x: Addr, y: Addr, k: nat)
    requires s != x && s != y && x != y
    ensures Play(WIDE, Initial({}), Flood(s, x, y, k)) == System(Flooded(s, x, y, k), false)
  {
    hide AddTransfer, Flooded, Initial;
    if k == 0 {
      assert Flood(s, x, y, 0)[..0] == [];
      FloodStart(s, x, y);
    } else {
      FloodRun(s, x, y, k - 1);
      FloodStep(s, x, y, k - 1);
      PlaySnoc(WIDE, Initial({}), Flood(s, x, y, k - 1), Op.Transfer(MakeTransfer(s, y)));
    }
  }

  lemma EvictFlooded(s: Addr, x: Addr, y: Addr, k: nat)
    requires s != x && s != y && x != y
    ensures var g := Evict(Flooded(s, x, y, k), 1);
      MakeTransfer(s, x) in Edges(g.adjIn, x) && (ToUint32(k + 1) == 0 ==> s !in g.nodes)
  {
    hide ToUint32;
    assert x !in EvictedFrom(Flooded(s, x, y, k), 1);
    assert ToUint32(k + 1) == 0 ==> s in EvictedFrom(Flooded(s, x, y, k), 1);
  }

  /** The bound on the number of transfers is needed: a multiple of 2^32 transfers wraps the sender's
      counter to zero, and the next eviction removes the sender although a stored edge still names it. */
  lemma WrappedCounterDangles(s: Addr, x: Addr, y: Addr, k: nat)
    requires s != x && s != y && x != y
    requires ToUint32(k + 1) == 0
    ensures var g := Run(WIDE, Initial({}), Flood(s, x, y, k) + [Eviction(1)]);
      MakeTransfer(s, x) in Edges(g.adjIn, x) && s !in g.nodes && !Structure(WIDE, g)
  {
    hide Play, Flooded, Flood, Evict, ToUint32;
    FloodRun(s, x, y, k);
    PlaySnoc(WIDE, Initial({}), Flood(s, x, y, k), Eviction(1));
    EvictFlooded(s, x, y, k);
    hide Mirrored, Capped, Seeded;
  }
}
