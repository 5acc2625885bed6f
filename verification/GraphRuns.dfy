/** What every run of graph operations keeps. */
module GraphRuns {
  import opened Bfs
  import opened GraphState

  datatype Op =
    | Transfer(edge: Edge)
    | Deploy(deployer: Addr, timestamp: int)
    | Rug(deployer: Addr, now: int)
    | Insider(address: Addr, now: int)
    | Propagation(origin: Addr)
    | Eviction(cutoff: int)

  /** A panic unwinds the call and leaves what it had done until then. */
  ghost function Step(c: Config, g: GraphState.Graph, op: Op): GraphState.Graph {
    match op
    case Transfer(e) => AddTransfer(c, g, e).0
    case Deploy(a, t) => AddDeploy(c, g, a, t).0
    case Rug(a, now) => MarkRug(c, g, a, now).0
    case Insider(a, now) => MarkInsider(c, g, a, now).0
    case Propagation(a) => Propagate(c, g, a)
    case Eviction(cutoff) => Evict(g, cutoff)
  }

  function Initial(known: set<Addr>): GraphState.Graph {
    Graph(map a | a in known :: Node([Cex], 0, 0, true, 0, 0), map[], map[], known, 0, 0)
  }

  /** Marking takes the lock and does not give it back when it panics: whoever recovers the panic leaves an
      engine on which every later call waits for ever. */
  predicate Jams(c: Config, g: GraphState.Graph, op: Op) {
    match op
    case Rug(a, now) => MarkRug(c, g, a, now).1.Panicked?
    case Insider(a, now) => MarkInsider(c, g, a, now).1.Panicked?
    case _ => false
  }

  datatype System = System(graph: GraphState.Graph, jammed: bool)

  ghost function Play(c: Config, start: GraphState.Graph, ops: seq<Op>): System {
    if ops == [] then System(start, false)
    else
      var s, op := Play(c, start, ops[..|ops| - 1]), ops[|ops| - 1];
      if s.jammed then s else System(Step(c, s.graph, op), Jams(c, s.graph, op))
  }

  /** The graph after a run: from `Initial`, or from one that was loaded. */
  ghost function Run(c: Config, start: GraphState.Graph, ops: seq<Op>): GraphState.Graph {
    Play(c, start, ops).graph
  }

  /** One more operation. */
  lemma PlaySnoc(c: Config, start: GraphState.Graph, ops: seq<Op>, op: Op)
    requires !Play(c, start, ops).jammed
    ensures var s := Play(c, start, ops);
      Play(c, start, ops + [op]) == System(Step(c, s.graph, op), Jams(c, s.graph, op))
  {
    assert (ops + [op])[..|ops|] == ops;
    hide Step, Jams;
  }

  function Transfers(ops: seq<Op>): nat {
    if ops == [] then 0 else Transfers(ops[..|ops| - 1]) + (if ops[|ops| - 1].Transfer? then 1 else 0)
  }

  // ---------------------------------------------------------------------------
  // The invariant
  // ---------------------------------------------------------------------------

  type Adjacency = map<Addr, seq<Edge>>

  /** Every edge is stored under its own ends, and both ends are among `present`. */
  ghost predicate Owned(adjOut: Adjacency, adjIn: Adjacency, present: set<Addr>) {
    && (forall a: Addr, e: Edge ::
          e in Edges(adjOut, a) ==> e.source == a && e.source in present && e.target in present)
    && (forall a: Addr, e: Edge :: e in Edges(adjIn, a) ==> e.target == a && e.source in present && e.target in present)
  }

  function Times(es: seq<Edge>, e: Edge): nat {
    multiset(es)[e]
  }

  /** Outgoing and incoming lists hold the same edges, each as often. */
  ghost predicate Mirrored(adjOut: Adjacency, adjIn: Adjacency) {
    forall e: Edge :: Times(Edges(adjOut, e.source), e) == Times(Edges(adjIn, e.target), e)
  }

  ghost predicate Capped(adjOut: Adjacency, cap: nat) {
    forall a :: |Edges(adjOut, a)| <= cap
  }

  /** Known exchanges are nodes, and the node statistic counts the others. */
  ghost predicate Seeded(g: GraphState.Graph) {
    && g.cex <= g.nodes.Keys
    && (forall a :: a in g.nodes ==> (g.nodes[a].isCex <==> a in g.cex))
    && g.nodeCount == |g.nodes.Keys| - |g.cex|
  }

  /** The wallets that edges may touch: in the graph, and no exchange. */
  function Wallets(g: GraphState.Graph): set<Addr> {
    g.nodes.Keys - g.cex
  }

  ghost predicate Structure(c: Config, g: GraphState.Graph) {
    && Owned(g.adjOut, g.adjIn, Wallets(g))
    && Mirrored(g.adjOut, g.adjIn)
    && Capped(g.adjOut, Bound(c.maxEdgesPerNode))
    && Seeded(g)
  }

  function Degree(adjOut: Adjacency, adjIn: Adjacency, a: Addr): nat {
    |Edges(adjOut, a)| + |Edges(adjIn, a)|
  }

  /** A node's transaction counter covers its edges, and has not passed `limit`. */
  ghost predicate Counted(g: GraphState.Graph, limit: nat) {
    forall a :: a in g.nodes ==> Degree(g.adjOut, g.adjIn, a) <= g.nodes[a].txCount <= limit
  }

  // ---------------------------------------------------------------------------
  // Steps
  // ---------------------------------------------------------------------------

  lemma OwnerPresent(adjOut: Adjacency, adjIn: Adjacency, present: set<Addr>, a: Addr, e: Edge)
    requires Owned(adjOut, adjIn, present)
    requires e in Edges(adjOut, a) || e in Edges(adjIn, a)
    ensures a in present
  {
  }

  lemma AbsentHasNoEdges(adjOut: Adjacency, adjIn: Adjacency, present: set<Addr>, a: Addr)
    requires Owned(adjOut, adjIn, present) && a !in present
    ensures Degree(adjOut, adjIn, a) == 0
  {
    if |Edges(adjOut, a)| > 0 {
      OwnerPresent(adjOut, adjIn, present, a, Edges(adjOut, a)[0]);
    }
    if |Edges(adjIn, a)| > 0 {
      OwnerPresent(adjOut, adjIn, present, a, Edges(adjIn, a)[0]);
    }
  }

  lemma OwnedGrows(adjOut: Adjacency, adjIn: Adjacency, present: set<Addr>, more: set<Addr>)
    requires Owned(adjOut, adjIn, present) && present <= more
    ensures Owned(adjOut, adjIn, more)
  {
  }

  lemma EnsureSeeded(c: Config, g: GraphState.Graph, a: Addr, t: int)
    requires Seeded(g)
    ensures Seeded(EnsureNode(c, g, a, t)) && Wallets(g) <= Wallets(EnsureNode(c, g, a, t))
  {
    if EnsureNode(c, g, a, t) != g {
      assert EnsureNode(c, g, a, t).nodes.Keys == g.nodes.Keys + {a};
    }
  }

  lemma EnsureCounted(c: Config, g: GraphState.Graph, a: Addr, t: int, limit: nat)
    requires Structure(c, g) && Counted(g, limit)
    ensures Counted(EnsureNode(c, g, a, t), limit)
  {
    if a !in g.nodes {
      AbsentHasNoEdges(g.adjOut, g.adjIn, Wallets(g), a);
    }
    hide Owned, Wallets, Degree;
  }

  lemma EnsureStructure(c: Config, g: GraphState.Graph, a: Addr, t: int)
    requires Structure(c, g)
    ensures Structure(c, EnsureNode(c, g, a, t)) && EnsureNode(c, g, a, t).cex == g.cex
  {
    var g' := EnsureNode(c, g, a, t);
    assert g'.adjOut == g.adjOut && g'.adjIn == g.adjIn;
    EnsureSeeded(c, g, a, t);
    OwnedGrows(g.adjOut, g.adjIn, Wallets(g), Wallets(g'));
    hide Owned, Mirrored, Capped, Seeded, Wallets;
  }

  /** Replacing a node by one that is an exchange as before. */
  lemma UpdateStructure(c: Config, g: GraphState.Graph, a: Addr, n: Node)
    requires Structure(c, g) && a in g.nodes && n.isCex == g.nodes[a].isCex
    ensures Structure(c, g.(nodes := g.nodes[a := n]))
  {
    hide Owned, Mirrored, Capped;
    assert g.nodes[a := n].Keys == g.nodes.Keys;
  }

  /** Replacing a node by one with the same transaction count. */
  lemma UpdateCounted(g: GraphState.Graph, a: Addr, n: Node, limit: nat)
    requires Counted(g, limit) && a in g.nodes && n.txCount == g.nodes[a].txCount
    ensures Counted(g.(nodes := g.nodes[a := n]), limit)
  {
    hide Degree;
  }

  lemma CountTxStructure(c: Config, g: GraphState.Graph, a: Addr)
    requires Structure(c, g) && a in g.nodes
    ensures Structure(c, CountTx(g, a)) && CountTx(g, a).nodes.Keys == g.nodes.Keys
  {
    UpdateStructure(c, g, a, CountTx(g, a).nodes[a]);
    hide Structure;
    assert CountTx(g, a).nodes.Keys == g.nodes.Keys;
  }

  lemma CountTxCounted(g: GraphState.Graph, a: Addr, limit: nat)
    requires Counted(g, limit) && a in g.nodes && limit + 1 < UINT32
    ensures Counted(CountTx(g, a), limit + 1)
  {
    hide Degree;
  }

  lemma ConnectLists(c: Config, g: GraphState.Graph, e: Edge, a: Addr)
    ensures var g' := Connect(c, g, e);
      && (Edges(g'.adjOut, a) == Edges(g.adjOut, a)
          || (a == e.source && Edges(g'.adjOut, a) == Edges(g.adjOut, a) + [e]
              && |Edges(g.adjOut, a)| < c.maxEdgesPerNode))
      && (Edges(g'.adjIn, a) == Edges(g.adjIn, a) || (a == e.target && Edges(g'.adjIn, a) == Edges(g.adjIn, a) + [e]))
  {
  }

  lemma ConnectOwned(c: Config, g: GraphState.Graph, e: Edge, present: set<Addr>)
    requires Owned(g.adjOut, g.adjIn, present) && e.source in present && e.target in present
    ensures Owned(Connect(c, g, e).adjOut, Connect(c, g, e).adjIn, present)
  {
    var g' := Connect(c, g, e);
    hide Connect, Edges;
    forall a: Addr, x: Edge | x in Edges(g'.adjOut, a)
      ensures x.source == a && x.source in present && x.target in present
    {
      ConnectLists(c, g, e, a);
      assert x in Edges(g.adjOut, a) || x == e;
    }
    forall a: Addr, x: Edge | x in Edges(g'.adjIn, a)
      ensures x.target == a && x.source in present && x.target in present
    {
      ConnectLists(c, g, e, a);
      assert x in Edges(g.adjIn, a) || x == e;
    }
  }

  lemma ConnectCapped(c: Config, g: GraphState.Graph, e: Edge)
    requires Capped(g.adjOut, Bound(c.maxEdgesPerNode))
    ensures Capped(Connect(c, g, e).adjOut, Bound(c.maxEdgesPerNode))
  {
    var g' := Connect(c, g, e);
    hide Connect, Edges;
    forall a
      ensures |Edges(g'.adjOut, a)| <= Bound(c.maxEdgesPerNode)
    {
      ConnectLists(c, g, e, a);
    }
  }

  lemma TimesSnoc(es: seq<Edge>, e: Edge, x: Edge)
    ensures Times(es + [e], x) == Times(es, x) + if x == e then 1 else 0
  {
  }

  lemma ConnectMirrored(c: Config, g: GraphState.Graph, e: Edge)
    requires Mirrored(g.adjOut, g.adjIn)
    ensures Mirrored(Connect(c, g, e).adjOut, Connect(c, g, e).adjIn)
  {
    var g' := Connect(c, g, e);
    hide Times;
    forall x: Edge
      ensures Times(Edges(g'.adjOut, x.source), x) == Times(Edges(g'.adjIn, x.target), x)
    {
      TimesSnoc(Edges(g.adjOut, e.source), e, x);
      TimesSnoc(Edges(g.adjIn, e.target), e, x);
      assert Times(Edges(g.adjOut, x.source), x) == Times(Edges(g.adjIn, x.target), x);
    }
  }

  lemma ConnectStructure(c: Config, g: GraphState.Graph, e: Edge)
    requires Structure(c, g) && e.source in Wallets(g) && e.target in Wallets(g)
    ensures Structure(c, Connect(c, g, e))
  {
    ConnectOwned(c, g, e, Wallets(g));
    ConnectMirrored(c, g, e);
    ConnectCapped(c, g, e);
    hide Owned, Mirrored, Capped;
  }

  lemma ConnectDegree(c: Config, g: GraphState.Graph, e: Edge, a: Addr)
    ensures Degree(Connect(c, g, e).adjOut, Connect(c, g, e).adjIn, a)
         <= Degree(g.adjOut, g.adjIn, a) + (if a == e.source then 1 else 0) + (if a == e.target then 1 else 0)
  {
    ConnectLists(c, g, e, a);
  }

  /** Both counters are bumped before the edge is stored, so they still cover the edges: twice for a
      transfer to oneself. */
  lemma ConnectCounted(c: Config, g: GraphState.Graph, e: Edge, limit: nat)
    requires Counted(g, limit) && e.source in g.nodes && e.target in g.nodes && limit + 2 < UINT32
    ensures Counted(Connect(c, CountTx(CountTx(g, e.source), e.target), e), limit + 2)
  {
    hide Degree;
    var g2 := CountTx(CountTx(g, e.source), e.target);
    forall a | a in g.nodes
      ensures Degree(Connect(c, g2, e).adjOut, Connect(c, g2, e).adjIn, a) <= g2.nodes[a].txCount <= limit + 2
    {
      ConnectDegree(c, g2, e, a);
    }
  }

  lemma TransferStructure(c: Config, g: GraphState.Graph, e: Edge)
    requires Structure(c, g)
    ensures Structure(c, AddTransfer(c, g, e).0)
  {
    hide Structure, EnsureNode, CountTx, Connect;
    if !Filtered(c, g, e) {
      var g0 := EnsureNode(c, g, e.source, e.timestamp);
      var g1 := EnsureNode(c, g0, e.target, e.timestamp);
      EnsureStructure(c, g, e.source, e.timestamp);
      EnsureStructure(c, g0, e.target, e.timestamp);
      if e.source in g1.nodes {
        CountTxStructure(c, g1, e.source);
        var g2 := CountTx(g1, e.source);
        if e.target in g2.nodes {
          CountTxStructure(c, g2, e.target);
          CountTxCex(g1, e.source);
          CountTxCex(g2, e.target);
          ConnectStructure(c, CountTx(g2, e.target), e);
        }
      }
    }
  }

  lemma TransferCounted(c: Config, g: GraphState.Graph, e: Edge, limit: nat)
    requires Structure(c, g) && Counted(g, limit) && limit + 2 < UINT32
    ensures Counted(AddTransfer(c, g, e).0, limit + 2)
  {
    hide Structure, Counted, EnsureNode, CountTx, Connect;
    if Filtered(c, g, e) {
      CountedMore(g, limit, limit + 2);
    } else {
      var g0 := EnsureNode(c, g, e.source, e.timestamp);
      var g1 := EnsureNode(c, g0, e.target, e.timestamp);
      EnsureStructure(c, g, e.source, e.timestamp);
      EnsureCounted(c, g, e.source, e.timestamp, limit);
      EnsureCounted(c, g0, e.target, e.timestamp, limit);
      if e.source !in g1.nodes {
        CountedMore(g1, limit, limit + 2);
      } else {
        var g2 := CountTx(g1, e.source);
        CountTxCounted(g1, e.source, limit);
        if e.target !in g2.nodes {
          CountedMore(g2, limit + 1, limit + 2);
        } else {
          CountTxKeys(g1, e.source);
          ConnectCounted(c, g1, e, limit);
        }
      }
    }
  }

  lemma CountTxKeys(g: GraphState.Graph, a: Addr)
    requires a in g.nodes
    ensures CountTx(g, a).nodes.Keys == g.nodes.Keys
  {
  }

  lemma CountedMore(g: GraphState.Graph, limit: nat, more: nat)
    requires Counted(g, limit) && limit <= more
    ensures Counted(g, more)
  {
  }

  lemma CountTxCex(g: GraphState.Graph, a: Addr)
    requires a in g.nodes
    ensures CountTx(g, a).cex == g.cex
  {
  }

  /** Propagation leaves everything but labels alone. */
  lemma PropagateSame(c: Config, g: GraphState.Graph, a: Addr)
    ensures var g' := Propagate(c, g, a);
      && g'.nodes.Keys == g.nodes.Keys && g'.(nodes := g.nodes) == g
      && forall b :: b in g.nodes ==> g'.nodes[b].txCount == g.nodes[b].txCount && g'.nodes[b].isCex == g.nodes[b].isCex
  {
    var g' := Propagate(c, g, a);
    forall b | b in g.nodes
      ensures g'.nodes[b].txCount == g.nodes[b].txCount && g'.nodes[b].isCex == g.nodes[b].isCex
    {
      PropagationOnlyLabels(c, g, a, b);
    }
  }

  lemma PropagateStructure(c: Config, g: GraphState.Graph, a: Addr)
    requires Structure(c, g)
    ensures Structure(c, Propagate(c, g, a))
  {
    PropagateSame(c, g, a);
    hide Propagate, Owned, Mirrored, Capped;
  }

  lemma PropagateCounted(c: Config, g: GraphState.Graph, a: Addr, limit: nat)
    requires Counted(g, limit)
    ensures Counted(Propagate(c, g, a), limit)
  {
    PropagateSame(c, g, a);
    hide Propagate, Degree;
  }

  // ---------------------------------------------------------------------------
  // Eviction
  // ---------------------------------------------------------------------------

  /** No stored edge has exactly one of its ends evicted. */
  ghost predicate WholeEdges(g: GraphState.Graph, cutoff: int) {
    var gone := EvictedFrom(g, cutoff);
    forall e: Edge :: e in Edges(g.adjOut, e.source) ==> (e.source in gone <==> e.target in gone)
  }

  lemma EvictedLists(g: GraphState.Graph, cutoff: int, a: Addr)
    ensures var g', gone := Evict(g, cutoff), EvictedFrom(g, cutoff);
      && Edges(g'.adjOut, a) == (if a in gone then [] else Edges(g.adjOut, a))
      && Edges(g'.adjIn, a) == (if a in gone then [] else Edges(g.adjIn, a))
      && Wallets(g') == Wallets(g) - gone
  {
  }

  /** The incoming lists store the same edges as the outgoing ones. */
  lemma StoredBothWays(adjOut: Adjacency, adjIn: Adjacency, e: Edge)
    requires Mirrored(adjOut, adjIn)
    ensures e in Edges(adjOut, e.source) <==> e in Edges(adjIn, e.target)
  {
    assert Times(Edges(adjOut, e.source), e) == Times(Edges(adjIn, e.target), e);
  }

  lemma WholeKeepsOwned(c: Config, g: GraphState.Graph, cutoff: int)
    requires Structure(c, g) && WholeEdges(g, cutoff)
    ensures Owned(Evict(g, cutoff).adjOut, Evict(g, cutoff).adjIn, Wallets(Evict(g, cutoff)))
  {
    var g', gone := Evict(g, cutoff), EvictedFrom(g, cutoff);
    hide Edges, EvictedFrom, Evict, Wallets, Seeded, Capped, Mirrored;
    forall a: Addr, e: Edge | e in Edges(g'.adjOut, a)
      ensures e.source == a && e.source in Wallets(g') && e.target in Wallets(g')
    {
      EvictedLists(g, cutoff, a);
    }
    forall a: Addr, e: Edge | e in Edges(g'.adjIn, a)
      ensures e.target == a && e.source in Wallets(g') && e.target in Wallets(g')
    {
      EvictedLists(g, cutoff, a);
      StoredBothWays(g.adjOut, g.adjIn, e);
    }
  }

  lemma WholeKeepsMirrored(c: Config, g: GraphState.Graph, cutoff: int)
    requires Mirrored(g.adjOut, g.adjIn) && WholeEdges(g, cutoff)
    ensures Mirrored(Evict(g, cutoff).adjOut, Evict(g, cutoff).adjIn)
  {
    var g' := Evict(g, cutoff);
    hide Edges, EvictedFrom, Evict;
    forall e: Edge
      ensures Times(Edges(g'.adjOut, e.source), e) == Times(Edges(g'.adjIn, e.target), e)
    {
      EvictedLists(g, cutoff, e.source);
      EvictedLists(g, cutoff, e.target);
      StoredBothWays(g.adjOut, g.adjIn, e);
      assert Times(Edges(g.adjOut, e.source), e) == Times(Edges(g.adjIn, e.target), e);
    }
  }

  lemma EvictCapped(g: GraphState.Graph, cutoff: int, cap: nat)
    requires Capped(g.adjOut, cap)
    ensures Capped(Evict(g, cutoff).adjOut, cap)
  {
    hide Edges, EvictedFrom, Evict;
    forall a
      ensures |Edges(Evict(g, cutoff).adjOut, a)| <= cap
    {
      EvictedLists(g, cutoff, a);
    }
  }

  lemma StructureNeedsWhole(c: Config, g: GraphState.Graph, cutoff: int)
    requires Structure(c, g) && Structure(c, Evict(g, cutoff))
    ensures WholeEdges(g, cutoff)
  {
    var g', gone := Evict(g, cutoff), EvictedFrom(g, cutoff);
    hide Edges, EvictedFrom, Evict, Seeded, Capped, Mirrored, Wallets;
    forall e: Edge | e in Edges(g.adjOut, e.source)
      ensures e.source in gone <==> e.target in gone
    {
      EvictedLists(g, cutoff, e.source);
      EvictedLists(g, cutoff, e.target);
      StoredBothWays(g.adjOut, g.adjIn, e);
    }
  }

  /** An eviction keeps the structure exactly when it meets no edge with exactly one evictable end. */
  lemma EvictExactly(c: Config, g: GraphState.Graph, cutoff: int)
    requires Structure(c, g)
    ensures Structure(c, Evict(g, cutoff)) <==> WholeEdges(g, cutoff)
  {
    if WholeEdges(g, cutoff) {
      WholeKeepsOwned(c, g, cutoff);
      WholeKeepsMirrored(c, g, cutoff);
      EvictCapped(g, cutoff, Bound(c.maxEdgesPerNode));
      EvictSeeded(g, cutoff);
      hide Owned, Mirrored, Capped, Seeded, Evict, WholeEdges;
    } else if Structure(c, Evict(g, cutoff)) {
      StructureNeedsWhole(c, g, cutoff);
      assert false;
    }
  }

  lemma WithoutSize(all: set<Addr>, gone: set<Addr>)
    requires gone <= all
    ensures |all - gone| == |all| - |gone|
  {
  }

  lemma EvictSeeded(g: GraphState.Graph, cutoff: int)
    requires Seeded(g)
    ensures Seeded(Evict(g, cutoff))
  {
    WithoutSize(g.nodes.Keys, EvictedFrom(g, cutoff));
    assert Evict(g, cutoff).nodes.Keys == g.nodes.Keys - EvictedFrom(g, cutoff);
  }

  lemma EndsAreCounted(c: Config, g: GraphState.Graph, limit: nat, e: Edge)
    requires Structure(c, g) && Counted(g, limit)
    requires e in Edges(g.adjOut, e.source) || e in Edges(g.adjIn, e.target)
    ensures e.source in Wallets(g) && g.nodes[e.source].txCount > 0
    ensures e.target in Wallets(g) && g.nodes[e.target].txCount > 0
  {
    assert Times(Edges(g.adjOut, e.source), e) == Times(Edges(g.adjIn, e.target), e);
    assert e in Edges(g.adjOut, e.source) && e in Edges(g.adjIn, e.target);
    assert Degree(g.adjOut, g.adjIn, e.source) > 0 && Degree(g.adjOut, g.adjIn, e.target) > 0;
  }

  /** Nodes whose counters cover their edges are evicted only without edges, so no edge is met. */
  lemma CountedIsWhole(c: Config, g: GraphState.Graph, cutoff: int, limit: nat)
    requires Structure(c, g) && Counted(g, limit)
    ensures WholeEdges(g, cutoff)
  {
    hide Structure, Counted, Edges;
    forall e: Edge | e in Edges(g.adjOut, e.source)
      ensures e.source !in EvictedFrom(g, cutoff) && e.target !in EvictedFrom(g, cutoff)
    {
      EndsAreCounted(c, g, limit, e);
    }
  }

  lemma EvictCounted(g: GraphState.Graph, cutoff: int, limit: nat)
    requires Counted(g, limit)
    ensures Counted(Evict(g, cutoff), limit)
  {
    var g' := Evict(g, cutoff);
    forall a | a in g'.nodes
      ensures Degree(g'.adjOut, g'.adjIn, a) <= g'.nodes[a].txCount <= limit
    {
      EvictedLists(g, cutoff, a);
    }
  }

  // ---------------------------------------------------------------------------
  // Any operation
  // ---------------------------------------------------------------------------

  lemma RecordStructure(c: Config, g: GraphState.Graph, op: Op)
    requires Structure(c, g) && !op.Eviction?
    ensures Structure(c, Step(c, g, op))
  {
    hide Structure, EnsureNode, AddTransfer, Propagate, AddLabel;
    match op {
      case Transfer(e) => TransferStructure(c, g, e);
      case Deploy(a, t) =>
        EnsureStructure(c, g, a, t);
        var g1 := EnsureNode(c, g, a, t);
        if a in g1.nodes {
          UpdateStructure(c, g1, a, g1.nodes[a].(deployCount := g1.nodes[a].deployCount + 1));
        }
      case Rug(a, t) =>
        EnsureStructure(c, g, a, t);
        var g1 := EnsureNode(c, g, a, t);
        if a in g1.nodes {
          UpdateStructure(c, g1, a, Rugged(g1.nodes[a]));
        }
      case Insider(a, t) =>
        EnsureStructure(c, g, a, t);
        var g1 := EnsureNode(c, g, a, t);
        if a in g1.nodes {
          UpdateStructure(c, g1, a, g1.nodes[a].(labels := AddLabel(g1.nodes[a].labels, ProfitableInsider)));
        }
      case Propagation(a) => PropagateStructure(c, g, a);
    }
  }

  /** One operation keeps the structure exactly when it does not evict one end of a stored edge. */
  lemma StepExactly(c: Config, g: GraphState.Graph, op: Op)
    requires Structure(c, g)
    ensures Structure(c, Step(c, g, op)) <==> (op.Eviction? ==> WholeEdges(g, op.cutoff))
  {
    hide Structure, WholeEdges;
    if op.Eviction? {
      EvictExactly(c, g, op.cutoff);
    } else {
      RecordStructure(c, g, op);
    }
  }

  lemma StepCounted(c: Config, g: GraphState.Graph, op: Op, limit: nat)
    requires Structure(c, g) && Counted(g, limit) && limit + 2 < UINT32
    ensures Counted(Step(c, g, op), if op.Transfer? then limit + 2 else limit)
  {
    hide Structure, Counted, EnsureNode, AddTransfer, Propagate, Evict, AddLabel;
    match op {
      case Transfer(e) => TransferCounted(c, g, e, limit);
      case Deploy(a, t) =>
        EnsureCounted(c, g, a, t, limit);
        var g1 := EnsureNode(c, g, a, t);
        if a in g1.nodes {
          UpdateCounted(g1, a, g1.nodes[a].(deployCount := g1.nodes[a].deployCount + 1), limit);
        }
      case Rug(a, t) =>
        EnsureCounted(c, g, a, t, limit);
        var g1 := EnsureNode(c, g, a, t);
        if a in g1.nodes {
          UpdateCounted(g1, a, Rugged(g1.nodes[a]), limit);
        }
      case Insider(a, t) =>
        EnsureCounted(c, g, a, t, limit);
        var g1 := EnsureNode(c, g, a, t);
        if a in g1.nodes {
          UpdateCounted(g1, a, g1.nodes[a].(labels := AddLabel(g1.nodes[a].labels, ProfitableInsider)), limit);
        }
      case Propagation(a) => PropagateCounted(c, g, a, limit);
      case Eviction(cutoff) => EvictCounted(g, cutoff, limit);
    }
  }

  lemma InitialGood(c: Config, known: set<Addr>)
    ensures Structure(c, Initial(known)) && Counted(Initial(known), 0)
  {
    assert Initial(known).nodes.Keys == known;
  }

  /** At every moment of the run no edge touches an absent node or an exchange, the lists mirror each other
      and stay within the cap, and the node statistic is right. */
  ghost predicate StructureThroughout(c: Config, start: GraphState.Graph, ops: seq<Op>) {
    Structure(c, Run(c, start, ops)) && (ops != [] ==> StructureThroughout(c, start, ops[..|ops| - 1]))
  }

  /** An eviction that meets an edge with exactly one evictable end. */
  ghost predicate Halves(s: System, op: Op) {
    !s.jammed && op.Eviction? && !WholeEdges(s.graph, op.cutoff)
  }

  ghost predicate NeverHalves(c: Config, start: GraphState.Graph, ops: seq<Op>) {
    ops == [] ||
    (NeverHalves(c, start, ops[..|ops| - 1]) && !Halves(Play(c, start, ops[..|ops| - 1]), ops[|ops| - 1]))
  }

  /** Over every run of any operations, panics included: the structure holds at every moment if and only if no
      eviction meets an edge with exactly one evictable end. */
  lemma {:induction false} StructureExactly(c: Config, start: GraphState.Graph, ops: seq<Op>)
    requires Structure(c, start)
    ensures StructureThroughout(c, start, ops) <==> NeverHalves(c, start, ops)
  {
    if ops != [] {
      var init := ops[..|ops| - 1];
      StructureExactly(c, start, init);
      hide Structure, Step, WholeEdges, Jams;
      if StructureThroughout(c, start, init) {
        StepExactly(c, Run(c, start, init), ops[|ops| - 1]);
      }
    }
  }

  /** From a new engine, up to 2^31 - 2 transfers no counter can wrap, and so it always holds. */
  lemma {:induction false} GraphInvariant(c: Config, known: set<Addr>, ops: seq<Op>)
    requires 2 * Transfers(ops) + 2 < UINT32
    ensures NeverHalves(c, Initial(known), ops) && StructureThroughout(c, Initial(known), ops)
    ensures Counted(Run(c, Initial(known), ops), 2 * Transfers(ops))
  {
    InitialGood(c, known);
    if ops != [] {
      var init, op := ops[..|ops| - 1], ops[|ops| - 1];
      GraphInvariant(c, known, init);
      var g := Run(c, Initial(known), init);
      hide Structure, Step, WholeEdges, Counted, Jams;
      if op.Eviction? {
        CountedIsWhole(c, g, op.cutoff, 2 * Transfers(init));
      }
      StepExactly(c, g, op);
      StepCounted(c, g, op, 2 * Transfers(init));
      CountedMore(g, 2 * Transfers(init), 2 * Transfers(ops));
    }
  }
}
