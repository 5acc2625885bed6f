/** The entity graph (nexus/internal/graph/engine.go) as a value, one function per operation. */
module GraphState {
  import opened Bfs
  import opened Seqs

  datatype Label = Unknown | SerialRugger | ProfitableInsider | WashTrader | SybilCluster | Clean | Cex

  /** `txCount` is an unsigned 32-bit counter. */
  datatype Node = Node(labels: seq<Label>, firstSeen: int, txCount: nat, isCex: bool, deployCount: nat, rugCount: nat)

  datatype TxType = TxType(name: string)

  datatype Edge = Edge(source: Addr, target: Addr, amount: real, timestamp: int, kind: TxType, weight: real)

  datatype Config = Config(
    maxNodes: int, maxEdgesPerNode: int, dustThreshold: real, labelPropDepth: int, highTxThreshold: int)

  datatype Graph = Graph(
    nodes: map<Addr, Node>,
    adjOut: map<Addr, seq<Edge>>,
    adjIn: map<Addr, seq<Edge>>,
    cex: set<Addr>,
    nodeCount: int,
    edgeCount: nat)

  /** A call returns having ignored or recorded its event, or it dereferences a missing node. */
  datatype Outcome = Ignored | Recorded | Panicked

  const UINT32: nat := 0x1_0000_0000

  /** Conversion to uint32, as Go wraps it. */
  function ToUint32(n: int): nat {
    n % UINT32
  }

  function Edges(adj: map<Addr, seq<Edge>>, a: Addr): seq<Edge> {
    if a in adj then adj[a] else []
  }

  // ---------------------------------------------------------------------------
  // Nodes and labels
  // ---------------------------------------------------------------------------

  /** Adding a label twice changes nothing; adding a real one drops UNKNOWN. */
  function AddLabel(labels: seq<Label>, mark: Label): seq<Label> {
    if mark in labels then labels
    else if mark != Unknown then Filter(labels, (l: Label) => l != Unknown) + [mark]
    else labels + [mark]
  }

  function EnsureNode(c: Config, g: Graph, a: Addr, timestamp: int): Graph {
    if a in g.nodes || |g.nodes| >= c.maxNodes then g
    else g.(nodes := g.nodes[a := Node([Unknown], timestamp, 0, a in g.cex, 0, 0)], nodeCount := g.nodeCount + 1)
  }

  function CountTx(g: Graph, a: Addr): Graph
    requires a in g.nodes
  {
    g.(nodes := g.nodes[a := g.nodes[a].(txCount := ToUint32(g.nodes[a].txCount + 1))])
  }

  // ---------------------------------------------------------------------------
  // Operations
  // ---------------------------------------------------------------------------

  function Filtered(c: Config, g: Graph, e: Edge): bool {
    || e.amount < c.dustThreshold
    || e.source in g.cex || e.target in g.cex
    || (e.target in g.nodes && g.nodes[e.target].txCount > ToUint32(c.highTxThreshold))
  }

  function Connect(c: Config, g: Graph, e: Edge): Graph {
    if |Edges(g.adjOut, e.source)| < c.maxEdgesPerNode then
      g.(adjOut := g.adjOut[e.source := Edges(g.adjOut, e.source) + [e]],
         adjIn := g.adjIn[e.target := Edges(g.adjIn, e.target) + [e]],
         edgeCount := g.edgeCount + 1)
    else g
  }

  /** A transfer. At capacity an endpoint may be missing when its counter is bumped. */
  function AddTransfer(c: Config, g: Graph, e: Edge): (Graph, Outcome) {
    if Filtered(c, g, e) then (g, Ignored)
    else
      var g1 := EnsureNode(c, EnsureNode(c, g, e.source, e.timestamp), e.target, e.timestamp);
      if e.source !in g1.nodes then (g1, Panicked)
      else
        var g2 := CountTx(g1, e.source);
        if e.target !in g2.nodes then (g2, Panicked)
        else (Connect(c, CountTx(g2, e.target), e), Recorded)
  }

  function AddDeploy(c: Config, g: Graph, a: Addr, timestamp: int): (Graph, Outcome) {
    var g1 := EnsureNode(c, g, a, timestamp);
    if a !in g1.nodes then (g1, Panicked)
    else (g1.(nodes := g1.nodes[a := g1.nodes[a].(deployCount := g1.nodes[a].deployCount + 1)]), Recorded)
  }

  /** The second rug earns the label. */
  function Rugged(n: Node): Node {
    var m := n.(rugCount := n.rugCount + 1);
    if m.rugCount >= 2 then m.(labels := AddLabel(m.labels, SerialRugger)) else m
  }

  function MarkRug(c: Config, g: Graph, a: Addr, now: int): (Graph, Outcome) {
    var g1 := EnsureNode(c, g, a, now);
    if a !in g1.nodes then (g1, Panicked)
    else (g1.(nodes := g1.nodes[a := Rugged(g1.nodes[a])]), Recorded)
  }

  function MarkInsider(c: Config, g: Graph, a: Addr, now: int): (Graph, Outcome) {
    var g1 := EnsureNode(c, g, a, now);
    if a !in g1.nodes then (g1, Panicked)
    else
      var labels := AddLabel(g1.nodes[a].labels, ProfitableInsider);
      (g1.(nodes := g1.nodes[a := g1.nodes[a].(labels := labels)]), Recorded)
  }

  predicate Evictable(n: Node, cutoff: int) {
    !n.isCex && n.firstSeen < cutoff && n.txCount == 0
  }

  function EvictedFrom(g: Graph, cutoff: int): set<Addr> {
    set a | a in g.nodes && Evictable(g.nodes[a], cutoff)
  }

  function Evict(g: Graph, cutoff: int): Graph {
    var gone := EvictedFrom(g, cutoff);
    g.(nodes := g.nodes - gone, adjOut := g.adjOut - gone, adjIn := g.adjIn - gone, nodeCount := g.nodeCount - |gone|)
  }

  // ---------------------------------------------------------------------------
  // Label propagation
  // ---------------------------------------------------------------------------

  function Targets(es: seq<Edge>): (r: seq<Addr>)
    ensures |r| == |es|
  {
    seq(|es|, i requires 0 <= i < |es| => es[i].target)
  }

  function Sources(es: seq<Edge>): (r: seq<Addr>)
    ensures |r| == |es|
  {
    seq(|es|, i requires 0 <= i < |es| => es[i].source)
  }

  /** The links that label propagation follows: outgoing edges. */
  function OutLinks(g: Graph): Bfs.Graph {
    map a | a in g.adjOut :: Targets(g.adjOut[a])
  }

  /** The links that a deployer query follows: outgoing edges, then incoming ones. */
  function AllLinks(g: Graph): Bfs.Graph {
    map a | a in g.adjOut.Keys + g.adjIn.Keys :: Targets(Edges(g.adjOut, a)) + Sources(Edges(g.adjIn, a))
  }

  /** The number of direct edges between the two, which the source calls paths. */
  function CountPaths(g: Graph, a: Addr, b: Addr): nat {
    |Filter(Edges(g.adjOut, a), (e: Edge) => e.target == b)|
  }

  function Bound(limit: int): nat {
    if limit < 0 then 0 else limit
  }

  /** What propagation asks of a visited neighbour before it labels it. */
  predicate Confirmed(g: Graph, source: Addr, a: Addr) {
    && a in g.nodes && !g.nodes[a].isCex
    && (Clean in g.nodes[a].labels ==> CountPaths(g, source, a) >= 2)
  }

  ghost predicate Eligible(c: Config, g: Graph, source: Addr, a: Addr) {
    a != source && a in Within(OutLinks(g), source, Bound(c.labelPropDepth)) && Confirmed(g, source, a)
  }

  function Branded(n: Node): Node {
    n.(labels := AddLabel(n.labels, SerialRugger))
  }

  ghost function Propagate(c: Config, g: Graph, source: Addr): Graph {
    if source !in g.nodes || SerialRugger !in g.nodes[source].labels then g
    else g.(nodes := map a | a in g.nodes :: if Eligible(c, g, source, a) then Branded(g.nodes[a]) else g.nodes[a])
  }

  lemma AddLabelMembers(labels: seq<Label>, mark: Label)
    ensures forall l :: l in AddLabel(labels, mark) <==>
      (l == mark || (l in labels && (l != Unknown || mark == Unknown || mark in labels)))
  {
    FilterMembers(labels, (l: Label) => l != Unknown);
  }

  /** Propagation marks exactly the nodes some walk of outgoing edges of length one to the depth limit
      leads to, other than exchanges and nodes marked CLEAN that have fewer than two direct edges from
      the source; and it marks nothing unless the source is marked. */
  lemma PropagationReaches(c: Config, g: Graph, source: Addr, a: Addr)
    requires source in g.nodes && a in g.nodes
    ensures Propagate(c, g, source).nodes.Keys == g.nodes.Keys
    ensures SerialRugger in Propagate(c, g, source).nodes[a].labels <==>
      (|| SerialRugger in g.nodes[a].labels
       || (&& SerialRugger in g.nodes[source].labels
           && a != source && !g.nodes[a].isCex
           && (exists p :: WalkBetween(OutLinks(g), source, a, p) && |p| <= Bound(c.labelPropDepth) + 1)
           && (Clean in g.nodes[a].labels ==> CountPaths(g, source, a) >= 2)))
  {
    WithinIsWalk(OutLinks(g), source, Bound(c.labelPropDepth), a);
    AddLabelMembers(g.nodes[a].labels, SerialRugger);
  }

  /** Nothing but labels changes. */
  lemma PropagationOnlyLabels(c: Config, g: Graph, source: Addr, a: Addr)
    requires a in g.nodes
    ensures var g' := Propagate(c, g, source);
      && g'.(nodes := g.nodes) == g
      && a in g'.nodes && g'.nodes[a].(labels := g.nodes[a].labels) == g.nodes[a]
      && (Clean in g'.nodes[a].labels <==> Clean in g.nodes[a].labels)
  {
    AddLabelMembers(g.nodes[a].labels, SerialRugger);
  }

  /** Propagating again changes nothing. */
  lemma PropagationIdempotent(c: Config, g: Graph, source: Addr)
    ensures Propagate(c, Propagate(c, g, source), source) == Propagate(c, g, source)
  {
    var g' := Propagate(c, g, source);
    forall a | a in g.nodes
      ensures Eligible(c, g', source, a) <==> Eligible(c, g, source, a)
      ensures SerialRugger in Branded(g.nodes[a]).labels
    {
      PropagationOnlyLabels(c, g, source, a);
      AddLabelMembers(g.nodes[a].labels, SerialRugger);
    }
    assert g'.nodes == Propagate(c, g', source).nodes;
  }

  /** The comment asks for two paths before a CLEAN node is marked. The code counts parallel direct
      edges: a CLEAN node with no direct edge from the source is never marked, over however many
      separate paths the source reaches it. */
  lemma CleanNeedsDirectEdges(c: Config, g: Graph, source: Addr, a: Addr)
    requires source in g.nodes && a in g.nodes && a != source
    requires Clean in g.nodes[a].labels && SerialRugger !in g.nodes[a].labels
    requires !Link(OutLinks(g), source, a)
    ensures SerialRugger !in Propagate(c, g, source).nodes[a].labels
  {
    var es := Edges(g.adjOut, source);
    forall e | e in es
      ensures e.target != a
    {
      var i :| 0 <= i < |es| && es[i] == e;
      assert Targets(es)[i] == e.target;
    }
    FilterNone(es, (e: Edge) => e.target == a);
    PropagationReaches(c, g, source, a);
  }

  /** A plain transfer of one unit. */
  function MakeTransfer(u: Addr, v: Addr): Edge {
    Edge(u, v, 1.0, 0, TxType("transfer"), 1.0)
  }
}
