/** What each operation on the entity graph does, read off the graphs before and after it. */
module GraphLaws {
  import opened Bfs
  import opened GraphState
  import opened Seqs

  // ---------------------------------------------------------------------------
  // Transfers
  // ---------------------------------------------------------------------------

  /** Dust, a transfer from or to an exchange, and one to a wallet that has seen too many are not recorded. */
  ghost predicate Unwanted(c: Config, g: GraphState.Graph, e: Edge) {
    || e.amount < c.dustThreshold
    || e.source in g.cex || e.target in g.cex
    || (e.target in g.nodes && g.nodes[e.target].txCount > c.highTxThreshold % 0x1_0000_0000)
  }

  /** The ends that the transfer would bring into the graph. */
  function Missing(g: GraphState.Graph, e: Edge): set<Addr> {
    {e.source, e.target} - g.nodes.Keys
  }

  /** There is room for the ends that are not in the graph yet. */
  ghost predicate HasRoom(c: Config, g: GraphState.Graph, e: Edge) {
    Missing(g, e) == {} || |g.nodes| + |Missing(g, e)| <= c.maxNodes
  }

  /** The graph as it was but for a list of outgoing and a list of incoming edges, which end in this edge. */
  ghost predicate Stored(g: GraphState.Graph, g': GraphState.Graph, e: Edge) {
    && Edges(g'.adjOut, e.source) == Edges(g.adjOut, e.source) + [e]
    && Edges(g'.adjIn, e.target) == Edges(g.adjIn, e.target) + [e]
    && (forall a :: a != e.source ==> Edges(g'.adjOut, a) == Edges(g.adjOut, a))
    && (forall a :: a != e.target ==> Edges(g'.adjIn, a) == Edges(g.adjIn, a))
    && g'.edgeCount == g.edgeCount + 1
  }

  ghost predicate SameEdges(g: GraphState.Graph, g': GraphState.Graph) {
    g'.adjOut == g.adjOut && g'.adjIn == g.adjIn && g'.edgeCount == g.edgeCount
  }

  /** The node at `a`, or the one that is made for it. */
  function NodeFor(g: GraphState.Graph, a: Addr, timestamp: int): Node {
    if a in g.nodes then g.nodes[a]
    else Node(labels := [Unknown], firstSeen := timestamp, txCount := 0, isCex := a in g.cex,
              deployCount := 0, rugCount := 0)
  }

  /** A counter after `more` transactions; it wraps at 2^32. */
  function Bumped(n: Node, more: nat): Node {
    n.(txCount := (n.txCount + more) % 0x1_0000_0000)
  }

  /** Both ends are in the graph and have counted the transfer, twice if it was to its own source. */
  ghost predicate EndsCounted(g: GraphState.Graph, g': GraphState.Graph, e: Edge) {
    && g'.nodes.Keys == g.nodes.Keys + {e.source, e.target}
    && g'.nodes[e.source] == Bumped(NodeFor(g, e.source, e.timestamp), if e.source == e.target then 2 else 1)
    && (e.target != e.source ==> g'.nodes[e.target] == Bumped(NodeFor(g, e.target, e.timestamp), 1))
    && (forall a :: a in g.nodes && a != e.source && a != e.target ==> g'.nodes[a] == g.nodes[a])
    && g'.nodeCount == g.nodeCount + |Missing(g, e)|
  }

  /** Only the source may have found room, and counted the transfer, before the target was missed. */
  ghost predicate SourceOnly(c: Config, g: GraphState.Graph, g': GraphState.Graph, e: Edge) {
    g'.nodes == if e.source in g.nodes || |g.nodes| < c.maxNodes
                then g.nodes[e.source := Bumped(NodeFor(g, e.source, e.timestamp), 1)] else g.nodes
  }

  /** What a transfer does. */
  ghost predicate TransferDone(c: Config, g: GraphState.Graph, g': GraphState.Graph, e: Edge, r: Outcome) {
    && (r.Ignored? <==> Unwanted(c, g, e))
    && (r.Recorded? <==> !Unwanted(c, g, e) && HasRoom(c, g, e))
    && g'.cex == g.cex
    && (r.Ignored? ==> g' == g)
    && (r.Panicked? ==> SameEdges(g, g') && SourceOnly(c, g, g', e))
    && (r.Recorded? ==> EndsCounted(g, g', e))
    && (r.Recorded? ==>
          if |Edges(g.adjOut, e.source)| < c.maxEdgesPerNode then Stored(g, g', e) else SameEdges(g, g'))
  }

  /** Nothing but the nodes may be different. */
  ghost predicate SameButNodes(g: GraphState.Graph, g': GraphState.Graph) {
    SameEdges(g, g') && g'.cex == g.cex
  }

  lemma EnsureIs(c: Config, g: GraphState.Graph, a: Addr, timestamp: int)
    ensures var g' := EnsureNode(c, g, a, timestamp);
      && SameButNodes(g, g')
      && (a in g'.nodes <==> a in g.nodes || |g.nodes| < c.maxNodes)
      && (a in g'.nodes ==>
            && g'.nodes == g.nodes[a := NodeFor(g, a, timestamp)]
            && g'.nodeCount == g.nodeCount + if a in g.nodes then 0 else 1)
      && (a !in g'.nodes ==> g' == g)
  {
    assert a in g.nodes ==> g.nodes[a := g.nodes[a]] == g.nodes;
  }

  lemma PairWithout(x: Addr, y: Addr, s: set<Addr>)
    ensures |{x, y} - s| == (if x in s then 0 else 1) + if y in s || y == x then 0 else 1
  {
    var rest := {x, y} - s;
    if x in s {
      assert rest == if y in s then {} else {y};
    } else if y in s || y == x {
      assert rest == {x};
    } else {
      assert rest == {x, y} && rest - {x} == {y};
    }
  }

  /** Both ends are ensured exactly if there is room for them. */
  lemma EndsFit(c: Config, g: GraphState.Graph, e: Edge)
    ensures var g1 := EnsureNode(c, EnsureNode(c, g, e.source, e.timestamp), e.target, e.timestamp);
      e.source in g1.nodes && e.target in g1.nodes <==> HasRoom(c, g, e)
  {
    PairWithout(e.source, e.target, g.nodes.Keys);
    var g0 := EnsureNode(c, g, e.source, e.timestamp);
    assert |g.nodes.Keys| == |g.nodes| && |g0.nodes.Keys| == |g0.nodes|;
    assert e.source !in g.nodes && e.source in g0.nodes ==> g0.nodes.Keys == g.nodes.Keys + {e.source};
    var need := Missing(g, e);
    assert need == {} <==> |need| == 0;
    hide Missing;
  }

  ghost predicate BothIn(g: GraphState.Graph, g': GraphState.Graph, e: Edge) {
    g'.nodes == g.nodes[e.source := NodeFor(g, e.source, e.timestamp)][e.target := NodeFor(g, e.target, e.timestamp)]
  }

  /** The nodes after both ends were ensured. */
  lemma EndsAre(c: Config, g: GraphState.Graph, e: Edge)
    ensures var g1 := EnsureNode(c, EnsureNode(c, g, e.source, e.timestamp), e.target, e.timestamp);
      && SameButNodes(g, g1)
      && (e.source in g1.nodes && e.target in g1.nodes ==> BothIn(g, g1, e))
  {
    var g0 := EnsureNode(c, g, e.source, e.timestamp);
    EnsureIs(c, g, e.source, e.timestamp);
    EnsureIs(c, g0, e.target, e.timestamp);
    hide EnsureNode;
  }

  lemma EndsNumber(c: Config, g: GraphState.Graph, e: Edge)
    ensures var g1 := EnsureNode(c, EnsureNode(c, g, e.source, e.timestamp), e.target, e.timestamp);
      e.source in g1.nodes && e.target in g1.nodes ==> g1.nodeCount == g.nodeCount + |Missing(g, e)|
  {
    PairWithout(e.source, e.target, g.nodes.Keys);
  }

  lemma CountsAre(g: GraphState.Graph, e: Edge)
    requires e.source in g.nodes && e.target in g.nodes
    ensures var g' := CountTx(CountTx(g, e.source), e.target);
      && g'.(nodes := g.nodes) == g && g'.nodes.Keys == g.nodes.Keys
      && g'.nodes[e.source] == Bumped(g.nodes[e.source], if e.source == e.target then 2 else 1)
      && (e.target != e.source ==> g'.nodes[e.target] == Bumped(g.nodes[e.target], 1))
      && (forall a :: a in g.nodes && a != e.source && a != e.target ==> g'.nodes[a] == g.nodes[a])
  {
    var n := g.nodes[e.source].txCount;
    assert ((n + 1) % 0x1_0000_0000 + 1) % 0x1_0000_0000 == (n + 2) % 0x1_0000_0000;
  }

  lemma ConnectIs(c: Config, g: GraphState.Graph, e: Edge)
    ensures var g' := Connect(c, g, e);
      && g'.nodes == g.nodes && g'.cex == g.cex && g'.nodeCount == g.nodeCount
      && if |Edges(g.adjOut, e.source)| < c.maxEdgesPerNode then Stored(g, g', e) else SameEdges(g, g')
  {
  }

  lemma FilteredIs(c: Config, g: GraphState.Graph, e: Edge)
    ensures Filtered(c, g, e) <==> Unwanted(c, g, e)
  {
  }

  lemma CountChangesNodes(g: GraphState.Graph, g1: GraphState.Graph, a: Addr)
    requires SameButNodes(g, g1) && a in g1.nodes
    ensures SameButNodes(g, CountTx(g1, a)) && CountTx(g1, a).nodes.Keys == g1.nodes.Keys
  {
  }

  /** A transfer that misses one of its ends. */
  lemma PanickedIs(c: Config, g: GraphState.Graph, e: Edge)
    ensures var g1 := EnsureNode(c, EnsureNode(c, g, e.source, e.timestamp), e.target, e.timestamp);
      && (e.source !in g1.nodes ==> SourceOnly(c, g, g1, e))
      && (e.source in g1.nodes && e.target !in g1.nodes ==> SourceOnly(c, g, CountTx(g1, e.source), e))
  {
    var g0 := EnsureNode(c, g, e.source, e.timestamp);
    EnsureIs(c, g, e.source, e.timestamp);
    EnsureIs(c, g0, e.target, e.timestamp);
    assert e.target in g0.nodes ==> g0.nodes[e.target := NodeFor(g0, e.target, e.timestamp)] == g0.nodes;
    hide EnsureNode, NodeFor;
    var n := NodeFor(g, e.source, e.timestamp);
    if e.source in g0.nodes {
      assert CountTx(g0, e.source).nodes == g0.nodes[e.source := Bumped(n, 1)];
      assert g.nodes[e.source := n][e.source := Bumped(n, 1)] == g.nodes[e.source := Bumped(n, 1)];
    }
  }

  /** A transfer once both its ends are in the graph. */
  lemma RecordedIs(c: Config, g: GraphState.Graph, g1: GraphState.Graph, e: Edge)
    requires e.source in g1.nodes && e.target in g1.nodes
    requires SameButNodes(g, g1)
    requires BothIn(g, g1, e)
    requires g1.nodeCount == g.nodeCount + |Missing(g, e)|
    ensures e.target in CountTx(g1, e.source).nodes
    ensures var g' := Connect(c, CountTx(CountTx(g1, e.source), e.target), e);
      && g'.cex == g.cex && EndsCounted(g, g', e)
      && if |Edges(g.adjOut, e.source)| < c.maxEdgesPerNode then Stored(g, g', e) else SameEdges(g, g')
  {
    hide Missing, NodeFor, Bumped;
    CountsAre(g1, e);
    ConnectIs(c, CountTx(CountTx(g1, e.source), e.target), e);
    hide CountTx, Connect, Edges;
  }

  /** Which transfers are recorded, and what that stores: below the cap of its source the edge is appended to the
      source's outgoing and to the target's incoming list, and no other list changes; at the cap none does. */
  lemma TransferIs(c: Config, g: GraphState.Graph, e: Edge)
    ensures TransferDone(c, g, AddTransfer(c, g, e).0, e, AddTransfer(c, g, e).1)
  {
    var g1 := EnsureNode(c, EnsureNode(c, g, e.source, e.timestamp), e.target, e.timestamp);
    FilteredIs(c, g, e);
    EndsAre(c, g, e);
    EndsFit(c, g, e);
    EndsNumber(c, g, e);
    PanickedIs(c, g, e);
    if e.source in g1.nodes {
      CountChangesNodes(g, g1, e.source);
    }
    hide EnsureNode, HasRoom, Missing, Unwanted, Filtered, Connect, EndsCounted, Stored, NodeFor, Edges, CountTx;
    hide SourceOnly, BothIn;
    if e.source in g1.nodes && e.target in g1.nodes {
      RecordedIs(c, g, g1, e);
    }
  }

  /** So a recorded transfer below the cap links its ends both ways. */
  lemma StoredLinks(g: GraphState.Graph, g': GraphState.Graph, e: Edge)
    requires Stored(g, g', e)
    ensures Link(OutLinks(g'), e.source, e.target)
    ensures Link(AllLinks(g'), e.source, e.target) && Link(AllLinks(g'), e.target, e.source)
  {
    var sent, received := Edges(g'.adjOut, e.source), Edges(g'.adjIn, e.target);
    assert sent[|sent| - 1] == e && received[|received| - 1] == e;
    assert Targets(sent)[|sent| - 1] == e.target;
    assert Sources(received)[|received| - 1] == e.source;
    assert e.source in g'.adjOut && e.target in g'.adjIn;
  }

  lemma TargetIn(es: seq<Edge>, b: Addr)
    ensures b in Targets(es) <==> exists e :: e in es && e.target == b
  {
    if e :| e in es && e.target == b {
      var i :| 0 <= i < |es| && es[i] == e;
      assert Targets(es)[i] == b;
    }
  }

  lemma SourceIn(es: seq<Edge>, b: Addr)
    ensures b in Sources(es) <==> exists e :: e in es && e.source == b
  {
    if e :| e in es && e.source == b {
      var i :| 0 <= i < |es| && es[i] == e;
      assert Sources(es)[i] == b;
    }
  }

  /** Propagation follows exactly the stored outgoing edges, and a query the incoming ones too. */
  lemma LinksAre(g: GraphState.Graph, a: Addr, b: Addr)
    ensures Link(OutLinks(g), a, b) <==> exists e :: e in Edges(g.adjOut, a) && e.target == b
    ensures Link(AllLinks(g), a, b) <==>
      ((exists e :: e in Edges(g.adjOut, a) && e.target == b) || exists e :: e in Edges(g.adjIn, a) && e.source == b)
  {
    TargetIn(Edges(g.adjOut, a), b);
    SourceIn(Edges(g.adjIn, a), b);
    hide Targets, Sources;
  }

  /** What is counted before a CLEAN node is marked: the stored edges from the one to the other. */
  lemma PathsAreEdges(g: GraphState.Graph, a: Addr, b: Addr)
    ensures CountPaths(g, a, b) == |set i | 0 <= i < |Edges(g.adjOut, a)| && Edges(g.adjOut, a)[i].target == b|
  {
    var es, keep := Edges(g.adjOut, a), (e: Edge) => e.target == b;
    FilterCount(es, keep);
    assert Positions(es, keep) == set i | 0 <= i < |es| && es[i].target == b;
  }

  // ---------------------------------------------------------------------------
  // Marks and deploys
  // ---------------------------------------------------------------------------

  /** One node is put in place of `a`, which is made if there is room, and nothing else changes. */
  ghost predicate Replaced(c: Config, g: GraphState.Graph, g': GraphState.Graph, a: Addr, timestamp: int, n: Node,
                           r: Outcome)
  {
    if a in g.nodes || |g.nodes| < c.maxNodes then
      && r.Recorded?
      && g' == g.(nodes := g.nodes[a := n], nodeCount := g.nodeCount + if a in g.nodes then 0 else 1)
    else r.Panicked? && g' == g
  }

  lemma DeployIs(c: Config, g: GraphState.Graph, a: Addr, timestamp: int)
    ensures var n := NodeFor(g, a, timestamp);
      Replaced(c, g, AddDeploy(c, g, a, timestamp).0, a, timestamp, n.(deployCount := n.deployCount + 1),
               AddDeploy(c, g, a, timestamp).1)
  {
  }

  /** A rug adds one to the wallet's count, and nothing else but the label, which it has afterwards exactly if it
      had it, or another rug, before. */
  lemma RugIs(c: Config, g: GraphState.Graph, a: Addr, now: int)
    ensures var n, g', r := NodeFor(g, a, now), MarkRug(c, g, a, now).0, MarkRug(c, g, a, now).1;
      && (r.Recorded? ==> a in g'.nodes)
      && (r.Recorded? ==> var n' := g'.nodes[a];
            && n' == n.(rugCount := n.rugCount + 1, labels := n'.labels)
            && (SerialRugger in n'.labels <==> SerialRugger in n.labels || n.rugCount >= 1)
            && (forall l :: l != SerialRugger && l != Unknown ==> (l in n'.labels <==> l in n.labels))
            && (Unknown in n'.labels <==> Unknown in n.labels && (n.rugCount >= 1 ==> SerialRugger in n.labels)))
      && Replaced(c, g, g', a, now, if a in g'.nodes then g'.nodes[a] else n, r)
  {
    AddLabelMembers(NodeFor(g, a, now).labels, SerialRugger);
  }

  lemma InsiderIs(c: Config, g: GraphState.Graph, a: Addr, now: int)
    ensures var n, g', r := NodeFor(g, a, now), MarkInsider(c, g, a, now).0, MarkInsider(c, g, a, now).1;
      && (r.Recorded? ==> a in g'.nodes)
      && (r.Recorded? ==> var n' := g'.nodes[a];
            && n' == n.(labels := n'.labels)
            && (forall l :: l in n'.labels <==>
                  l == ProfitableInsider || (l in n.labels && (l != Unknown || ProfitableInsider in n.labels))))
      && Replaced(c, g, g', a, now, if a in g'.nodes then g'.nodes[a] else n, r)
  {
    AddLabelMembers(NodeFor(g, a, now).labels, ProfitableInsider);
  }

  // ---------------------------------------------------------------------------
  // Evictions
  // ---------------------------------------------------------------------------

  /** An eviction removes exactly the wallets that are no exchange, were first seen before the cutoff and have no
      transaction, and their own lists; it leaves the others, and their lists, as they were. */
  lemma EvictIs(g: GraphState.Graph, cutoff: int, a: Addr)
    ensures var g' := Evict(g, cutoff);
      && (a in g'.nodes <==>
            a in g.nodes && (g.nodes[a].isCex || g.nodes[a].firstSeen >= cutoff || g.nodes[a].txCount > 0))
      && (a in g'.nodes ==> g'.nodes[a] == g.nodes[a])
      && (a in g.nodes && a !in g'.nodes ==> a !in g'.adjOut && a !in g'.adjIn)
      && (a in g'.nodes || a !in g.nodes ==>
            Edges(g'.adjOut, a) == Edges(g.adjOut, a) && Edges(g'.adjIn, a) == Edges(g.adjIn, a))
      && g'.cex == g.cex && g'.edgeCount == g.edgeCount
  {
  }

  /** The node statistic goes down by the number of those wallets. */
  lemma EvictCounts(g: GraphState.Graph, cutoff: int)
    ensures g.nodeCount - Evict(g, cutoff).nodeCount == |g.nodes.Keys - Evict(g, cutoff).nodes.Keys|
  {
    assert g.nodes.Keys - Evict(g, cutoff).nodes.Keys == EvictedFrom(g, cutoff);
  }
}
