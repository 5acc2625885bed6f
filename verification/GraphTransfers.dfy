/** What the graph holds of the transfers and the marks of a whole run. */
module GraphTransfers {
  import opened Bfs
  import opened GraphState
  import opened GraphLaws
  import opened GraphRuns

  // ---------------------------------------------------------------------------
  // Transfers
  // ---------------------------------------------------------------------------

  /** The call is a transfer that is wanted, and there is room for its ends. */
  ghost predicate Takes(c: Config, s: System, op: Op) {
    !s.jammed && op.Transfer? && !Unwanted(c, s.graph, op.edge) && HasRoom(c, s.graph, op.edge)
  }

  /** The transfers from a wallet that were recorded, in order. */
  ghost function SentBy(c: Config, start: GraphState.Graph, ops: seq<Op>, a: Addr): seq<Edge> {
    if ops == [] then []
    else
      var init, op := ops[..|ops| - 1], ops[|ops| - 1];
      SentBy(c, start, init, a) +
      if Takes(c, Play(c, start, init), op) && op.edge.source == a then [op.edge] else []
  }

  /** The transfers to a wallet that were recorded while their own sources were below the cap. */
  ghost function ReceivedBy(c: Config, start: GraphState.Graph, ops: seq<Op>, a: Addr): seq<Edge> {
    if ops == [] then []
    else
      var init, op := ops[..|ops| - 1], ops[|ops| - 1];
      ReceivedBy(c, start, init, a) +
      if Takes(c, Play(c, start, init), op) && op.edge.target == a
         && |SentBy(c, start, init, op.edge.source)| < c.maxEdgesPerNode then [op.edge] else []
  }

  function First(es: seq<Edge>, n: nat): seq<Edge> {
    if |es| <= n then es else es[..n]
  }

  predicate NoEvictions(ops: seq<Op>) {
    forall i :: 0 <= i < |ops| ==> !ops[i].Eviction?
  }

  /** Nothing is evicted, or no counter has wrapped. */
  predicate Lasting(ops: seq<Op>) {
    NoEvictions(ops) || 2 * GraphRuns.Transfers(ops) + 2 < UINT32
  }

  /** The lists of every wallet are the same in both. */
  ghost predicate SameLists(g: GraphState.Graph, g': GraphState.Graph) {
    forall a :: Edges(g'.adjOut, a) == Edges(g.adjOut, a) && Edges(g'.adjIn, a) == Edges(g.adjIn, a)
  }

  lemma EvictSameLists(c: Config, g: GraphState.Graph, cutoff: int, limit: nat)
    requires Counted(g, limit)
    ensures SameLists(g, Evict(g, cutoff))
  {
    var g' := Evict(g, cutoff);
    forall a
      ensures Edges(g'.adjOut, a) == Edges(g.adjOut, a) && Edges(g'.adjIn, a) == Edges(g.adjIn, a)
    {
      EvictIs(g, cutoff, a);
      if a in g.nodes && a !in g'.nodes {
        assert Degree(g.adjOut, g.adjIn, a) == 0;
      }
    }
  }

  lemma OthersSameLists(c: Config, g: GraphState.Graph, op: Op)
    requires !op.Transfer? && !op.Eviction?
    ensures SameLists(g, Step(c, g, op))
  {
    match op {
      case Deploy(a, t) => DeployIs(c, g, a, t);
      case Rug(a, now) => RugIs(c, g, a, now);
      case Insider(a, now) => InsiderIs(c, g, a, now);
      case Propagation(a) => PropagateSame(c, g, a);
    }
    hide Edges, AddDeploy, MarkRug, MarkInsider, Propagate;
  }

  lemma QuietSameLists(c: Config, known: set<Addr>, ops: seq<Op>, op: Op)
    requires !op.Transfer? && (op.Eviction? ==> 2 * GraphRuns.Transfers(ops) + 2 < UINT32)
    ensures var g := Run(c, Initial(known), ops); SameLists(g, Step(c, g, op))
  {
    var g := Run(c, Initial(known), ops);
    hide Run, SameLists;
    if op.Eviction? {
      GraphInvariant(c, known, ops);
      EvictSameLists(c, g, op.cutoff, 2 * GraphRuns.Transfers(ops));
    } else {
      OthersSameLists(c, g, op);
    }
  }

  /** A transfer appends to the two lists or leaves every list as it is. */
  lemma TransferLists(c: Config, s: System, e: Edge)
    requires !s.jammed
    ensures var g' := AddTransfer(c, s.graph, e).0;
      if Takes(c, s, Transfer(e)) && |Edges(s.graph.adjOut, e.source)| < c.maxEdgesPerNode then Stored(s.graph, g', e)
      else SameLists(s.graph, g')
  {
    TransferIs(c, s.graph, e);
    hide AddTransfer, Unwanted, HasRoom, EndsCounted;
  }

  /** What the graph keeps of the run: of every wallet the first recorded transfers, up to the cap, in order, and
      of all that were sent to it those that were kept. */
  ghost predicate Keeps(c: Config, start: GraphState.Graph, ops: seq<Op>) {
    var g := Run(c, start, ops);
    forall a ::
      && Edges(g.adjOut, a) == First(SentBy(c, start, ops, a), Bound(c.maxEdgesPerNode))
      && Edges(g.adjIn, a) == ReceivedBy(c, start, ops, a)
  }

  /** Over every run of any operations from a new engine in which nothing is evicted or no counter has wrapped: the
      outgoing list of a wallet is its recorded transfers, the first ones up to the cap, in order; and its incoming
      list is the transfers to it that were kept. */
  lemma {:induction false} TransfersKept(c: Config, known: set<Addr>, ops: seq<Op>)
    requires Lasting(ops)
    ensures Keeps(c, Initial(known), ops)
  {
    if ops != [] {
      var init, op, start := ops[..|ops| - 1], ops[|ops| - 1], Initial(known);
      var s := Play(c, start, init);
      assert NoEvictions(ops) ==> NoEvictions(init);
      TransfersKept(c, known, init);
      forall a
        ensures var g := Run(c, start, ops);
          && Edges(g.adjOut, a) == First(SentBy(c, start, ops, a), Bound(c.maxEdgesPerNode))
          && Edges(g.adjIn, a) == ReceivedBy(c, start, ops, a)
      {
        LastOut(c, known, ops, a);
        LastIn(c, known, ops, a);
      }
    }
  }

  /** Whether the last call stores its edge. */
  ghost predicate Appends(c: Config, s: System, op: Op) {
    Takes(c, s, op) && |Edges(s.graph.adjOut, op.edge.source)| < c.maxEdgesPerNode
  }

  lemma LastLists(c: Config, known: set<Addr>, ops: seq<Op>)
    requires ops != [] && Lasting(ops)
    ensures var s, op, g := Play(c, Initial(known), ops[..|ops| - 1]), ops[|ops| - 1], Run(c, Initial(known), ops);
      if Appends(c, s, op) then Stored(s.graph, g, op.edge) else SameLists(s.graph, g)
  {
    var init, op := ops[..|ops| - 1], ops[|ops| - 1];
    var s := Play(c, Initial(known), init);
    hide Unwanted, HasRoom, Stored, SameLists, Edges, AddTransfer;
    if s.jammed {
      AllSame(s.graph);
    } else if op.Transfer? {
      TransferLists(c, s, op.edge);
    } else {
      QuietSameLists(c, known, init, op);
    }
  }

  lemma AllSame(g: GraphState.Graph)
    ensures SameLists(g, g)
  {
  }

  lemma FirstOfMore(es: seq<Edge>, e: Edge, cap: int)
    ensures First(es + [e], Bound(cap)) == First(es, Bound(cap)) + if |First(es, Bound(cap))| < cap then [e] else []
    ensures |First(es, Bound(cap))| < cap <==> |es| < cap
  {
  }

  lemma LastOut(c: Config, known: set<Addr>, ops: seq<Op>, a: Addr)
    requires ops != [] && Lasting(ops) && Keeps(c, Initial(known), ops[..|ops| - 1])
    ensures Edges(Run(c, Initial(known), ops).adjOut, a)
         == First(SentBy(c, Initial(known), ops, a), Bound(c.maxEdgesPerNode))
  {
    var init, op, start := ops[..|ops| - 1], ops[|ops| - 1], Initial(known);
    var s := Play(c, start, init);
    LastLists(c, known, ops);
    var sent := SentBy(c, start, init, a);
    assert Edges(s.graph.adjOut, a) == First(sent, Bound(c.maxEdgesPerNode));
    assert SentBy(c, start, ops, a) == sent + if Takes(c, s, op) && op.edge.source == a then [op.edge] else [] by {
      hide Takes, Play;
    }
    if op.Transfer? {
      FirstOfMore(sent, op.edge, c.maxEdgesPerNode);
    }
    assert sent + [] == sent;
    hide Play, Edges, Takes, Lasting, First, SentBy, ReceivedBy, Keeps;
  }

  lemma LastIn(c: Config, known: set<Addr>, ops: seq<Op>, a: Addr)
    requires ops != [] && Lasting(ops) && Keeps(c, Initial(known), ops[..|ops| - 1])
    ensures Edges(Run(c, Initial(known), ops).adjIn, a) == ReceivedBy(c, Initial(known), ops, a)
  {
    var init, op, start := ops[..|ops| - 1], ops[|ops| - 1], Initial(known);
    var s := Play(c, start, init);
    LastLists(c, known, ops);
    var received := ReceivedBy(c, start, init, a);
    assert Edges(s.graph.adjIn, a) == received;
    assert ReceivedBy(c, start, ops, a) == received +
      if Takes(c, s, op) && op.edge.target == a && |SentBy(c, start, init, op.edge.source)| < c.maxEdgesPerNode
      then [op.edge] else [] by {
      hide Takes, Play, SentBy;
    }
    if op.Transfer? {
      var sent := SentBy(c, start, init, op.edge.source);
      assert Edges(s.graph.adjOut, op.edge.source) == First(sent, Bound(c.maxEdgesPerNode));
      FirstOfMore(sent, op.edge, c.maxEdgesPerNode);
    }
    hide Play, Edges, Takes, Lasting, First, SentBy, ReceivedBy, Keeps;
  }

  // ---------------------------------------------------------------------------
  // Marks
  // ---------------------------------------------------------------------------

  /** The call reaches the wallet: it is in the graph, or there is room for it. */
  predicate Reaches(c: Config, s: System, a: Addr) {
    !s.jammed && (a in s.graph.nodes || |s.graph.nodes| < c.maxNodes)
  }

  /** How often the wallet was marked for a rug. */
  ghost function RugsOf(c: Config, start: GraphState.Graph, ops: seq<Op>, a: Addr): nat {
    if ops == [] then 0
    else
      var init, op := ops[..|ops| - 1], ops[|ops| - 1];
      RugsOf(c, start, init, a) +
      if op.Rug? && op.deployer == a && Reaches(c, Play(c, start, init), a) then 1 else 0
  }

  /** How often it was recorded to have deployed. */
  ghost function DeploysOf(c: Config, start: GraphState.Graph, ops: seq<Op>, a: Addr): nat {
    if ops == [] then 0
    else
      var init, op := ops[..|ops| - 1], ops[|ops| - 1];
      DeploysOf(c, start, init, a) +
      if op.Deploy? && op.deployer == a && Reaches(c, Play(c, start, init), a) then 1 else 0
  }

  predicate NoPropagations(ops: seq<Op>) {
    forall i :: 0 <= i < |ops| ==> !ops[i].Propagation?
  }

  /** The node has these counts; two rugs have earned it the label, which it may also have inherited. */
  predicate Tallied(n: Node, rugs: nat, deploys: nat, inherited: bool) {
    && n.rugCount == rugs && n.deployCount == deploys
    && (rugs >= 2 ==> SerialRugger in n.labels)
    && (SerialRugger in n.labels && !inherited ==> rugs >= 2)
  }

  predicate TalliedAt(g: GraphState.Graph, a: Addr, rugs: nat, deploys: nat, inherited: bool) {
    if a in g.nodes then Tallied(g.nodes[a], rugs, deploys, inherited) else rugs == 0 && deploys == 0
  }

  lemma FreshIsTallied(g: GraphState.Graph, a: Addr, t: int, rugs: nat, deploys: nat, inherited: bool)
    requires TalliedAt(g, a, rugs, deploys, inherited)
    ensures Tallied(NodeFor(g, a, t), rugs, deploys, inherited)
  {
  }

  /** Whatever becomes of a transfer, a node is as it was, or as it is made, but for its counter. */
  predicate OnlyCounts(n: Node, n': Node) {
    n'.(txCount := n.txCount) == n
  }

  /** The node of `a` after it was maybe made. */
  ghost predicate NodeKept(g: GraphState.Graph, g': GraphState.Graph, a: Addr, t: int) {
    && (a in g.nodes ==> a in g'.nodes)
    && (a in g'.nodes ==> OnlyCounts(NodeFor(g, a, t), g'.nodes[a]))
  }

  lemma BumpOnlyCounts(n: Node, more: nat)
    ensures OnlyCounts(n, Bumped(n, more)) && OnlyCounts(n, n)
  {
  }

  lemma CountedEnds(g: GraphState.Graph, g': GraphState.Graph, e: Edge, a: Addr)
    requires EndsCounted(g, g', e)
    ensures NodeKept(g, g', a, e.timestamp)
  {
    var n := NodeFor(g, a, e.timestamp);
    assert a in g'.nodes <==> a in g.nodes || a == e.source || a == e.target;
    BumpOnlyCounts(n, if e.source == e.target then 2 else 1);
    BumpOnlyCounts(n, 1);
    if a == e.source {
      hide NodeFor, OnlyCounts, Bumped, Missing;
    } else if a == e.target {
      hide NodeFor, OnlyCounts, Bumped, Missing;
    } else if a in g.nodes {
      assert n == g.nodes[a] == g'.nodes[a];
      hide NodeFor, OnlyCounts, Bumped, Missing;
    }
  }

  lemma CountedSource(c: Config, g: GraphState.Graph, g': GraphState.Graph, e: Edge, a: Addr)
    requires SourceOnly(c, g, g', e)
    ensures NodeKept(g, g', a, e.timestamp)
  {
    assert a in g.nodes ==> NodeFor(g, a, e.timestamp) == g.nodes[a];
    BumpOnlyCounts(NodeFor(g, a, e.timestamp), 1);
    hide NodeFor, OnlyCounts, Bumped;
  }

  lemma SameNodes(g: GraphState.Graph, a: Addr, t: int)
    ensures NodeKept(g, g, a, t)
  {
  }

  lemma TransferNodes(c: Config, g: GraphState.Graph, e: Edge, a: Addr)
    ensures NodeKept(g, AddTransfer(c, g, e).0, a, e.timestamp)
  {
    TransferIs(c, g, e);
    SameNodes(g, a, e.timestamp);
    var (g', r) := AddTransfer(c, g, e);
    hide AddTransfer, Unwanted, HasRoom, EndsCounted, SourceOnly, Stored, SameEdges, NodeKept;
    match r {
      case Recorded => CountedEnds(g, g', e, a);
      case Panicked => CountedSource(c, g, g', e, a);
      case Ignored =>
    }
  }

  lemma TransferTallies(c: Config, g: GraphState.Graph, e: Edge, a: Addr, rugs: nat, deploys: nat, inherited: bool)
    requires TalliedAt(g, a, rugs, deploys, inherited)
    ensures TalliedAt(AddTransfer(c, g, e).0, a, rugs, deploys, inherited)
  {
    TransferNodes(c, g, e, a);
    FreshIsTallied(g, a, e.timestamp, rugs, deploys, inherited);
    hide AddTransfer, NodeFor;
  }

  lemma RugTallies(c: Config, g: GraphState.Graph, b: Addr, now: int, a: Addr, rugs: nat, deploys: nat, inherited: bool)
    requires TalliedAt(g, a, rugs, deploys, inherited)
    ensures var more := if b == a && (a in g.nodes || |g.nodes| < c.maxNodes) then 1 else 0;
      TalliedAt(MarkRug(c, g, b, now).0, a, rugs + more, deploys, inherited)
  {
    RugIs(c, g, b, now);
    FreshIsTallied(g, a, now, rugs, deploys, inherited);
    hide MarkRug, NodeFor;
  }

  lemma DeployTallies(c: Config, g: GraphState.Graph, b: Addr, t: int, a: Addr, rugs: nat, deploys: nat,
                      inherited: bool)
    requires TalliedAt(g, a, rugs, deploys, inherited)
    ensures var more := if b == a && (a in g.nodes || |g.nodes| < c.maxNodes) then 1 else 0;
      TalliedAt(AddDeploy(c, g, b, t).0, a, rugs, deploys + more, inherited)
  {
    DeployIs(c, g, b, t);
    FreshIsTallied(g, a, t, rugs, deploys, inherited);
    hide AddDeploy, NodeFor;
  }

  lemma InsiderTallies(c: Config, g: GraphState.Graph, b: Addr, now: int, a: Addr, rugs: nat, deploys: nat,
                       inherited: bool)
    requires TalliedAt(g, a, rugs, deploys, inherited)
    ensures TalliedAt(MarkInsider(c, g, b, now).0, a, rugs, deploys, inherited)
  {
    InsiderIs(c, g, b, now);
    FreshIsTallied(g, a, now, rugs, deploys, inherited);
    hide MarkInsider, NodeFor;
  }

  lemma PropagationTallies(c: Config, g: GraphState.Graph, b: Addr, a: Addr, rugs: nat, deploys: nat)
    requires TalliedAt(g, a, rugs, deploys, true)
    ensures TalliedAt(Propagate(c, g, b), a, rugs, deploys, true)
  {
    PropagateSame(c, g, b);
    if a in g.nodes {
      PropagationOnlyLabels(c, g, b, a);
      if b in g.nodes {
        PropagationReaches(c, g, b, a);
      }
    }
  }

  lemma OneTallies(c: Config, g: GraphState.Graph, op: Op, a: Addr, rugs: nat, deploys: nat, inherited: bool)
    requires !op.Eviction? && (op.Propagation? ==> inherited) && TalliedAt(g, a, rugs, deploys, inherited)
    ensures var reached := a in g.nodes || |g.nodes| < c.maxNodes;
      TalliedAt(Step(c, g, op), a, rugs + (if op.Rug? && op.deployer == a && reached then 1 else 0),
                deploys + (if op.Deploy? && op.deployer == a && reached then 1 else 0), inherited)
  {
    hide TalliedAt, AddTransfer, MarkRug, AddDeploy, MarkInsider, Propagate;
    match op {
      case Transfer(e) => TransferTallies(c, g, e, a, rugs, deploys, inherited);
      case Rug(b, now) => RugTallies(c, g, b, now, a, rugs, deploys, inherited);
      case Deploy(b, t) => DeployTallies(c, g, b, t, a, rugs, deploys, inherited);
      case Insider(b, now) => InsiderTallies(c, g, b, now, a, rugs, deploys, inherited);
      case Propagation(b) => PropagationTallies(c, g, b, a, rugs, deploys);
    }
  }

  lemma TalliedMore(g: GraphState.Graph, a: Addr, rugs: nat, deploys: nat, inherited: bool)
    requires TalliedAt(g, a, rugs, deploys, inherited)
    ensures TalliedAt(g, a, rugs, deploys, true)
  {
  }

  /** From a new engine, over every run without evictions: a wallet's counts are those of its deploys and its rugs,
      a second rug has labelled it, and where labels are not propagated nothing else has. */
  lemma {:induction false} MarksCounted(c: Config, known: set<Addr>, ops: seq<Op>, a: Addr)
    requires NoEvictions(ops)
    ensures var start := Initial(known);
      TalliedAt(Run(c, start, ops), a, RugsOf(c, start, ops, a), DeploysOf(c, start, ops, a), !NoPropagations(ops))
  {
    if ops != [] {
      var init, op, start := ops[..|ops| - 1], ops[|ops| - 1], Initial(known);
      assert NoPropagations(ops) <==> NoPropagations(init) && !op.Propagation?;
      MarksCounted(c, known, init, a);
      NotEvicting(ops);
      var s, rugs, deploys := Play(c, start, init), RugsOf(c, start, init, a), DeploysOf(c, start, init, a);
      hide TalliedAt, NoPropagations, NoEvictions, Step, Initial;
      if !NoPropagations(ops) {
        TalliedMore(s.graph, a, rugs, deploys, !NoPropagations(init));
      }
      OneTallies(c, s.graph, op, a, rugs, deploys, !NoPropagations(ops));
    }
  }

  lemma NotEvicting(ops: seq<Op>)
    requires NoEvictions(ops) && ops != []
    ensures !ops[|ops| - 1].Eviction?
  {
  }
}
