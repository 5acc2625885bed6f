/** The CLEAN label: no engine ever gives it, and what it does on a graph that was loaded with it
    (nexus/internal/graph/persistence.go). */
module GraphSnapshots {
  import opened Bfs
  import opened GraphState
  import opened GraphRuns

  // ---------------------------------------------------------------------------
  // Without a snapshot
  // ---------------------------------------------------------------------------

  ghost predicate NoneClean(g: GraphState.Graph) {
    forall a :: a in g.nodes ==> Clean !in g.nodes[a].labels
  }

  lemma AddKeepsUnclean(labels: seq<Label>, mark: Label)
    requires Clean !in labels && !mark.Clean?
    ensures Clean !in AddLabel(labels, mark)
  {
    AddLabelMembers(labels, mark);
  }

  lemma RugKeepsUnclean(n: Node)
    requires Clean !in n.labels
    ensures Clean !in Rugged(n).labels
  {
    AddKeepsUnclean(n.labels, SerialRugger);
  }

  lemma EnsureKeepsNoneClean(c: Config, g: GraphState.Graph, a: Addr, t: int)
    requires NoneClean(g)
    ensures NoneClean(EnsureNode(c, g, a, t))
  {
  }

  lemma CountTxKeepsNoneClean(g: GraphState.Graph, a: Addr)
    requires NoneClean(g) && a in g.nodes
    ensures NoneClean(CountTx(g, a))
  {
  }

  lemma TransferKeepsNoneClean(c: Config, g: GraphState.Graph, e: Edge)
    requires NoneClean(g)
    ensures NoneClean(AddTransfer(c, g, e).0)
  {
    var g0 := EnsureNode(c, g, e.source, e.timestamp);
    var g1 := EnsureNode(c, g0, e.target, e.timestamp);
    EnsureKeepsNoneClean(c, g, e.source, e.timestamp);
    EnsureKeepsNoneClean(c, g0, e.target, e.timestamp);
    if e.source in g1.nodes {
      CountTxKeepsNoneClean(g1, e.source);
      if e.target in CountTx(g1, e.source).nodes {
        CountTxKeepsNoneClean(CountTx(g1, e.source), e.target);
        assert Connect(c, CountTx(CountTx(g1, e.source), e.target), e).nodes ==
          CountTx(CountTx(g1, e.source), e.target).nodes;
      }
    }
    hide EnsureNode, CountTx, Connect, Filtered;
  }

  lemma StepKeepsNoneClean(c: Config, g: GraphState.Graph, op: Op)
    requires NoneClean(g)
    ensures NoneClean(Step(c, g, op))
  {
    hide AddLabel, AddTransfer, Propagate, Rugged;
    match op
    case Transfer(e) => TransferKeepsNoneClean(c, g, e);
    case Deploy(_, _) =>
    case Rug(a, t) =>
      var g1 := EnsureNode(c, g, a, t);
      if a in g1.nodes { RugKeepsUnclean(g1.nodes[a]); }
    case Insider(a, t) =>
      var g1 := EnsureNode(c, g, a, t);
      if a in g1.nodes { AddKeepsUnclean(g1.nodes[a].labels, ProfitableInsider); }
    case Propagation(a) =>
      PropagateSame(c, g, a);
      forall b | b in g.nodes
        ensures Clean !in Propagate(c, g, a).nodes[b].labels
      {
        PropagationOnlyLabels(c, g, a, b);
      }
    case Eviction(_) =>
  }

  /** Whatever starts without CLEAN stays without it; so no run of a new engine ever has it. */
  lemma {:induction false} RunKeepsNoneClean(c: Config, start: GraphState.Graph, ops: seq<Op>)
    requires NoneClean(start)
    ensures NoneClean(Run(c, start, ops))
  {
    if ops != [] {
      RunKeepsNoneClean(c, start, ops[..|ops| - 1]);
      hide NoneClean, Step, Jams;
      StepKeepsNoneClean(c, Run(c, start, ops[..|ops| - 1]), ops[|ops| - 1]);
    }
  }

  /** In every run of a new engine the guard that protects CLEAN nodes never holds anything back: propagation
      marks exactly the other nodes in range that are no exchanges. */
  lemma GuardNeverFires(c: Config, known: set<Addr>, ops: seq<Op>, source: Addr, a: Addr)
    requires var g := Run(c, Initial(known), ops); source in g.nodes && a in g.nodes
    ensures var g := Run(c, Initial(known), ops);
      && Clean !in g.nodes[a].labels
      && (SerialRugger in Propagate(c, g, source).nodes[a].labels <==>
          (|| SerialRugger in g.nodes[a].labels
           || (&& SerialRugger in g.nodes[source].labels && a != source && !g.nodes[a].isCex
               && exists p :: WalkBetween(OutLinks(g), source, a, p) && |p| <= Bound(c.labelPropDepth) + 1)))
  {
    var g := Run(c, Initial(known), ops);
    assert NoneClean(Initial(known));
    RunKeepsNoneClean(c, Initial(known), ops);
    hide Run, Propagate;
    PropagationReaches(c, g, source, a);
  }

  // ---------------------------------------------------------------------------
  // With one
  // ---------------------------------------------------------------------------

  /** Loading replaces the nodes and the lists, and counts all nodes. */
  function Load(g: GraphState.Graph, nodes: map<Addr, Node>, adjOut: Adjacency, adjIn: Adjacency): GraphState.Graph {
    g.(nodes := nodes, adjOut := adjOut, adjIn := adjIn, nodeCount := |nodes|)
  }

  // A wallet with the label reaches a CLEAN one over two others.
  const S := Addr("s")
  const X := Addr("x")
  const Y := Addr("y")
  const A := Addr("a")

  function Wallet(mark: Label): Node {
    Node([mark], 0, 2, false, 0, 0)
  }

  /** A new engine without exchanges, after loading it. */
  function Diamond(): GraphState.Graph {
    Load(Initial({}),
         map[S := Wallet(SerialRugger), X := Wallet(Unknown), Y := Wallet(Unknown), A := Wallet(Clean)],
         map[S := [MakeTransfer(S, X), MakeTransfer(S, Y)], X := [MakeTransfer(X, A)], Y := [MakeTransfer(Y, A)]],
         map[X := [MakeTransfer(S, X)], Y := [MakeTransfer(S, Y)], A := [MakeTransfer(X, A), MakeTransfer(Y, A)]])
  }

  /** What it stores for any address. */
  lemma DiamondEdges(a: Addr)
    ensures Edges(Diamond().adjOut, a) ==
      if a == S then [MakeTransfer(S, X), MakeTransfer(S, Y)]
      else if a == X || a == Y then [MakeTransfer(a, A)] else []
    ensures Edges(Diamond().adjIn, a) ==
      if a == X || a == Y then [MakeTransfer(S, a)]
      else if a == A then [MakeTransfer(X, A), MakeTransfer(Y, A)] else []
    ensures Wallets(Diamond()) == {S, X, Y, A}
  {
  }

  lemma TimesOf(x: Edge, y: Edge, e: Edge)
    ensures Times([], e) == 0 && Times([x], e) == (if e == x then 1 else 0)
    ensures Times([x, y], e) == (if e == x then 1 else 0) + if e == y then 1 else 0
  {
  }

  lemma DiamondMirrored()
    ensures Mirrored(Diamond().adjOut, Diamond().adjIn)
  {
    hide Diamond, Edges, Times;
    forall e: Edge
      ensures Times(Edges(Diamond().adjOut, e.source), e) == Times(Edges(Diamond().adjIn, e.target), e)
    {
      DiamondEdges(e.source);
      DiamondEdges(e.target);
      TimesOf(MakeTransfer(S, X), MakeTransfer(S, Y), e);
      TimesOf(MakeTransfer(X, A), MakeTransfer(Y, A), e);
      TimesOf(MakeTransfer(Y, A), MakeTransfer(Y, A), e);
      TimesOf(MakeTransfer(S, Y), MakeTransfer(S, Y), e);
    }
  }

  lemma DiamondOwned()
    ensures Owned(Diamond().adjOut, Diamond().adjIn, Wallets(Diamond()))
  {
    hide Diamond, Edges, Wallets;
    forall a: Addr
      ensures forall e :: e in Edges(Diamond().adjOut, a) ==>
        e.source == a && e.source in Wallets(Diamond()) && e.target in Wallets(Diamond())
      ensures forall e :: e in Edges(Diamond().adjIn, a) ==>
        e.target == a && e.source in Wallets(Diamond()) && e.target in Wallets(Diamond())
    {
      DiamondEdges(a);
    }
  }

  lemma DiamondSmall(a: Addr)
    ensures |Edges(Diamond().adjOut, a)| <= 2 && Degree(Diamond().adjOut, Diamond().adjIn, a) <= 2
  {
    hide Diamond, Edges;
    DiamondEdges(a);
  }

  lemma DiamondNodes()
    ensures Seeded(Diamond()) && forall a :: a in Diamond().nodes ==> Diamond().nodes[a].txCount == 2
  {
    assert Diamond().nodes.Keys == {S, X, Y, A};
  }

  /** It is a graph as the engine keeps them. */
  lemma DiamondIsGood(c: Config)
    requires c.maxEdgesPerNode >= 2
    ensures Structure(c, Diamond()) && Counted(Diamond(), 2)
  {
    hide Diamond, Edges, Owned, Mirrored, Seeded, Degree;
    DiamondOwned();
    DiamondMirrored();
    DiamondNodes();
    forall a
      ensures |Edges(Diamond().adjOut, a)| <= Bound(c.maxEdgesPerNode)
      ensures Degree(Diamond().adjOut, Diamond().adjIn, a) <= 2
    {
      DiamondSmall(a);
    }
  }

  lemma DiamondLinks()
    ensures var links := OutLinks(Diamond());
      Link(links, S, X) && Link(links, X, A) && Link(links, S, Y) && Link(links, Y, A) && !Link(links, S, A)
  {
    var links := OutLinks(Diamond());
    assert links[S] == [X, Y] && links[X] == [A] && links[Y] == [A];
  }

  lemma DiamondWalks()
    ensures WalkBetween(OutLinks(Diamond()), S, A, [S, X, A]) && WalkBetween(OutLinks(Diamond()), S, A, [S, Y, A])
  {
    DiamondLinks();
    hide Diamond, OutLinks;
  }

  lemma DiamondUnmarked(c: Config)
    ensures SerialRugger in Diamond().nodes[S].labels && Clean in Diamond().nodes[A].labels
    ensures A in Propagate(c, Diamond(), S).nodes && SerialRugger !in Propagate(c, Diamond(), S).nodes[A].labels
  {
    DiamondLinks();
    assert SerialRugger !in Diamond().nodes[A].labels;
    CleanNeedsDirectEdges(c, Diamond(), S, A);
    PropagateSame(c, Diamond(), S);
    hide Propagate, OutLinks;
  }

  /** On it two paths over different wallets do not confirm: the CLEAN node at their end stays unmarked when
      the propagation runs. */
  lemma TwoPathsDoNotConfirm(c: Config)
    requires c.labelPropDepth >= 2
    ensures WalkBetween(OutLinks(Diamond()), S, A, [S, X, A]) && WalkBetween(OutLinks(Diamond()), S, A, [S, Y, A])
    ensures SerialRugger in Diamond().nodes[S].labels && Clean in Diamond().nodes[A].labels
    ensures var g := Run(c, Diamond(), [Propagation(S)]);
      A in g.nodes && SerialRugger !in g.nodes[A].labels
  {
    DiamondWalks();
    DiamondUnmarked(c);
    hide Propagate, Diamond, WalkBetween, OutLinks;
    PlaySnoc(c, Diamond(), [], Propagation(S));
    assert [] + [Propagation(S)] == [Propagation(S)];
  }
}
