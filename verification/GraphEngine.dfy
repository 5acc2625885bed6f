/** The mutable entity graph engine. */
module GraphEngine {
  import opened Bfs
  import opened GraphState
  import opened GraphLaws
  import opened GraphRuns

  /** The part of a deployer report that does not depend on map iteration order. `confidence` is in
      tenths. */
  datatype Report = Report(known: bool, hopsToRugger: int, hopsToInsider: int, confidence: nat)

  /** The visited wallets other than the source that carry the mark. */
  function Marked(g: GraphState.Graph, visited: set<Addr>, source: Addr, mark: Label): set<Addr> {
    set a | a in visited && a != source && a in g.nodes && mark in g.nodes[a].labels
  }

  /** `hops` is the least depth among the marked, or -1 when there are none. */
  ghost predicate LeastHops(visited: map<Addr, nat>, marked: set<Addr>, hops: int)
    requires marked <= visited.Keys
  {
    if marked == {} then hops == -1
    else (exists a :: a in marked && visited[a] == hops) && forall a :: a in marked ==> hops <= visited[a]
  }

  lemma LeastHopsOneMore(visited: map<Addr, nat>, marked: set<Addr>, hops: int, a: Addr)
    requires marked <= visited.Keys && a in visited && LeastHops(visited, marked, hops)
    ensures LeastHops(visited, marked + {a}, if hops == -1 || visited[a] < hops then visited[a] else hops)
  {
    assert a in marked + {a};
  }

  /** A walk of at most `limit` links from the source to another wallet that carries the mark. */
  ghost predicate Leads(g: GraphState.Graph, source: Addr, limit: nat, mark: Label, a: Addr, p: seq<Addr>) {
    && a != source && a in g.nodes && mark in g.nodes[a].labels
    && WalkBetween(AllLinks(g), source, a, p) && |p| <= limit + 1
  }

  /** Distance to the nearest marked wallet: the walks to marked wallets within the limit have at least
      `hops` links, one of them has exactly that many, and -1 says there is none. */
  ghost predicate NearestMarked(g: GraphState.Graph, source: Addr, limit: nat, mark: Label, hops: int) {
    if hops == -1 then forall a, p :: !Leads(g, source, limit, mark, a, p)
    else
      && (exists a, p :: Leads(g, source, limit, mark, a, p) && |p| == hops + 1)
      && (forall a, p :: Leads(g, source, limit, mark, a, p) ==> |p| >= hops + 1)
  }

  /** A shortest walk to a wallet at distance `n` has exactly `n` links. */
  lemma DistanceWalk(g: Bfs.Graph, source: Addr, a: Addr, n: nat) returns (p: seq<Addr>)
    requires DistanceIs(g, source, a, n)
    ensures WalkBetween(g, source, a, p) && |p| == n + 1
  {
    hide Within;
    p := WalkTo(g, source, n, a);
    if |p| < n + 1 {
      WalkStays(g, source, p);
      WithinGrows(g, source, |p| - 1, n - 1);
    }
  }

  /** No walk is shorter than the distance. */
  lemma NoShorterWalk(g: Bfs.Graph, source: Addr, a: Addr, n: nat, p: seq<Addr>)
    requires DistanceIs(g, source, a, n) && WalkBetween(g, source, a, p)
    ensures |p| >= n + 1
  {
    hide Within;
    WalkStays(g, source, p);
    if |p| < n + 1 {
      WithinGrows(g, source, |p| - 1, n - 1);
    }
  }

  /** Over exact depths, the least depth among the marked is the distance to the nearest of them. */
  lemma LeastIsNearest(g: GraphState.Graph, source: Addr, limit: nat, visited: map<Addr, nat>, mark: Label, hops: int)
    requires visited.Keys == Within(AllLinks(g), source, limit) && Exact(AllLinks(g), source, limit, visited)
    requires LeastHops(visited, Marked(g, visited.Keys, source, mark), hops)
    ensures NearestMarked(g, source, limit, mark, hops)
  {
    var links, marked := AllLinks(g), Marked(g, visited.Keys, source, mark);
    hide Within, DistanceIs, WalkBetween, AllLinks;
    forall a, p | Leads(g, source, limit, mark, a, p)
      ensures a in marked && |p| >= visited[a] + 1
    {
      WithinIsWalk(links, source, limit, a);
      NoShorterWalk(links, source, a, visited[a], p);
    }
    if marked != {} {
      var a :| a in marked && visited[a] == hops;
      var p := DistanceWalk(links, source, a, hops);
      assert Leads(g, source, limit, mark, a, p);
    }
  }

  /** Every address that some edge list leads to. */
  ghost function Touched(g: GraphState.Graph): set<Addr> {
    (set a, e | a in g.adjOut && e in g.adjOut[a] :: e.target) +
    (set a, e | a in g.adjIn && e in g.adjIn[a] :: e.source)
  }

  lemma LinksClosed(g: GraphState.Graph, source: Addr)
    ensures Closed(OutLinks(g), Touched(g) + {source}) && Closed(AllLinks(g), Touched(g) + {source})
  {
    forall a, b | Link(AllLinks(g), a, b)
      ensures b in Touched(g)
    {
      var outs, ins := Edges(g.adjOut, a), Edges(g.adjIn, a);
      if b in Targets(outs) {
        var i :| 0 <= i < |outs| && outs[i].target == b;
        assert outs[i] in g.adjOut[a];
      } else {
        assert b in Sources(ins);
        var i :| 0 <= i < |ins| && ins[i].source == b;
        assert ins[i] in g.adjIn[a];
      }
    }
    forall a, b | Link(OutLinks(g), a, b)
      ensures b in Touched(g)
    {
      var outs := g.adjOut[a];
      var i :| 0 <= i < |outs| && outs[i].target == b;
      assert outs[i] in g.adjOut[a];
    }
  }

  /** The nodes while propagation is under way: what is no longer in `rest` is done. */
  ghost predicate Painted(c: Config, g: GraphState.Graph, source: Addr, rest: set<Addr>, isRugger: bool,
                          nodes: map<Addr, Node>)
  {
    && nodes.Keys == g.nodes.Keys
    && forall a :: a in nodes ==>
      nodes[a] == if isRugger && a !in rest && Eligible(c, g, source, a) then Branded(g.nodes[a]) else g.nodes[a]
  }

  /** Handling one more visited wallet as the loop does. */
  lemma PaintNext(c: Config, g: GraphState.Graph, source: Addr, rest: set<Addr>, isRugger: bool,
                  nodes: map<Addr, Node>, a: Addr)
    requires Painted(c, g, source, rest, isRugger, nodes) && a in rest
    requires a in Within(OutLinks(g), source, Bound(c.labelPropDepth))
    ensures var paint := isRugger && a != source && Confirmed(g, source, a);
      Painted(c, g, source, rest - {a}, isRugger, if paint then nodes[a := Branded(nodes[a])] else nodes)
  {
    assert Confirmed(g, source, a) ==> a in nodes;
    hide Within, Confirmed, Branded;
  }

  /** The evictable nodes that are not among those still to be looked at. */
  ghost function Gone(g: GraphState.Graph, cutoff: int, rest: set<Addr>): set<Addr> {
    EvictedFrom(g, cutoff) - rest
  }

  ghost function Dropped(g: GraphState.Graph, gone: set<Addr>): GraphState.Graph {
    g.(nodes := g.nodes - gone, adjOut := g.adjOut - gone, adjIn := g.adjIn - gone)
  }

  lemma NoneGone(g: GraphState.Graph, cutoff: int)
    ensures Gone(g, cutoff, g.nodes.Keys) == {} && Dropped(g, {}) == g
  {
  }

  lemma AllGone(g: GraphState.Graph, cutoff: int)
    ensures Gone(g, cutoff, {}) == EvictedFrom(g, cutoff)
    ensures var left := Dropped(g, Gone(g, cutoff, {}));
      left.(nodeCount := left.nodeCount - |EvictedFrom(g, cutoff)|) == GraphState.Evict(g, cutoff)
  {
    assert Gone(g, cutoff, {}) == EvictedFrom(g, cutoff);
  }

  lemma NotYetGone(g: GraphState.Graph, cutoff: int, rest: set<Addr>, a: Addr)
    requires a in rest && rest <= g.nodes.Keys
    ensures a in Dropped(g, Gone(g, cutoff, rest)).nodes
    ensures Dropped(g, Gone(g, cutoff, rest)).nodes[a] == g.nodes[a]
  {
  }

  /** Looking at one more node. */
  lemma OneMoreGone(g: GraphState.Graph, cutoff: int, rest: set<Addr>, a: Addr)
    requires a in rest && rest <= g.nodes.Keys
    ensures var before, after := Gone(g, cutoff, rest), Gone(g, cutoff, rest - {a});
      if Evictable(g.nodes[a], cutoff) then
        |after| == |before| + 1 && Dropped(g, after) == Dropped(Dropped(g, before), {a})
      else after == before
  {
    var before, after := Gone(g, cutoff, rest), Gone(g, cutoff, rest - {a});
    if Evictable(g.nodes[a], cutoff) {
      assert after == before + {a};
      DroppedTwice(g, before, a);
    } else {
      assert after == before;
    }
  }

  lemma DroppedTwice(g: GraphState.Graph, gone: set<Addr>, a: Addr)
    ensures Dropped(Dropped(g, gone), {a}) == Dropped(g, gone + {a})
  {
  }

  class Engine {
    const config: Config
    var nodes: map<Addr, Node>
    var adjOut: map<Addr, seq<Edge>>
    var adjIn: map<Addr, seq<Edge>>
    var cexAddrs: set<Addr>
    var nodeCount: int
    var edgeCount: nat

    function View(): GraphState.Graph
      reads this
    {
      Graph(nodes, adjOut, adjIn, cexAddrs, nodeCount, edgeCount)
    }

    constructor (config: Config, knownCexWallets: seq<Addr>)
      ensures this.config == config
      ensures View() == Initial(set a | a in knownCexWallets)
    {
      this.config := config;
      nodes, adjOut, adjIn, cexAddrs, nodeCount, edgeCount := map[], map[], map[], {}, 0, 0;
      new;
      for i := 0 to |knownCexWallets|
        invariant this.config == config
        invariant View() == Initial(set a | a in knownCexWallets[..i])
      {
        var addr := knownCexWallets[i];
        assert knownCexWallets[..i + 1] == knownCexWallets[..i] + [addr];
        cexAddrs := cexAddrs + {addr};
        nodes := nodes[addr := Node([Cex], 0, 0, true, 0, 0)];
      }
      assert knownCexWallets[..|knownCexWallets|] == knownCexWallets;
    }

    method EnsureNode(address: Addr, timestamp: int)
      modifies this
      ensures View() == GraphState.EnsureNode(config, old(View()), address, timestamp)
    {
      if address !in nodes {
        if |nodes| >= config.maxNodes {
          return;
        }
        nodes := nodes[address := Node([Unknown], timestamp, 0, address in cexAddrs, 0, 0)];
        nodeCount := nodeCount + 1;
      }
    }

    method AddTransfer(source: Addr, target: Addr, amount: real, timestamp: int, txType: TxType, decay: real)
      returns (outcome: Outcome)
      modifies this
      ensures (View(), outcome)
        == GraphState.AddTransfer(config, old(View()), Edge(source, target, amount, timestamp, txType, amount * decay))
      ensures TransferDone(config, old(View()), View(),
                           Edge(source, target, amount, timestamp, txType, amount * decay), outcome)
    {
      TransferIs(config, View(), Edge(source, target, amount, timestamp, txType, amount * decay));
      hide TransferDone;
      if amount < config.dustThreshold {
        return Ignored;
      }
      if source in cexAddrs || target in cexAddrs {
        return Ignored;
      }
      if target in nodes && nodes[target].txCount > ToUint32(config.highTxThreshold) {
        return Ignored;
      }
      var edge := Edge(source, target, amount, timestamp, txType, amount * decay);
      assert !Filtered(config, View(), edge);
      EnsureNode(source, timestamp);
      EnsureNode(target, timestamp);
      hide Filtered, GraphState.EnsureNode, GraphState.CountTx, GraphState.Connect;
      if source !in nodes {
        return Panicked;
      }
      CountTx(source);
      if target !in nodes {
        return Panicked;
      }
      CountTx(target);
      Connect(edge);
      return Recorded;
    }

    method CountTx(a: Addr)
      requires a in nodes
      modifies this`nodes
      ensures View() == GraphState.CountTx(old(View()), a)
    {
      nodes := nodes[a := nodes[a].(txCount := ToUint32(nodes[a].txCount + 1))];
    }

    /** Stores an edge under both its ends, while its source has room. */
    method Connect(edge: Edge)
      modifies this`adjOut, this`adjIn, this`edgeCount
      ensures View() == GraphState.Connect(config, old(View()), edge)
    {
      if |Edges(adjOut, edge.source)| < config.maxEdgesPerNode {
        adjOut := adjOut[edge.source := Edges(adjOut, edge.source) + [edge]];
        adjIn := adjIn[edge.target := Edges(adjIn, edge.target) + [edge]];
        edgeCount := edgeCount + 1;
      }
    }

    method AddDeploy(deployer: Addr, timestamp: int) returns (outcome: Outcome)
      modifies this
      ensures (View(), outcome) == GraphState.AddDeploy(config, old(View()), deployer, timestamp)
    {
      EnsureNode(deployer, timestamp);
      if deployer !in nodes {
        return Panicked;
      }
      nodes := nodes[deployer := nodes[deployer].(deployCount := nodes[deployer].deployCount + 1)];
      return Recorded;
    }

    /** The propagation it sets off runs later, on its own. */
    method MarkRug(deployer: Addr, now: int) returns (outcome: Outcome)
      modifies this
      ensures (View(), outcome) == GraphState.MarkRug(config, old(View()), deployer, now)
    {
      if deployer !in nodes {
        EnsureNode(deployer, now);
        if deployer !in nodes {
          return Panicked;
        }
      }
      ghost var before := nodes;
      nodes := nodes[deployer := nodes[deployer].(rugCount := nodes[deployer].rugCount + 1)];
      if nodes[deployer].rugCount >= 2 {
        nodes := nodes[deployer := nodes[deployer].(labels := AddLabel(nodes[deployer].labels, SerialRugger))];
      }
      assert nodes == before[deployer := Rugged(before[deployer])];
      return Recorded;
    }

    method MarkInsider(address: Addr, now: int) returns (outcome: Outcome)
      modifies this
      ensures (View(), outcome) == GraphState.MarkInsider(config, old(View()), address, now)
    {
      if address !in nodes {
        EnsureNode(address, now);
        if address !in nodes {
          return Panicked;
        }
      }
      nodes := nodes[address := nodes[address].(labels := AddLabel(nodes[address].labels, ProfitableInsider))];
      return Recorded;
    }

    /** The loop over the nodes may take them in any order. */
    method Evict(cutoff: int) returns (evicted: nat)
      modifies this
      ensures View() == GraphState.Evict(old(View()), cutoff)
      ensures evicted == |EvictedFrom(old(View()), cutoff)|
    {
      hide Gone, Evictable, Dropped;
      evicted := 0;
      ghost var g := View();
      var rest := nodes.Keys;
      NoneGone(g, cutoff);
      while rest != {}
        invariant rest <= g.nodes.Keys
        invariant evicted == |Gone(g, cutoff, rest)|
        invariant View() == Dropped(g, Gone(g, cutoff, rest))
        decreases rest
      {
        var addr :| addr in rest;
        NotYetGone(g, cutoff, rest, addr);
        OneMoreGone(g, cutoff, rest, addr);
        rest := rest - {addr};
        if Evictable(nodes[addr], cutoff) {
          Drop(addr);
          evicted := evicted + 1;
        }
      }
      AllGone(g, cutoff);
      nodeCount := nodeCount - evicted;
    }

    method Drop(a: Addr)
      modifies this`nodes, this`adjOut, this`adjIn
      ensures View() == Dropped(old(View()), {a})
    {
      nodes := nodes - {a};
      adjOut := adjOut - {a};
      adjIn := adjIn - {a};
    }

    /** Search along outgoing edges, then mark every confirmed neighbour. */
    method PropagateLabels(source: Addr)
      modifies this
      ensures View() == Propagate(config, old(View()), source)
    {
      if source !in nodes {
        return;
      }
      LinksClosed(View(), source);
      var visited := Explore(OutLinks(View()), source, config.labelPropDepth, Touched(View()) + {source});
      ApplyLabels(source, visited);
    }

    /** The second half of a propagation: the visited wallets, in any order. */
    method ApplyLabels(source: Addr, visited: map<Addr, nat>)
      requires source in nodes
      requires visited.Keys == Within(OutLinks(View()), source, Bound(config.labelPropDepth))
      modifies this
      ensures View() == Propagate(config, old(View()), source)
    {
      ghost var g := View();
      var isRugger := SerialRugger in nodes[source].labels;
      var rest := visited.Keys;
      while rest != {}
        invariant rest <= visited.Keys
        invariant View() == g.(nodes := nodes)
        invariant Painted(config, g, source, rest, isRugger, nodes)
        decreases rest
      {
        var addr :| addr in rest;
        PaintNext(config, g, source, rest, isRugger, nodes, addr);
        assert addr in nodes ==> nodes[addr] == g.nodes[addr];
        assert CountPaths(View(), source, addr) == CountPaths(g, source, addr);
        hide Painted, Eligible, CountPaths;
        rest := rest - {addr};
        if addr != source && addr in nodes && !nodes[addr].isCex {
          if Clean in nodes[addr].labels && CountPaths(View(), source, addr) < 2 {
            continue;
          }
          if isRugger {
            nodes := nodes[addr := nodes[addr].(labels := AddLabel(nodes[addr].labels, SerialRugger))];
          }
        }
      }
      PaintDone(config, g, source, isRugger, nodes);
    }

    /** Search along edges in both directions, then report the depth of the nearest rugger and insider. */
    method QueryDeployer(address: Addr) returns (report: Report)
      ensures report.known <==> address in nodes
      ensures !report.known ==> report == Report(false, -1, -1, 0)
      ensures report.known ==>
        && NearestMarked(View(), address, Bound(config.labelPropDepth), SerialRugger, report.hopsToRugger)
        && NearestMarked(View(), address, Bound(config.labelPropDepth), ProfitableInsider, report.hopsToInsider)
      ensures report.known ==>
        var n: int := |Within(AllLinks(View()), address, Bound(config.labelPropDepth))| - 1;
        report.confidence == if n > 20 then 9 else if n > 5 then 7 else if n > 0 then 4 else 1
    {
      if address !in nodes {
        return Report(false, -1, -1, 0);
      }
      LinksClosed(View(), address);
      var visited := Explore(AllLinks(View()), address, config.labelPropDepth, Touched(View()) + {address});
      var hopsToRugger, hopsToInsider := NearestMarks(address, visited);
      LeastIsNearest(View(), address, Bound(config.labelPropDepth), visited, SerialRugger, hopsToRugger);
      LeastIsNearest(View(), address, Bound(config.labelPropDepth), visited, ProfitableInsider, hopsToInsider);
      var dataPoints: int := |visited.Keys| - 1;
      var confidence := if dataPoints > 20 then 9 else if dataPoints > 5 then 7 else if dataPoints > 0 then 4 else 1;
      return Report(true, hopsToRugger, hopsToInsider, confidence);
    }

    /** The analysis of a search: the visited wallets, in any order. */
    method NearestMarks(address: Addr, visited: map<Addr, nat>) returns (hopsToRugger: int, hopsToInsider: int)
      ensures LeastHops(visited, Marked(View(), visited.Keys, address, SerialRugger), hopsToRugger)
      ensures LeastHops(visited, Marked(View(), visited.Keys, address, ProfitableInsider), hopsToInsider)
    {
      hopsToRugger, hopsToInsider := -1, -1;
      var rest := visited.Keys;
      ghost var done := {};
      while rest != {}
        invariant done + rest == visited.Keys && done !! rest
        invariant LeastHops(visited, Marked(View(), done, address, SerialRugger), hopsToRugger)
        invariant LeastHops(visited, Marked(View(), done, address, ProfitableInsider), hopsToInsider)
        decreases rest
      {
        var addr :| addr in rest;
        rest := rest - {addr};
        var depth := visited[addr];
        ghost var before := done;
        done := done + {addr};
        MarkedOneMore(View(), before, address, SerialRugger, addr);
        MarkedOneMore(View(), before, address, ProfitableInsider, addr);
        hide LeastHops;
        if addr != address && addr in nodes {
          if SerialRugger in nodes[addr].labels {
            LeastHopsOneMore(visited, Marked(View(), before, address, SerialRugger), hopsToRugger, addr);
            if hopsToRugger == -1 || depth < hopsToRugger { hopsToRugger := depth; }
          }
          if ProfitableInsider in nodes[addr].labels {
            LeastHopsOneMore(visited, Marked(View(), before, address, ProfitableInsider), hopsToInsider, addr);
            if hopsToInsider == -1 || depth < hopsToInsider { hopsToInsider := depth; }
          }
        }
      }
      assert done == visited.Keys;
    }
  }

  lemma PaintDone(c: Config, g: GraphState.Graph, source: Addr, isRugger: bool, nodes: map<Addr, Node>)
    requires Painted(c, g, source, {}, isRugger, nodes)
    requires source in g.nodes && isRugger == (SerialRugger in g.nodes[source].labels)
    ensures g.(nodes := nodes) == Propagate(c, g, source)
  {
    hide Eligible, Branded;
    assert nodes == Propagate(c, g, source).nodes;
  }

  lemma MarkedOneMore(g: GraphState.Graph, done: set<Addr>, source: Addr, mark: Label, a: Addr)
    ensures Marked(g, done + {a}, source, mark)
         == Marked(g, done, source, mark)
            + (if a != source && a in g.nodes && mark in g.nodes[a].labels then {a} else {})
  {
  }
}
