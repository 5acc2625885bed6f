/** Breadth-first search over address lists, and the distances it is to find. */
module Bfs {

  // An account address. Only its identity matters here.
  datatype Addr = Addr(text: string)

  /** The addresses each address has links to, in the order they are stored. */
  type Graph = map<Addr, seq<Addr>>

  function Links(g: Graph, a: Addr): seq<Addr> {
    if a in g then g[a] else []
  }

  predicate Link(g: Graph, a: Addr, b: Addr) {
    b in Links(g, a)
  }

  // ---------------------------------------------------------------------------
  // Distance
  // ---------------------------------------------------------------------------

  /** Consecutive addresses of the walk are linked. */
  ghost predicate Walk(g: Graph, path: seq<Addr>) {
    |path| > 0 && forall i :: 0 <= i < |path| - 1 ==> Link(g, path[i], path[i + 1])
  }

  ghost predicate WalkBetween(g: Graph, source: Addr, target: Addr, path: seq<Addr>) {
    Walk(g, path) && path[0] == source && path[|path| - 1] == target
  }

  ghost function Linked(g: Graph, from: set<Addr>): set<Addr> {
    set a, b | a in from && b in Links(g, a) :: b
  }

  /** The addresses at most `n` links away. */
  ghost function Within(g: Graph, source: Addr, n: nat): set<Addr> {
    if n == 0 then {source}
    else Within(g, source, n - 1) + Linked(g, Within(g, source, n - 1))
  }

  /** `n` links lead to `a`, and fewer do not. */
  ghost predicate DistanceIs(g: Graph, source: Addr, a: Addr, n: nat) {
    a in Within(g, source, n) && (n > 0 ==> a !in Within(g, source, n - 1))
  }

  lemma {:induction false} WithinGrows(g: Graph, source: Addr, m: nat, n: nat)
    requires m <= n
    ensures Within(g, source, m) <= Within(g, source, n)
    decreases n - m
  {
    if m < n {
      WithinGrows(g, source, m, n - 1);
    }
  }

  lemma WithinStep(g: Graph, source: Addr, n: nat, b: Addr)
    requires b in Within(g, source, n + 1) && b !in Within(g, source, n)
    ensures exists a :: a in Within(g, source, n) && Link(g, a, b)
  {
  }

  /** Within `n` links means reached by a walk of at most `n` links. */
  lemma {:induction false} WithinIsWalk(g: Graph, source: Addr, n: nat, a: Addr)
    ensures a in Within(g, source, n)
       <==> exists p :: WalkBetween(g, source, a, p) && |p| <= n + 1
  {
    if a in Within(g, source, n) {
      var p := WalkTo(g, source, n, a);
    }
    if p :| WalkBetween(g, source, a, p) && |p| <= n + 1 {
      WalkStays(g, source, p);
      WithinGrows(g, source, |p| - 1, n);
    }
  }

  lemma {:induction false} WalkTo(g: Graph, source: Addr, n: nat, a: Addr) returns (p: seq<Addr>)
    requires a in Within(g, source, n)
    ensures WalkBetween(g, source, a, p) && |p| <= n + 1
  {
    assert n == 0 ==> a == source;
    hide Within;
    if n == 0 {
      p := [source];
    } else if a in Within(g, source, n - 1) {
      p := WalkTo(g, source, n - 1, a);
    } else {
      WithinStep(g, source, n - 1, a);
      var b :| b in Within(g, source, n - 1) && Link(g, b, a);
      var q := WalkTo(g, source, n - 1, b);
      p := q + [a];
      WalkSnoc(g, source, b, a, q);
    }
  }

  lemma WalkSnoc(g: Graph, source: Addr, b: Addr, a: Addr, q: seq<Addr>)
    requires WalkBetween(g, source, b, q) && Link(g, b, a)
    ensures WalkBetween(g, source, a, q + [a])
  {
    var p := q + [a];
    forall i | 0 <= i < |p| - 1
      ensures Link(g, p[i], p[i + 1])
    {
      if i < |q| - 1 {
        assert p[i] == q[i] && p[i + 1] == q[i + 1];
      }
    }
  }

  lemma {:induction false} WalkStays(g: Graph, source: Addr, p: seq<Addr>)
    requires Walk(g, p) && p[0] == source
    ensures p[|p| - 1] in Within(g, source, |p| - 1)
  {
    if |p| > 1 {
      var q := p[..|p| - 1];
      WalkStays(g, source, q);
      assert Link(g, p[|p| - 2], p[|p| - 1]);
    }
  }

  // ---------------------------------------------------------------------------
  // The search
  // ---------------------------------------------------------------------------

  ghost predicate NoDuplicates(s: seq<Addr>) {
    forall i, j :: 0 <= i < j < |s| ==> s[i] != s[j]
  }

  /** The universe is closed: no link leads out of it. */
  ghost predicate Closed(g: Graph, universe: set<Addr>) {
    forall a, b :: a in universe && Link(g, a, b) ==> b in universe
  }

  /** Every target not yet visited is now visited one deeper. */
  ghost predicate Deepened(targets: seq<Addr>, depth: nat, visited0: map<Addr, nat>, visited: map<Addr, nat>) {
    && visited.Keys == visited0.Keys + (set a | a in targets)
    && (forall a :: a in visited ==> visited[a] == if a in visited0 then visited0[a] else depth + 1)
  }

  /** What is newly visited has joined the end of the queue. */
  ghost predicate Enqueued(visited0: map<Addr, nat>, queue0: seq<Addr>, visited: map<Addr, nat>, queue: seq<Addr>) {
    && queue0 <= queue && NoDuplicates(queue)
    && (forall a :: a in queue <==> a in queue0 || (a in visited && a !in visited0))
    && (forall i :: |queue0| <= i < |queue| ==> queue[i] !in visited0)
    && (visited.Keys <= visited0.Keys ==> queue == queue0)
  }

  /** One pass over the links of a node. */
  method Expand(targets: seq<Addr>, depth: nat, visited0: map<Addr, nat>, queue0: seq<Addr>)
    returns (visited: map<Addr, nat>, queue: seq<Addr>)
    requires (forall a :: a in queue0 ==> a in visited0) && NoDuplicates(queue0)
    ensures Deepened(targets, depth, visited0, visited)
    ensures Enqueued(visited0, queue0, visited, queue)
  {
    visited, queue := visited0, queue0;
    for k := 0 to |targets|
      invariant Deepened(targets[..k], depth, visited0, visited)
      invariant Enqueued(visited0, queue0, visited, queue)
    {
      var t := targets[k];
      assert targets[..k + 1] == targets[..k] + [t];
      if t !in visited {
        visited := visited[t := depth + 1];
        queue := queue + [t];
      }
    }
    assert targets[..|targets|] == targets;
  }

  /** Every visited depth is the distance, and none exceeds the limit. */
  ghost predicate Exact(g: Graph, source: Addr, limit: nat, visited: map<Addr, nat>) {
    forall a :: a in visited ==> DistanceIs(g, source, a, visited[a]) && visited[a] <= limit
  }

  /** The queue is in order of depth, over at most two neighbouring depths. */
  ghost predicate Layered(visited: map<Addr, nat>, queue: seq<Addr>) {
    && (forall a :: a in queue ==> a in visited)
    && (forall i, j :: 0 <= i < j < |queue| ==> visited[queue[i]] <= visited[queue[j]])
    && (forall i :: 0 <= i < |queue| ==> visited[queue[i]] <= visited[queue[0]] + 1)
  }

  /** What has left the queue above the depth limit has had its links followed. */
  ghost predicate Followed(g: Graph, limit: nat, visited: map<Addr, nat>, queue: seq<Addr>) {
    forall a, b :: a in visited && a !in queue && visited[a] < limit && Link(g, a, b) ==> b in visited
  }

  lemma NearIsShallow(g: Graph, source: Addr, limit: nat, visited: map<Addr, nat>, n: nat, a: Addr)
    requires Exact(g, source, limit, visited) && a in visited && a in Within(g, source, n)
    ensures visited[a] <= n
  {
    if visited[a] > n {
      WithinGrows(g, source, n, visited[a] - 1);
    }
  }

  ghost predicate FollowedBelow(g: Graph, visited: map<Addr, nat>, n: nat) {
    forall a, b :: a in visited && visited[a] < n && Link(g, a, b) ==> b in visited
  }

  lemma LevelStep(g: Graph, source: Addr, limit: nat, visited: map<Addr, nat>, n: nat, b: Addr)
    requires Exact(g, source, limit, visited) && FollowedBelow(g, visited, n + 1)
    requires Within(g, source, n) <= visited.Keys && b in Within(g, source, n + 1)
    ensures b in visited
  {
    if b !in Within(g, source, n) {
      WithinStep(g, source, n, b);
      hide Within, Exact;
      var a :| a in Within(g, source, n) && Link(g, a, b);
      NearIsShallow(g, source, limit, visited, n, a);
    }
  }

  /** If everything visited nearer than `n` has been followed, everything within `n` is visited. */
  lemma {:induction false} LevelReached(g: Graph, source: Addr, limit: nat, visited: map<Addr, nat>, n: nat)
    requires source in visited && Exact(g, source, limit, visited) && FollowedBelow(g, visited, n)
    ensures Within(g, source, n) <= visited.Keys
  {
    assert n == 0 ==> Within(g, source, n) == {source};
    hide Within, Exact;
    if n > 0 {
      LevelReached(g, source, limit, visited, n - 1);
      forall b | b in Within(g, source, n)
        ensures b in visited
      {
        LevelStep(g, source, limit, visited, n - 1, b);
      }
    }
  }

  lemma HeadLevelReached(g: Graph, source: Addr, limit: nat, visited: map<Addr, nat>, queue: seq<Addr>)
    requires source in visited && Exact(g, source, limit, visited)
    requires Layered(visited, queue) && Followed(g, limit, visited, queue) && queue != []
    ensures Within(g, source, visited[queue[0]]) <= visited.Keys
  {
    var n := visited[queue[0]];
    forall a, b | a in visited && visited[a] < n && Link(g, a, b)
      ensures b in visited
    {
      assert a !in queue;
    }
    LevelReached(g, source, limit, visited, n);
  }

  /** A newly found address is exactly one link farther than the node it was found from. */
  lemma FoundAtNext(g: Graph, source: Addr, current: Addr, depth: nat, visited: map<Addr, nat>, b: Addr)
    requires DistanceIs(g, source, current, depth) && Link(g, current, b)
    requires Within(g, source, depth) <= visited.Keys && b !in visited
    ensures DistanceIs(g, source, b, depth + 1)
  {
  }

  /** The loop invariant of the search. */
  ghost predicate Searching(g: Graph, source: Addr, limit: nat, visited: map<Addr, nat>, queue: seq<Addr>) {
    && source in visited
    && Exact(g, source, limit, visited)
    && NoDuplicates(queue) && Layered(visited, queue)
    && Followed(g, limit, visited, queue)
  }

  lemma LayeredNext(visited0: map<Addr, nat>, queue0: seq<Addr>, targets: seq<Addr>,
                    visited: map<Addr, nat>, queue: seq<Addr>)
    requires queue0 != [] && Layered(visited0, queue0)
    requires Deepened(targets, visited0[queue0[0]], visited0, visited)
    requires Enqueued(visited0, queue0[1..], visited, queue)
    ensures Layered(visited, queue)
  {
    var depth := visited0[queue0[0]];
    forall i | 0 <= i < |queue|
      ensures queue[i] in visited && depth <= visited[queue[i]] <= depth + 1
    {
      assert queue[i] in queue;
      if i < |queue0| - 1 {
        assert queue[i] == queue0[i + 1] && queue0[i + 1] in queue0;
      }
    }
    forall i, j | 0 <= i < j < |queue|
      ensures visited[queue[i]] <= visited[queue[j]]
    {
      if j < |queue0| - 1 {
        assert queue[i] == queue0[i + 1] && queue[j] == queue0[j + 1];
        assert queue0[i + 1] in queue0 && queue0[j + 1] in queue0;
      }
    }
  }

  lemma FollowedNext(g: Graph, limit: nat, visited0: map<Addr, nat>, queue0: seq<Addr>,
                     visited: map<Addr, nat>, queue: seq<Addr>, depth: nat)
    requires queue0 != [] && Followed(g, limit, visited0, queue0)
    requires Deepened(Links(g, queue0[0]), depth, visited0, visited)
    requires Enqueued(visited0, queue0[1..], visited, queue)
    ensures Followed(g, limit, visited, queue)
  {
    assert queue0 == [queue0[0]] + queue0[1..];
    forall a, b | a in visited && a !in queue && visited[a] < limit && Link(g, a, b)
      ensures b in visited
    {
      assert a in visited0 && a !in queue0[1..];
    }
  }

  lemma ExactNext(g: Graph, source: Addr, limit: nat, visited0: map<Addr, nat>, current: Addr, visited: map<Addr, nat>)
    requires Exact(g, source, limit, visited0) && current in visited0 && visited0[current] < limit
    requires Within(g, source, visited0[current]) <= visited0.Keys
    requires Deepened(Links(g, current), visited0[current], visited0, visited)
    ensures Exact(g, source, limit, visited)
  {
    hide Within, DistanceIs;
    forall a | a in visited
      ensures DistanceIs(g, source, a, visited[a]) && visited[a] <= limit
    {
      if a !in visited0 {
        FoundAtNext(g, source, current, visited0[current], visited0, a);
      }
    }
  }

  lemma HeadVisited(g: Graph, source: Addr, limit: nat, visited: map<Addr, nat>, queue: seq<Addr>)
    requires Searching(g, source, limit, visited, queue) && queue != []
    ensures queue[0] in visited && visited[queue[0]] <= limit
    ensures (forall a :: a in queue[1..] ==> a in visited) && NoDuplicates(queue[1..])
  {
    assert forall a :: a in queue[1..] ==> a in queue;
  }

  /** Following the links of the first node in the queue keeps the search invariant. */
  lemma SearchStep(g: Graph, source: Addr, limit: nat, visited0: map<Addr, nat>, queue0: seq<Addr>,
                   visited: map<Addr, nat>, queue: seq<Addr>)
    requires Searching(g, source, limit, visited0, queue0) && queue0 != []
    requires queue0[0] in visited0 && visited0[queue0[0]] < limit
    requires Deepened(Links(g, queue0[0]), visited0[queue0[0]], visited0, visited)
    requires Enqueued(visited0, queue0[1..], visited, queue)
    ensures Searching(g, source, limit, visited, queue)
  {
    LayeredNext(visited0, queue0, Links(g, queue0[0]), visited, queue);
    FollowedNext(g, limit, visited0, queue0, visited, queue, visited0[queue0[0]]);
    HeadLevelReached(g, source, limit, visited0, queue0);
    ExactNext(g, source, limit, visited0, queue0[0], visited);
    hide Layered, Followed, Exact;
  }

  /** So does dropping it at the depth limit. */
  lemma SearchSkip(g: Graph, source: Addr, limit: nat, visited: map<Addr, nat>, queue: seq<Addr>)
    requires Searching(g, source, limit, visited, queue) && queue != []
    requires queue[0] in visited && visited[queue[0]] >= limit
    ensures Searching(g, source, limit, visited, queue[1..])
  {
    assert queue == [queue[0]] + queue[1..];
  }

  lemma SearchDone(g: Graph, source: Addr, limit: nat, visited: map<Addr, nat>)
    requires Searching(g, source, limit, visited, [])
    ensures visited.Keys == Within(g, source, limit)
    ensures Exact(g, source, limit, visited)
  {
    LevelReached(g, source, limit, visited, limit);
    forall a | a in visited
      ensures a in Within(g, source, limit)
    {
      WithinGrows(g, source, visited[a], limit);
    }
  }

  /** The depth-bounded search: it visits exactly the addresses within the limit and gives each its
      distance. A negative limit acts as zero. */
  method Explore(g: Graph, source: Addr, limit: int, ghost universe: set<Addr>)
    returns (visited: map<Addr, nat>)
    requires source in universe && Closed(g, universe)
    ensures visited.Keys == Within(g, source, if limit < 0 then 0 else limit)
    ensures Exact(g, source, if limit < 0 then 0 else limit, visited)
  {
    ghost var bound: nat := if limit < 0 then 0 else limit;
    visited := map[source := 0];
    var queue := [source];
    SearchStart(g, source, bound);
    hide Searching, Within;
    while |queue| > 0
      invariant visited.Keys <= universe
      invariant Searching(g, source, bound, visited, queue)
      decreases universe - visited.Keys, |queue|
    {
      HeadVisited(g, source, bound, visited, queue);
      var current := queue[0];
      var depth := visited[current];
      if depth >= limit {
        SearchSkip(g, source, bound, visited, queue);
        queue := queue[1..];
        continue;
      }
      ghost var visited0, queue0 := visited, queue;
      visited, queue := Expand(Links(g, current), depth, visited, queue[1..]);
      SearchStep(g, source, bound, visited0, queue0, visited, queue);
      assert visited.Keys <= universe by {
        assert forall b :: b in Links(g, current) ==> Link(g, current, b);
      }
      if a :| a in visited && a !in visited0 {
        assert a in universe - visited0.Keys;
      }
    }
    SearchDone(g, source, bound, visited);
  }

  lemma SearchStart(g: Graph, source: Addr, limit: nat)
    ensures Searching(g, source, limit, map[source := 0], [source])
  {
  }
}
