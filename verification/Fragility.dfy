/** The fragility scorer: breadth-first searches over a dependency graph, checked against
    paths. The graph may have cycles and may name models it has no entry for. */
module Fragility {
  type Name = string
  type Graph = map<Name, seq<Name>>

  function Adjacent(g: Graph, n: Name): seq<Name> {
    if n in g then g[n] else []
  }

  function Prob(predictions: map<Name, real>, n: Name): real {
    if n in predictions then predictions[n] else 0.0
  }

  /** p leads from a to b along edges of g; its length is |p| - 1. */
  ghost predicate IsPath(g: Graph, a: Name, b: Name, p: seq<Name>) {
    && |p| >= 1 && p[0] == a && p[|p| - 1] == b
    && forall k :: 0 <= k < |p| - 1 ==> IsEdge(g, p[k], p[k + 1])
  }

  predicate IsEdge(g: Graph, a: Name, b: Name) {
    b in Adjacent(g, a)
  }

  /** b is reached from a by at least one edge. */
  ghost predicate Reaches(g: Graph, a: Name, b: Name) {
    exists p :: IsPath(g, a, b, p) && |p| >= 2
  }

  /** 0.8 to the power n. */
  function Decay(n: nat): real {
    if n == 0 then 1.0 else 0.8 * Decay(n - 1)
  }

  /** A model's probability as seen from d edges away. */
  function Decayed(predictions: map<Name, real>, n: Name, d: nat): real {
    Prob(predictions, n) * Decay(d)
  }

  /** The decayed probability a path brings back to its start. */
  ghost function PathRisk(predictions: map<Name, real>, p: seq<Name>): real
    requires |p| >= 2
  {
    Decayed(predictions, p[|p| - 1], |p| - 1)
  }

  /** Of the probability at the end of a path, 0 for a model that none is given for, each edge
      leaves four fifths. */
  lemma RiskByEdges(predictions: map<Name, real>, p: seq<Name>)
    requires |p| >= 2
    ensures var end := p[|p| - 1];
      PathRisk(predictions, p) == if end !in predictions then 0.0
                                  else if |p| == 2 then predictions[end] * 4.0 / 5.0
                                  else PathRisk(predictions, p[1..]) * 4.0 / 5.0
  {
    assert Decay(1) == 0.8;
    FourFifths(Prob(predictions, p[|p| - 1]), Decay(|p| - 2));
  }

  lemma FourFifths(x: real, y: real)
    ensures x * (0.8 * y) == (x * y) * 4.0 / 5.0
  {
  }

  /** The upstream risk: the greatest decayed probability over all non-empty paths, 0 if none is positive. */
  ghost predicate IsUpstreamRisk(g: Graph, predictions: map<Name, real>, m: Name, r: real) {
    && r >= 0.0
    && (forall b, p :: IsPath(g, m, b, p) && |p| >= 2 ==> PathRisk(predictions, p) <= r)
    && (r > 0.0 ==> IsAttained(g, predictions, m, r))
  }

  ghost predicate IsAttained(g: Graph, predictions: map<Name, real>, m: Name, r: real) {
    exists b, p :: IsPath(g, m, b, p) && |p| >= 2 && PathRisk(predictions, p) == r
  }

  lemma UpstreamRiskUnique(g: Graph, predictions: map<Name, real>, m: Name, r: real, r': real)
    requires IsUpstreamRisk(g, predictions, m, r) && IsUpstreamRisk(g, predictions, m, r')
    ensures r == r'
  {
    if r > 0.0 {
      var b, p :| IsPath(g, m, b, p) && |p| >= 2 && PathRisk(predictions, p) == r;
      assert PathRisk(predictions, p) <= r';
    }
    if r' > 0.0 {
      var b, p :| IsPath(g, m, b, p) && |p| >= 2 && PathRisk(predictions, p) == r';
      assert PathRisk(predictions, p) <= r;
    }
  }

  lemma {:induction false} DecayMonotone(m: nat, n: nat)
    requires m <= n
    ensures 0.0 < Decay(n) <= Decay(m)
  {
    if n > 0 {
      if m < n { DecayMonotone(m, n - 1); } else { DecayMonotone(m - 1, n - 1); }
    }
  }

  lemma PathExtend(g: Graph, a: Name, b: Name, p: seq<Name>, c: Name)
    requires IsPath(g, a, b, p) && IsEdge(g, b, c)
    ensures IsPath(g, a, c, p + [c])
  {
    var q := p + [c];
    forall k | 0 <= k < |q| - 1 ensures IsEdge(g, q[k], q[k + 1]) {
      if k < |p| - 1 { assert IsEdge(g, p[k], p[k + 1]); }
    }
  }

  lemma PathInit(g: Graph, a: Name, b: Name, p: seq<Name>)
    requires IsPath(g, a, b, p) && |p| >= 2
    ensures IsPath(g, a, p[|p| - 2], p[..|p| - 1]) && IsEdge(g, p[|p| - 2], b)
  {
    assert IsEdge(g, p[|p| - 2], p[|p| - 1]);
    var q := p[..|p| - 1];
    forall k | 0 <= k < |q| - 1 ensures IsEdge(g, q[k], q[k + 1]) {
      assert IsEdge(g, p[k], p[k + 1]);
    }
  }

  // ---- breadth-first search ------------------------------------------------------------

  /** What sorting must keep: the elements. The results do not depend on the order. */
  ghost predicate KeepsElements(sorted: seq<Name> -> seq<Name>) {
    forall xs: seq<Name>, n: Name :: n in sorted(xs) <==> n in xs
  }

  ghost function Nodes(g: Graph): set<Name> {
    g.Keys + set k, n | k in g && n in g[k] :: n
  }

  datatype Entry = Entry(node: Name, depth: nat)

  /** Every path of length d or less ends where the search has been or will be. */
  ghost predicate EdgeDone(visited: map<Name, nat>, queue: seq<Entry>, d: nat, n: Name) {
    (n in visited && visited[n] <= d) || Entry(n, d) in queue
  }

  /** The search state: depths in the queue grow by at most one and visited depths are
      behind it, every entry has a path of its depth, and no edge is forgotten. */
  ghost predicate Searching(g: Graph, m: Name, visited: map<Name, nat>, queue: seq<Entry>) {
    InOrder(visited, queue) && HavePaths(g, m, visited, queue) && EdgesDone(g, m, visited, queue)
  }

  ghost predicate InOrder(visited: map<Name, nat>, queue: seq<Entry>) {
    && (forall i, j :: 0 <= i < j < |queue| ==> queue[i].depth <= queue[j].depth <= queue[i].depth + 1)
    && (forall n, i :: n in visited && 0 <= i < |queue| ==> visited[n] <= queue[i].depth)
  }

  ghost predicate HavePaths(g: Graph, m: Name, visited: map<Name, nat>, queue: seq<Entry>) {
    && (forall i :: 0 <= i < |queue| ==> HasPath(g, m, queue[i].node, queue[i].depth))
    && (forall n :: n in visited ==> HasPath(g, m, n, visited[n]))
  }

  ghost predicate EdgesDone(g: Graph, m: Name, visited: map<Name, nat>, queue: seq<Entry>) {
    && (forall n :: IsEdge(g, m, n) ==> EdgeDone(visited, queue, 1, n))
    && (forall a, n :: a in visited && IsEdge(g, a, n) ==> EdgeDone(visited, queue, visited[a] + 1, n))
  }

  ghost predicate HasPath(g: Graph, m: Name, n: Name, d: nat) {
    d >= 1 && exists p :: IsPath(g, m, n, p) && |p| == d + 1
  }

  /** With the queue empty, no path is shorter than the visited depth of its end. */
  lemma {:induction false} SearchComplete(g: Graph, m: Name, visited: map<Name, nat>, b: Name, p: seq<Name>)
    requires Searching(g, m, visited, []) && IsPath(g, m, b, p) && |p| >= 2
    ensures b in visited && visited[b] <= |p| - 1
    decreases |p|
  {
    PathInit(g, m, b, p);
    var a := p[|p| - 2];
    if |p| == 2 {
      assert EdgeDone(visited, [], 1, b);
    } else {
      SearchComplete(g, m, visited, a, p[..|p| - 1]);
      assert EdgeDone(visited, [], visited[a] + 1, b);
    }
  }

  /** The first entry is a node of the graph, reached by a path of the entry's depth. */
  lemma FirstEntry(g: Graph, predictions: map<Name, real>, m: Name, visited: map<Name, nat>, queue: seq<Entry>)
    requires Searching(g, m, visited, queue) && queue != []
    ensures queue[0].node in Nodes(g) && Reaches(g, m, queue[0].node)
    ensures IsAttained(g, predictions, m, Decayed(predictions, queue[0].node, queue[0].depth))
  {
    var Entry(node, depth) := queue[0];
    assert HasPath(g, m, node, depth);
    var p :| IsPath(g, m, node, p) && |p| == depth + 1;
    PathInit(g, m, node, p);
    assert PathRisk(predictions, p) == Decayed(predictions, node, depth);
  }

  /** Skipping an entry whose node was visited before. */
  lemma SkipKeeps(g: Graph, m: Name, visited: map<Name, nat>, queue: seq<Entry>)
    requires Searching(g, m, visited, queue) && queue != [] && queue[0].node in visited
    ensures Searching(g, m, visited, queue[1..])
  {
    var rest := queue[1..];
    assert visited[queue[0].node] <= queue[0].depth;
    forall d, n | EdgeDone(visited, queue, d, n) ensures EdgeDone(visited, rest, d, n) {
      if Entry(n, d) in queue && Entry(n, d) != queue[0] {
        assert queue == [queue[0]] + rest;
      }
    }
  }

  /** The entries queued for the neighbours of a node visited at depth d. */
  function Queued(more: seq<Name>, d: nat): seq<Entry> {
    seq(|more|, i requires 0 <= i < |more| => Entry(more[i], d + 1))
  }

  /** Visiting the first entry's node and queueing `more`, its unvisited neighbours. */
  lemma VisitKeeps(g: Graph, m: Name, visited: map<Name, nat>, queue: seq<Entry>, more: seq<Name>)
    requires Searching(g, m, visited, queue) && queue != [] && queue[0].node !in visited
    requires forall n :: n in more <==> IsEdge(g, queue[0].node, n) && n !in visited && n != queue[0].node
    ensures Searching(g, m, visited[queue[0].node := queue[0].depth], queue[1..] + Queued(more, queue[0].depth))
  {
    VisitInOrder(visited, queue, more);
    VisitPaths(g, m, visited, queue, more);
    VisitEdges(g, m, visited, queue, more);
  }

  lemma VisitInOrder(visited: map<Name, nat>, queue: seq<Entry>, more: seq<Name>)
    requires InOrder(visited, queue) && queue != []
    ensures InOrder(visited[queue[0].node := queue[0].depth], queue[1..] + Queued(more, queue[0].depth))
  {
    var Entry(v, d) := queue[0];
    var queue' := queue[1..] + Queued(more, d);
    forall i | 0 <= i < |queue'| ensures d <= queue'[i].depth <= d + 1 {
      if i < |queue| - 1 { assert queue'[i] == queue[i + 1]; }
    }
    forall i, j | 0 <= i < j < |queue'| ensures queue'[i].depth <= queue'[j].depth <= queue'[i].depth + 1 {
      if j < |queue| - 1 { assert queue'[i] == queue[i + 1] && queue'[j] == queue[j + 1]; }
    }
  }

  lemma VisitPaths(g: Graph, m: Name, visited: map<Name, nat>, queue: seq<Entry>, more: seq<Name>)
    requires HavePaths(g, m, visited, queue) && queue != []
    requires forall n :: n in more ==> IsEdge(g, queue[0].node, n)
    ensures HavePaths(g, m, visited[queue[0].node := queue[0].depth], queue[1..] + Queued(more, queue[0].depth))
  {
    var Entry(v, d) := queue[0];
    assert HasPath(g, m, v, d);
    var p :| IsPath(g, m, v, p) && |p| == d + 1;
    var queue' := queue[1..] + Queued(more, d);
    forall i | 0 <= i < |queue'| ensures HasPath(g, m, queue'[i].node, queue'[i].depth) {
      if i < |queue| - 1 {
        assert queue'[i] == queue[i + 1];
      } else {
        var n := more[i - (|queue| - 1)];
        assert n in more;
        PathExtend(g, m, v, p, n);
      }
    }
  }

  lemma StaysQueued(visited: map<Name, nat>, queue: seq<Entry>, added: seq<Entry>, e: nat, n: Name)
    requires queue != [] && queue[0].node !in visited && EdgeDone(visited, queue, e, n)
    ensures EdgeDone(visited[queue[0].node := queue[0].depth], queue[1..] + added, e, n)
  {
    if Entry(n, e) in queue {
      assert queue == [queue[0]] + queue[1..];
    }
  }

  lemma VisitEdges(g: Graph, m: Name, visited: map<Name, nat>, queue: seq<Entry>, more: seq<Name>)
    requires EdgesDone(g, m, visited, queue) && queue != [] && queue[0].node !in visited
    requires forall n :: n in more <==> IsEdge(g, queue[0].node, n) && n !in visited && n != queue[0].node
    requires InOrder(visited, queue)
    ensures EdgesDone(g, m, visited[queue[0].node := queue[0].depth], queue[1..] + Queued(more, queue[0].depth))
  {
    var Entry(v, d) := queue[0];
    var added := Queued(more, d);
    var queue' := queue[1..] + added;
    var visited' := visited[v := d];
    forall n | IsEdge(g, m, n) ensures EdgeDone(visited', queue', 1, n) {
      StaysQueued(visited, queue, added, 1, n);
    }
    forall a, n | a in visited' && IsEdge(g, a, n) ensures EdgeDone(visited', queue', visited'[a] + 1, n) {
      if a != v {
        StaysQueued(visited, queue, added, visited[a] + 1, n);
      } else if n !in visited' {
        var i :| 0 <= i < |more| && more[i] == n;
        assert added[i] == Entry(n, d + 1);
        assert Entry(n, d + 1) in added;
      }
    }
  }

  method Neighbours(g: Graph, n: Name, sorted: seq<Name> -> seq<Name>) returns (xs: seq<Name>)
    requires KeepsElements(sorted)
    ensures forall x :: x in xs <==> IsEdge(g, n, x)
  {
    xs := sorted(Adjacent(g, n));
  }

  /** The neighbours of n the search has not visited, in the order they are pushed. */
  method Unvisited(g: Graph, n: Name, visited: set<Name>, sorted: seq<Name> -> seq<Name>) returns (more: seq<Name>)
    requires KeepsElements(sorted)
    ensures forall x :: x in more <==> IsEdge(g, n, x) && x !in visited
  {
    var xs := Neighbours(g, n, sorted);
    more := [];
    for i := 0 to |xs|
      invariant forall x :: x in more <==> x in xs[..i] && x !in visited
    {
      if xs[i] !in visited {
        more := more + [xs[i]];
      }
    }
  }

  /** `_compute_upstream_risk`: first-in first-out order reaches every ancestor first at its
      shortest distance, so one visit a node is enough for the maximum over all paths. */
  method ComputeUpstreamRisk(g: Graph, predictions: map<Name, real>, m: Name, sorted: seq<Name> -> seq<Name>) returns (maxRisk: real)
    requires KeepsElements(sorted)
    ensures IsUpstreamRisk(g, predictions, m, maxRisk)
  {
    maxRisk := 0.0;
    ghost var risks: map<Name, real> := map[];
    var seen: set<Name> := {};
    ghost var visited: map<Name, nat> := map[];
    var first := Neighbours(g, m, sorted);
    var queue := Queued(first, 0);
    StartSearch(g, m, first);
    while queue != []
      invariant Searching(g, m, visited, queue) && seen == visited.Keys && seen <= Nodes(g)
      invariant AreRisks(predictions, visited, risks) && MaxSoFar(g, predictions, m, risks, maxRisk)
      decreases Nodes(g) - seen, |queue|
    {
      var Entry(node, depth) := queue[0];
      if node in seen {
        SkipKeeps(g, m, visited, queue);
        queue := queue[1..];
        continue;
      }
      FirstEntry(g, predictions, m, visited, queue);
      VisitRisk(g, predictions, m, visited, risks, maxRisk, node, depth);
      seen := seen + {node};
      var decayed := Decayed(predictions, node, depth);
      maxRisk := if decayed > maxRisk then decayed else maxRisk;
      risks := risks[node := decayed];
      var more := Unvisited(g, node, seen, sorted);
      VisitKeeps(g, m, visited, queue, more);
      visited := visited[node := depth];
      queue := queue[1..] + Queued(more, depth);
    }
    NoPathAbove(g, predictions, m, visited, risks, maxRisk);
  }

  /** r is the greatest of the visited nodes' decayed probabilities, 0 if none is positive. */
  ghost predicate MaxSoFar(g: Graph, predictions: map<Name, real>, m: Name, risks: map<Name, real>, r: real) {
    && r >= 0.0
    && (forall n :: n in risks ==> risks[n] <= r)
    && (r > 0.0 ==> IsAttained(g, predictions, m, r))
  }

  ghost predicate AreRisks(predictions: map<Name, real>, visited: map<Name, nat>, risks: map<Name, real>) {
    risks.Keys == visited.Keys && forall n :: n in visited ==> risks[n] == Decayed(predictions, n, visited[n])
  }

  lemma VisitRisk(g: Graph, predictions: map<Name, real>, m: Name, visited: map<Name, nat>, risks: map<Name, real>, r: real, node: Name, depth: nat)
    requires AreRisks(predictions, visited, risks) && MaxSoFar(g, predictions, m, risks, r)
    requires IsAttained(g, predictions, m, Decayed(predictions, node, depth))
    ensures var decayed := Decayed(predictions, node, depth);
      && AreRisks(predictions, visited[node := depth], risks[node := decayed])
      && MaxSoFar(g, predictions, m, risks[node := decayed], if decayed > r then decayed else r)
  {
    var decayed := Decayed(predictions, node, depth);
    RaiseMax(g, predictions, m, risks, r, node, decayed);
  }

  lemma RaiseMax(g: Graph, predictions: map<Name, real>, m: Name, risks: map<Name, real>, r: real, node: Name, decayed: real)
    requires MaxSoFar(g, predictions, m, risks, r) && IsAttained(g, predictions, m, decayed)
    ensures MaxSoFar(g, predictions, m, risks[node := decayed], if decayed > r then decayed else r)
  {
  }

  lemma NoPathAbove(g: Graph, predictions: map<Name, real>, m: Name, visited: map<Name, nat>, risks: map<Name, real>, r: real)
    requires Searching(g, m, visited, []) && AreRisks(predictions, visited, risks) && MaxSoFar(g, predictions, m, risks, r)
    ensures forall b, p :: IsPath(g, m, b, p) && |p| >= 2 ==> PathRisk(predictions, p) <= r
  {
    forall b, p | IsPath(g, m, b, p) && |p| >= 2 ensures PathRisk(predictions, p) <= r {
      SearchComplete(g, m, visited, b, p);
      DecayMonotone(visited[b], |p| - 1);
      RiskMonotone(Prob(predictions, b), Decay(visited[b]), Decay(|p| - 1));
    }
  }

  lemma RiskMonotone(prob: real, near: real, far: real)
    requires 0.0 < far <= near
    ensures prob * far <= prob * near || prob * far <= 0.0
  {
  }

  lemma StartSearch(g: Graph, m: Name, xs: seq<Name>)
    requires forall x :: x in xs <==> IsEdge(g, m, x)
    ensures Searching(g, m, map[], Queued(xs, 0))
  {
    var queue := Queued(xs, 0);
    forall i | 0 <= i < |queue| ensures HasPath(g, m, queue[i].node, queue[i].depth) {
      assert xs[i] in xs;
      assert IsPath(g, m, m, [m]);
      PathExtend(g, m, m, [m], xs[i]);
    }
    forall n | IsEdge(g, m, n) ensures EdgeDone(map[], queue, 1, n) {
      assert n in xs;
      var i :| 0 <= i < |xs| && xs[i] == n;
      assert queue[i] == Entry(n, 1);
    }
  }

  /** The state of the searches that keep no depths, with the depths restored. */
  ghost predicate Collecting(g: Graph, m: Name, visited: map<Name, nat>, entries: seq<Entry>, queue: seq<Name>, seen: set<Name>) {
    && Searching(g, m, visited, entries) && seen == visited.Keys && seen <= Nodes(g)
    && |entries| == |queue| && forall i :: 0 <= i < |queue| ==> entries[i].node == queue[i]
  }

  lemma SkipCollects(g: Graph, m: Name, visited: map<Name, nat>, entries: seq<Entry>, queue: seq<Name>, seen: set<Name>)
    requires Collecting(g, m, visited, entries, queue, seen) && queue != [] && queue[0] in seen
    ensures Collecting(g, m, visited, entries[1..], queue[1..], seen)
  {
    SkipKeeps(g, m, visited, entries);
  }

  lemma VisitCollects(g: Graph, m: Name, visited: map<Name, nat>, entries: seq<Entry>, queue: seq<Name>, seen: set<Name>, more: seq<Name>)
    requires Collecting(g, m, visited, entries, queue, seen) && queue != [] && queue[0] !in seen
    requires forall n :: n in more <==> IsEdge(g, queue[0], n) && n !in seen + {queue[0]}
    ensures Collecting(g, m, visited[queue[0] := entries[0].depth],
              entries[1..] + Queued(more, entries[0].depth), queue[1..] + more, seen + {queue[0]})
  {
    FirstEntry(g, map[], m, visited, entries);
    VisitKeeps(g, m, visited, entries, more);
  }

  /** The search that only collects: every node reached by at least one edge. */
  method Reachable(g: Graph, m: Name, sorted: seq<Name> -> seq<Name>) returns (seen: set<Name>)
    requires KeepsElements(sorted)
    ensures forall b :: b in seen <==> Reaches(g, m, b)
  {
    seen := {};
    ghost var visited: map<Name, nat> := map[];
    var queue := Neighbours(g, m, sorted);
    ghost var entries := Queued(queue, 0);
    StartSearch(g, m, queue);
    while queue != []
      invariant Collecting(g, m, visited, entries, queue, seen)
      decreases Nodes(g) - seen, |queue|
    {
      var node := queue[0];
      ghost var depth := entries[0].depth;
      if node in seen {
        SkipCollects(g, m, visited, entries, queue, seen);
        queue, entries := queue[1..], entries[1..];
        continue;
      }
      seen := seen + {node};
      var more := Unvisited(g, node, seen, sorted);
      VisitCollects(g, m, visited, entries, queue, visited.Keys, more);
      visited := visited[node := depth];
      queue, entries := queue[1..] + more, entries[1..] + Queued(more, depth);
    }
    CollectsReached(g, m, visited);
  }

  lemma CollectsReached(g: Graph, m: Name, visited: map<Name, nat>)
    requires Searching(g, m, visited, [])
    ensures forall b :: b in visited <==> Reaches(g, m, b)
  {
    forall b ensures b in visited <==> Reaches(g, m, b) {
      if b in visited {
        assert HasPath(g, m, b, visited[b]);
      }
      if Reaches(g, m, b) {
        var p :| IsPath(g, m, b, p) && |p| >= 2;
        SearchComplete(g, m, visited, b, p);
      }
    }
  }

  /** `_is_on_critical_path`: stops at the first ancestor that is not above the threshold. */
  method IsOnCriticalPath(g: Graph, predictions: map<Name, real>, m: Name, threshold: real, sorted: seq<Name> -> seq<Name>) returns (critical: bool)
    requires KeepsElements(sorted)
    ensures critical <==> Prob(predictions, m) > threshold && forall b :: Reaches(g, m, b) ==> Prob(predictions, b) > threshold
  {
    if Prob(predictions, m) <= threshold {
      return false;
    }
    var seen: set<Name> := {};
    ghost var visited: map<Name, nat> := map[];
    var queue := Neighbours(g, m, sorted);
    ghost var entries := Queued(queue, 0);
    StartSearch(g, m, queue);
    while queue != []
      invariant Collecting(g, m, visited, entries, queue, seen)
      invariant forall n :: n in seen ==> Prob(predictions, n) > threshold
      decreases Nodes(g) - seen, |queue|
    {
      var node := queue[0];
      ghost var depth := entries[0].depth;
      if node in seen {
        SkipCollects(g, m, visited, entries, queue, seen);
        queue, entries := queue[1..], entries[1..];
        continue;
      }
      FirstEntry(g, predictions, m, visited, entries);
      seen := seen + {node};
      if Prob(predictions, node) <= threshold {
        assert Reaches(g, m, node);
        return false;
      }
      var more := Unvisited(g, node, seen, sorted);
      VisitCollects(g, m, visited, entries, queue, visited.Keys, more);
      visited := visited[node := depth];
      queue, entries := queue[1..] + more, entries[1..] + Queued(more, depth);
    }
    CollectsReached(g, m, visited);
    critical := true;
  }

  // ---- the reversed graph ----------------------------------------------------------------

  /** Every edge of g, and no other, the other way round. */
  ghost predicate IsReverse(g: Graph, r: Graph) {
    forall a, b :: IsEdge(r, b, a) <==> IsEdge(g, a, b)
  }

  /** `_build_reverse_dag`: entries for all of g's keys and for every parent met. */
  method BuildReverse(g: Graph) returns (r: Graph)
    ensures IsReverse(g, r)
    ensures forall n :: n in r <==> n in Nodes(g)
  {
    r := map n | n in g :: [];
    var left := g.Keys;
    while left != {}
      invariant left <= g.Keys
      invariant forall n :: n in r <==> n in g || exists k :: k in g && k !in left && n in g[k]
      invariant forall a, b :: IsEdge(r, b, a) <==> a in g && a !in left && b in g[a]
      decreases left
    {
      var child :| child in left;
      r := AddChild(r, child, g[child]);
      left := left - {child};
    }
  }

  /** Enters the child under each of its parents. */
  method AddChild(r0: Graph, child: Name, parents: seq<Name>) returns (r: Graph)
    ensures forall n :: n in r <==> n in r0 || n in parents
    ensures forall a, b :: IsEdge(r, b, a) <==> IsEdge(r0, b, a) || (a == child && b in parents)
  {
    r := r0;
    for i := 0 to |parents|
      invariant forall n :: n in r <==> n in r0 || n in parents[..i]
      invariant forall a, b :: IsEdge(r, b, a) <==> IsEdge(r0, b, a) || (a == child && b in parents[..i])
    {
      var parent := parents[i];
      ghost var before := r;
      if parent !in r {
        r := r[parent := []];
      }
      assert forall a, b :: IsEdge(r, b, a) <==> IsEdge(before, b, a);
      ghost var r1 := r;
      r := r[parent := r[parent] + [child]];
      assert forall a, b :: IsEdge(r, b, a) <==> IsEdge(r1, b, a) || (a == child && b == parent);
      assert parents[..i + 1] == parents[..i] + [parent];
    }
  }

  function Backwards(p: seq<Name>): seq<Name> {
    seq(|p|, i requires 0 <= i < |p| => p[|p| - 1 - i])
  }

  lemma PathBackwards(g: Graph, r: Graph, a: Name, b: Name, p: seq<Name>)
    requires IsReverse(g, r) && IsPath(g, a, b, p)
    ensures IsPath(r, b, a, Backwards(p))
  {
    var q := Backwards(p);
    forall k | 0 <= k < |q| - 1 ensures IsEdge(r, q[k], q[k + 1]) {
      assert IsEdge(g, p[|p| - 2 - k], p[|p| - 2 - k + 1]);
    }
  }

  /** Downstream of m in the reversed graph are exactly the models m is upstream of. */
  lemma DownstreamIsUpstream(g: Graph, r: Graph, m: Name, d: Name)
    requires IsReverse(g, r)
    ensures Reaches(r, m, d) <==> Reaches(g, d, m)
  {
    if Reaches(g, d, m) {
      var p :| IsPath(g, d, m, p) && |p| >= 2;
      PathBackwards(g, r, d, m, p);
    }
    if Reaches(r, m, d) {
      var p :| IsPath(r, m, d, p) && |p| >= 2;
      PathBackwards(r, g, m, d, p);
    }
  }

  // ---- the composite score -------------------------------------------------------------------

  datatype Weights = Weights(own: real, upstream: real, cascade: real)

  datatype Score = Score(ownRisk: real, upstreamRisk: real, cascadeRisk: real, fragility: real, critical: bool)

  function Min(a: real, b: real): real { if a <= b then a else b }

  lemma OwnRisk(predictions: map<Name, real>, m: Name)
    ensures Prob(predictions, m) == if m in predictions then predictions[m] else 0.0
  {
  }

  /** The models that depend on m, directly or not. */
  ghost predicate IsBlastRadius(g: Graph, m: Name, down: set<Name>) {
    forall d :: d in down <==> Reaches(g, d, m)
  }

  /** The cascade risk scaled by the number of entries of the graph. */
  function Normalised(cascade: real, size: nat): real {
    var n: nat := if size > 1 then size else 1;
    Min(cascade / n as real, 1.0)
  }

  function Blend(w: Weights, own: real, upstream: real, cascade: real): real {
    w.own * own + w.upstream * upstream + w.cascade * cascade
  }

  /** The score before rounding; `size` is the number of entries of the graph. */
  function Composite(w: Weights, own: real, upstream: real, cascade: real, size: nat): real {
    Min(Blend(w, own, Min(upstream, 1.0), Normalised(cascade, size)) * 10.0, 10.0)
  }

  predicate Scored(w: Weights, size: nat, s: Score) {
    s.fragility == Composite(w, s.ownRisk, s.upstreamRisk, s.cascadeRisk, size)
  }

  lemma ScoredByParts(w: Weights, size: nat, s: Score)
    requires s.fragility == Composite(w, s.ownRisk, s.upstreamRisk, s.cascadeRisk, size)
    ensures Scored(w, size, s)
  {
  }

  lemma DownstreamIsRadius(g: Graph, reverse: Graph, m: Name, down: set<Name>)
    requires IsReverse(g, reverse) && forall d :: d in down <==> Reaches(reverse, m, d)
    ensures IsBlastRadius(g, m, down)
  {
    hide IsReverse, Reaches;
    forall d ensures d in down <==> Reaches(g, d, m) {
      DownstreamIsUpstream(g, reverse, m, d);
    }
  }

  /** `compute_fragility`, without the rounding of its results. */
  method ComputeFragility(w: Weights, g: Graph, predictions: map<Name, real>, m: Name, sorted: seq<Name> -> seq<Name>) returns (score: Score, ghost down: set<Name>)
    requires KeepsElements(sorted)
    ensures score.ownRisk == if m in predictions then predictions[m] else 0.0
    ensures IsUpstreamRisk(g, predictions, m, score.upstreamRisk)
    ensures IsBlastRadius(g, m, down) && score.cascadeRisk == |down| as real * score.ownRisk
    ensures score.critical <==> score.ownRisk > 0.3 && forall b :: Reaches(g, m, b) ==> Prob(predictions, b) > 0.3
    ensures Scored(w, |g|, score)
    ensures score.ownRisk == score.upstreamRisk == 0.0 ==> score.fragility == 0.0
  {
    hide Composite, IsUpstreamRisk, Reaches, Prob, IsReverse, KeepsElements;
    NoRiskNoScore(w, |g|);
    OwnRisk(predictions, m);
    var own := Prob(predictions, m);
    var upstream := ComputeUpstreamRisk(g, predictions, m, sorted);
    var reverse := BuildReverse(g);
    var downstream := Reachable(reverse, m, sorted);
    DownstreamIsRadius(g, reverse, m, downstream);
    hide IsBlastRadius, Scored;
    var cascade := |downstream| as real * own;
    var critical := IsOnCriticalPath(g, predictions, m, 0.3, sorted);
    score := Score(own, upstream, cascade, Composite(w, own, upstream, cascade, |g|), critical);
    ScoredByParts(w, |g|, score);
    down := downstream;
  }

  lemma NoRiskNoScore(w: Weights, size: nat)
    ensures Composite(w, 0.0, 0.0, 0.0, size) == 0.0
  {
    var n: nat := if size > 1 then size else 1;
    assert 0.0 / n as real == 0.0;
  }

  /** From a score below the cap to any other, but not above the cap of 10: ten times its weight for each step of the own
      risk; of the upstream risk, up to 1; and of the cascade risk for each entry of the graph. */
  lemma ScoreRates(w: Weights, size: nat, a: Score, b: Score)
    requires Scored(w, size, a) && Scored(w, size, b) && a.fragility < 10.0
    requires a.upstreamRisk <= 1.0 && b.upstreamRisk <= 1.0
    requires var n := if size > 1 then size else 1; a.cascadeRisk <= n as real && b.cascadeRisk <= n as real
    ensures var n := if size > 1 then size else 1;
      b.fragility == Min(10.0, a.fragility + 10.0 * w.own * (b.ownRisk - a.ownRisk)
                                           + 10.0 * w.upstream * (b.upstreamRisk - a.upstreamRisk)
                                           + 10.0 * w.cascade * ((b.cascadeRisk - a.cascadeRisk) / n as real))
  {
    var n: nat := if size > 1 then size else 1;
    UpToOne(a.cascadeRisk, n);
    UpToOne(b.cascadeRisk, n);
    QuotientDifference(b.cascadeRisk, a.cascadeRisk, n as real);
    BlendDifference(w, a.ownRisk, a.upstreamRisk, a.cascadeRisk / n as real, b.ownRisk, b.upstreamRisk, b.cascadeRisk / n as real);
    hide Blend;
  }

  lemma BlendDifference(w: Weights, own: real, upstream: real, cascade: real, own': real, upstream': real, cascade': real)
    ensures 10.0 * Blend(w, own', upstream', cascade') - 10.0 * Blend(w, own, upstream, cascade)
         == 10.0 * w.own * (own' - own) + 10.0 * w.upstream * (upstream' - upstream) + 10.0 * w.cascade * (cascade' - cascade)
  {
    Differences(w.own, own, own');
    Differences(w.upstream, upstream, upstream');
    Differences(w.cascade, cascade, cascade');
  }

  lemma UpToOne(x: real, n: nat)
    requires n >= 1 && x <= n as real
    ensures x / n as real <= 1.0
  {
    var q := x / n as real;
    assert q * n as real == x;
    if q > 1.0 { ProductStrict(n as real, 1.0, q); }
  }

  lemma QuotientDifference(x: real, y: real, r: real)
    requires r > 0.0
    ensures x / r - y / r == (x - y) / r
  {
  }

  lemma Differences(w: real, x: real, y: real)
    ensures 10.0 * (w * y) - 10.0 * (w * x) == 10.0 * w * (y - x)
  {
  }

  /** Beyond 1 the upstream risk, and beyond the number of entries the cascade risk, add nothing;
      no score is above 10. */
  lemma ScoreCaps(w: Weights, size: nat, a: Score, b: Score)
    requires Scored(w, size, a) && Scored(w, size, b) && a.ownRisk == b.ownRisk
    requires a.upstreamRisk == b.upstreamRisk || (a.upstreamRisk >= 1.0 && b.upstreamRisk >= 1.0)
    requires var n := if size > 1 then size else 1;
      a.cascadeRisk == b.cascadeRisk || (a.cascadeRisk >= n as real && b.cascadeRisk >= n as real)
    ensures a.fragility == b.fragility <= 10.0
  {
    var n: nat := if size > 1 then size else 1;
    FromOne(a.cascadeRisk, n);
    FromOne(b.cascadeRisk, n);
  }

  lemma FromOne(x: real, n: nat)
    requires n >= 1
    ensures x >= n as real ==> x / n as real >= 1.0
  {
    var q := x / n as real;
    assert q * n as real == x;
    if q < 1.0 { ProductStrict(n as real, q, 1.0); }
  }

  lemma ProductOrder(a: real, b: real, c: real)
    requires a >= 0.0 && b <= c
    ensures a * b <= a * c
  {
  }

  lemma NormalisedOrder(cascade: real, cascade': real, size: nat)
    requires 0.0 <= cascade <= cascade'
    ensures 0.0 <= Normalised(cascade, size) <= Normalised(cascade', size)
  {
    var n: nat := if size > 1 then size else 1;
    QuotientOrder(0.0, cascade, n as real);
    QuotientOrder(cascade, cascade', n as real);
  }

  lemma QuotientOrder(a: real, b: real, r: real)
    requires 0.0 <= a <= b && r > 0.0
    ensures 0.0 <= a / r <= b / r
  {
    var x, y := a / r, b / r;
    assert x * r == a && y * r == b;
    if y < x { ProductStrict(r, y, x); }
    if x < 0.0 { ProductStrict(r, x, 0.0); }
  }

  lemma ProductStrict(a: real, b: real, c: real)
    requires a > 0.0 && b < c
    ensures a * b < a * c
  {
  }

  lemma BlendOrder(w: Weights, own: real, upstream: real, cascade: real, own': real, upstream': real, cascade': real)
    requires w.own >= 0.0 && w.upstream >= 0.0 && w.cascade >= 0.0
    requires own <= own' && upstream <= upstream' && cascade <= cascade'
    ensures Blend(w, own, upstream, cascade) <= Blend(w, own', upstream', cascade')
  {
    ProductOrder(w.own, own, own');
    ProductOrder(w.upstream, upstream, upstream');
    ProductOrder(w.cascade, cascade, cascade');
  }

  /** With weights that are not negative, the score grows with each of its three risks and
      stays within 0 and 10. */
  lemma CompositeMonotone(w: Weights, own: real, upstream: real, cascade: real, own': real, upstream': real, cascade': real, size: nat)
    requires w.own >= 0.0 && w.upstream >= 0.0 && w.cascade >= 0.0
    requires 0.0 <= own <= own' && 0.0 <= upstream <= upstream' && 0.0 <= cascade <= cascade'
    ensures 0.0 <= Composite(w, own, upstream, cascade, size) <= Composite(w, own', upstream', cascade', size) <= 10.0
  {
    NormalisedOrder(cascade, cascade', size);
    BlendOrder(w, 0.0, 0.0, 0.0, own, Min(upstream, 1.0), Normalised(cascade, size));
    assert Blend(w, 0.0, 0.0, 0.0) == 0.0;
    BlendOrder(w, own, Min(upstream, 1.0), Normalised(cascade, size), own', Min(upstream', 1.0), Normalised(cascade', size));
  }
}
