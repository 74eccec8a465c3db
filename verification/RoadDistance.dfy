/** The least road distance, by best-first search with lazily discarded entries. */
module RoadDistance {
  datatype Edge = Edge(source: string, target: string, metres: real)

  datatype Answer = Distance(metres: real) | NoRoute | NegativeWeight | UnknownVertex

  /** A cost waiting in the heap for a vertex. */
  datatype Entry = Entry(cost: real, node: string)

  // ----- Routes -----

  ghost predicate Route(edges: seq<Edge>, p: seq<Edge>, start: string, end: string) {
    && (forall e | e in p :: e in edges)
    && (if p == [] then start == end else
        p[0].source == start && p[|p| - 1].target == end && forall i | 0 <= i < |p| - 1 ::
          p[i].target == p[i + 1].source)
  }

  function Length(p: seq<Edge>): real { if p == [] then 0.0 else Length(p[..|p| - 1]) + p[|p| - 1].metres }

  predicate NonNegative(edges: seq<Edge>) { forall e | e in edges :: e.metres >= 0.0 }

  function Vertices(edges: seq<Edge>): set<string> { (set e | e in edges :: e.source) + set e | e in edges :: e.target }

  ghost predicate Reaches(edges: seq<Edge>, start: string, end: string, metres: real) {
    exists p :: Route(edges, p, start, end) && Length(p) == metres
  }

  lemma RouteStep(edges: seq<Edge>, start: string, metres: real, e: Edge)
    requires Reaches(edges, start, e.source, metres) && e in edges
    ensures Reaches(edges, start, e.target, metres + e.metres)
  {
    var p :| Route(edges, p, start, e.source) && Length(p) == metres;
    assert (p + [e])[..|p|] == p;
    assert Route(edges, p + [e], start, e.target);
  }

  // ----- The search -----

  type Best = map<string, real>

  /** Every known cost is that of a route; what is not settled is waiting, and what waits costs no less than what is
      settled. */
  ghost predicate Searching(edges: seq<Edge>, start: string, best: Best, pending: multiset<Entry>,
      settled: set<string>) {
    && start in best && best[start] <= 0.0
    && (forall n | n in best :: Reaches(edges, start, n, best[n]))
    && settled <= best.Keys <= Vertices(edges) + {start}
    && (forall n | n in best && n !in settled :: Entry(best[n], n) in pending)
    && (forall e | e in pending :: e.node in best && best[e.node] <= e.cost && pending[e] == 1)
    && (forall n | n in settled :: Entry(best[n], n) !in pending)
    && forall n, e | n in settled && e in pending :: best[n] <= e.cost
  }

  /** Every edge out of a vertex has been followed. */
  ghost predicate Relaxed(edges: seq<Edge>, best: Best, n: string) {
    n in best && forall e | e in edges && e.source == n :: e.target in best && best[e.target] <= best[n] + e.metres
  }

  /** A route ends at a known cost no greater, or passes a waiting entry no greater. */
  lemma {:induction false} RouteBound(edges: seq<Edge>, start: string, best: Best, pending: multiset<Entry>,
      settled: set<string>, p: seq<Edge>, end: string)
    requires NonNegative(edges) && Searching(edges, start, best, pending, settled)
    requires forall n | n in settled :: Relaxed(edges, best, n)
    requires Route(edges, p, start, end)
    ensures (end in settled && best[end] <= Length(p)) || exists e | e in pending :: e.cost <= Length(p)
    decreases |p|
  {
    if p == [] {
      assert start in settled || Entry(best[start], start) in pending;
    } else {
      var last := p[|p| - 1];
      var front := p[..|p| - 1];
      if front != [] { assert front[|front| - 1].target == last.source; }
      assert Route(edges, front, start, last.source);
      RouteBound(edges, start, best, pending, settled, front, last.source);
      if last.source in settled && best[last.source] <= Length(front) {
        assert last in edges && Relaxed(edges, best, last.source);
        assert end in settled || Entry(best[end], end) in pending;
      }
    }
  }

  lemma LeastExists(pending: multiset<Entry>)
    requires pending != multiset{}
    ensures exists e :: e in pending && forall f | f in pending :: e.cost <= f.cost
    decreases |pending|
  {
    var e :| e in pending;
    var rest := pending - multiset{e};
    if rest != multiset{} {
      LeastExists(rest);
      var l :| l in rest && forall f | f in rest :: l.cost <= f.cost;
      var least := if e.cost <= l.cost then e else l;
      forall f | f in pending ensures least.cost <= f.cost { assert f == e || f in rest; }
      assert least in pending;
    } else {
      forall f | f in pending ensures e.cost <= f.cost { assert f == e || f in rest; }
    }
  }

  lemma StalePopped(edges: seq<Edge>, start: string, best: Best, pending: multiset<Entry>, settled: set<string>,
      e: Entry)
    requires Searching(edges, start, best, pending, settled) && e in pending && best[e.node] != e.cost
    ensures Searching(edges, start, best, pending - multiset{e}, settled)
  {
    hide Reaches;
    var rest := pending - multiset{e};
    assert forall f :: f in rest ==> f in pending && rest[f] <= pending[f];
    assert forall f :: f in pending && f != e ==> f in rest && rest[f] == pending[f];
  }

  lemma FreshPopped(edges: seq<Edge>, start: string, best: Best, pending: multiset<Entry>, settled: set<string>,
      e: Entry)
    requires Searching(edges, start, best, pending, settled) && e in pending && best[e.node] == e.cost
    requires forall f | f in pending :: e.cost <= f.cost
    ensures e.node !in settled
    ensures Searching(edges, start, best, pending - multiset{e}, settled + {e.node})
    ensures forall n | n in settled + {e.node} :: best[n] <= e.cost
  {
    hide Reaches;
    var rest := pending - multiset{e};
    assert e == Entry(best[e.node], e.node);
    assert forall f :: f in rest ==> f in pending && rest[f] <= pending[f] && f != e;
    assert forall f :: f in pending && f != e ==> f in rest && rest[f] == pending[f];
  }

  lemma Improved(edges: seq<Edge>, start: string, best: Best, pending: multiset<Entry>, settled: set<string>, e: Edge,
      cost: real)
    requires Searching(edges, start, best, pending, settled) && e in edges && e.metres >= 0.0
    requires e.source in settled && best[e.source] == cost && forall n | n in settled :: best[n] <= cost
    requires e.target in best ==> cost + e.metres < best[e.target]
    ensures e.target !in settled
    ensures Searching(edges, start, best[e.target := cost + e.metres],
      pending + multiset{Entry(cost + e.metres, e.target)}, settled)
  {
    hide Reaches;
    hide Vertices;
    var candidate := cost + e.metres;
    var more := pending + multiset{Entry(candidate, e.target)};
    assert e.target !in settled;
    assert Entry(candidate, e.target) !in pending;
    AddOnce(pending, Entry(candidate, e.target));
    assert best[e.target := candidate].Keys <= Vertices(edges) + {start} by {
      EndVertices(edges, e);
      hide *;
    }
    var better := best[e.target := candidate];
    forall n | n in better ensures Reaches(edges, start, n, better[n]) {
      if n == e.target { RouteStep(edges, start, cost, e); }
    }
    ImprovedEntries(best, pending, more, settled, e.target, candidate);
  }

  lemma EndVertices(edges: seq<Edge>, e: Edge)
    requires e in edges
    ensures e.source in Vertices(edges) && e.target in Vertices(edges)
  {
  }

  lemma AddOnce(pending: multiset<Entry>, e: Entry)
    requires e !in pending && forall f | f in pending :: pending[f] == 1
    ensures forall f :: f in pending + multiset{e} <==> f in pending || f == e
    ensures forall f | f in pending + multiset{e} :: (pending + multiset{e})[f] == 1
  {
    var more := pending + multiset{e};
    forall f | f in more ensures (f in pending || f == e) && more[f] == 1 {
      assert more[f] == pending[f] + (if f == e then 1 else 0);
    }
  }

  lemma ImprovedEntries(best: Best, pending: multiset<Entry>, more: multiset<Entry>, settled: set<string>,
      target: string, candidate: real)
    requires settled <= best.Keys && target !in settled && (target in best ==> candidate < best[target])
    requires forall n | n in best && n !in settled :: Entry(best[n], n) in pending
    requires forall e | e in pending :: e.node in best && best[e.node] <= e.cost
    requires forall n | n in settled :: Entry(best[n], n) !in pending && best[n] <= candidate
    requires forall f :: f in more <==> f in pending || f == Entry(candidate, target)
    ensures forall n | n in best[target := candidate] && n !in settled :: Entry(best[target := candidate][n], n) in more
    ensures forall e | e in more :: e.node in best[target := candidate] && best[target := candidate][e.node] <= e.cost
    ensures forall n | n in settled :: Entry(best[n], n) !in more
  {
  }

  /** Better costs leave followed edges followed. */
  lemma StaysRelaxed(edges: seq<Edge>, best: Best, n: string, target: string, candidate: real)
    requires Relaxed(edges, best, n) && n != target && (target in best ==> candidate < best[target])
    ensures Relaxed(edges, best[target := candidate], n)
  {
  }

  type Adjacency = map<string, seq<Edge>>

  function Outgoing(adjacency: Adjacency, node: string): seq<Edge> { if node in adjacency then adjacency[node] else [] }

  ghost predicate Adjacent(adjacency: Adjacency, edges: seq<Edge>) {
    forall e, n :: e in Outgoing(adjacency, n) <==> e in edges && e.source == n
  }

  /** Lists the edges out of each vertex, up to the first negative weight. */
  method ReadEdges(edges: seq<Edge>) returns (ok: bool, adjacency: Adjacency, vertices: set<string>)
    ensures ok <==> NonNegative(edges)
    ensures ok ==> Adjacent(adjacency, edges) && vertices == Vertices(edges)
  {
    adjacency, vertices := map[], {};
    for i := 0 to |edges|
      invariant NonNegative(edges[..i])
      invariant Adjacent(adjacency, edges[..i]) && vertices == Vertices(edges[..i])
    {
      var e := edges[i];
      if e.metres < 0.0 { return false, adjacency, vertices; }
      assert edges[..i + 1] == edges[..i] + [e];
      AdjacentAppend(adjacency, edges[..i], e);
      adjacency := adjacency[e.source := Outgoing(adjacency, e.source) + [e]];
      vertices := vertices + {e.source, e.target};
    }
    assert edges[..|edges|] == edges;
    ok := true;
  }

  lemma AdjacentAppend(adjacency: Adjacency, edges: seq<Edge>, e: Edge)
    requires Adjacent(adjacency, edges)
    ensures Adjacent(adjacency[e.source := Outgoing(adjacency, e.source) + [e]], edges + [e])
    ensures Vertices(edges + [e]) == Vertices(edges) + {e.source, e.target}
  {
    var more := adjacency[e.source := Outgoing(adjacency, e.source) + [e]];
    forall f, n ensures f in Outgoing(more, n) <==> f in edges + [e] && f.source == n {
      assert f in Outgoing(adjacency, n) <==> f in edges && f.source == n;
    }
    assert forall f :: f in edges + [e] <==> f in edges || f == e;
  }

  /** The state while the edges out of one vertex are followed. */
  ghost predicate Following(edges: seq<Edge>, start: string, best: Best, pending: multiset<Entry>,
      settled: set<string>, node: string, done: seq<Edge>) {
    && Searching(edges, start, best, pending, settled) && node in settled && node in best
    && (forall n | n in settled :: n in best && best[n] <= best[node])
    && (forall n | n in settled && n != node :: Relaxed(edges, best, n))
    && forall e | e in done :: e.target in best && best[e.target] <= best[node] + e.metres
  }

  lemma SkipEdge(edges: seq<Edge>, start: string, best: Best, pending: multiset<Entry>, settled: set<string>,
      node: string, done: seq<Edge>, e: Edge)
    requires Following(edges, start, best, pending, settled, node, done)
    requires e.target in best && best[e.target] <= best[node] + e.metres
    ensures Following(edges, start, best, pending, settled, node, done + [e])
  {
    hide Searching;
    hide Relaxed;
  }

  lemma FollowEdge(edges: seq<Edge>, start: string, best: Best, pending: multiset<Entry>, settled: set<string>,
      node: string, done: seq<Edge>, e: Edge)
    requires NonNegative(edges) && Following(edges, start, best, pending, settled, node, done)
    requires e in edges && e.source == node
    requires e.target in best ==> best[node] + e.metres < best[e.target]
    ensures Following(edges, start, best[e.target := best[node] + e.metres],
      pending + multiset{Entry(best[node] + e.metres, e.target)}, settled, node, done + [e])
  {
    hide Searching;
    hide Relaxed;
    var candidate := best[node] + e.metres;
    Improved(edges, start, best, pending, settled, e, best[node]);
    forall n | n in settled && n != node ensures Relaxed(edges, best[e.target := candidate], n) {
      StaysRelaxed(edges, best, n, e.target, candidate);
    }
  }

  method Follow(edges: seq<Edge>, start: string, node: string, outgoing: seq<Edge>, best: Best,
      pending: multiset<Entry>, ghost settled: set<string>)
    returns (best': Best, pending': multiset<Entry>)
    requires NonNegative(edges) && Following(edges, start, best, pending, settled, node, [])
    requires forall e :: e in outgoing <==> e in edges && e.source == node
    ensures Searching(edges, start, best', pending', settled)
    ensures forall n | n in settled :: Relaxed(edges, best', n)
  {
    hide Searching;
    hide Relaxed;
    best', pending' := best, pending;
    for i := 0 to |outgoing|
      invariant Following(edges, start, best', pending', settled, node, outgoing[..i])
    {
      var e := outgoing[i];
      assert e in outgoing;
      assert outgoing[..i + 1] == outgoing[..i] + [e];
      var candidate := best'[node] + e.metres;
      if e.target !in best' || candidate < best'[e.target] {
        FollowEdge(edges, start, best', pending', settled, node, outgoing[..i], e);
        best' := best'[e.target := candidate];
        pending' := pending' + multiset{Entry(candidate, e.target)};
      } else {
        SkipEdge(edges, start, best', pending', settled, node, outgoing[..i], e);
      }
    }
    assert outgoing[..|outgoing|] == outgoing;
    AllFollowed(edges, start, best', pending', settled, node, outgoing);
  }

  lemma AllFollowed(edges: seq<Edge>, start: string, best: Best, pending: multiset<Entry>, settled: set<string>,
      node: string, outgoing: seq<Edge>)
    requires Following(edges, start, best, pending, settled, node, outgoing)
    requires forall e :: e in outgoing <==> e in edges && e.source == node
    ensures Searching(edges, start, best, pending, settled)
    ensures forall n | n in settled :: Relaxed(edges, best, n)
  {
    forall n | n in settled ensures Relaxed(edges, best, n) { }
  }

  /** The weight is that of a route, and no route is shorter. */
  ghost predicate Shortest(edges: seq<Edge>, start: string, end: string, metres: real) {
    && Reaches(edges, start, end, metres)
    && forall p | Route(edges, p, start, end) :: metres <= Length(p)
  }

  method RoadDistance(edges: seq<Edge>, start: string, end: string) returns (r: Answer)
    ensures r.NegativeWeight? <==> !NonNegative(edges)
    ensures r.UnknownVertex? <==> NonNegative(edges) && !({start, end} <= Vertices(edges))
    ensures r.Distance? ==> Shortest(edges, start, end, r.metres)
    ensures r.NoRoute? ==> forall p :: !Route(edges, p, start, end)
  {
    var ok, adjacency, vertices := ReadEdges(edges);
    if !ok { return NegativeWeight; }
    if start !in vertices || end !in vertices { return UnknownVertex; }
    hide *;
    var best: Best := map[start := 0.0];
    var pending := multiset{Entry(0.0, start)};
    ghost var settled: set<string> := {};
    Started(edges, start);
    while pending != multiset{}
      invariant Searching(edges, start, best, pending, settled)
      invariant forall n | n in settled :: Relaxed(edges, best, n)
      invariant end !in settled && settled <= vertices
      decreases |vertices - settled|, |pending|
    {
      LeastExists(pending);
      var least :| least in pending && forall f | f in pending :: least.cost <= f.cost;
      KnownNode(edges, start, best, pending, settled, least);
      if least.cost != best[least.node] {
        StalePopped(edges, start, best, pending, settled, least);
        pending := pending - multiset{least};
        continue;
      }
      if least.node == end {
        ShortestFound(edges, start, best, pending, settled, end, least);
        return Distance(least.cost);
      }
      FreshPopped(edges, start, best, pending, settled, least);
      FollowStart(edges, start, best, pending - multiset{least}, settled, least);
      OutgoingAre(adjacency, edges, least.node);
      Fewer(vertices, settled, least.node);
      settled := settled + {least.node};
      best, pending := Follow(edges, start, least.node, Outgoing(adjacency, least.node), best,
        pending - multiset{least}, settled);
    }
    Exhausted(edges, start, best, settled, end);
    r := NoRoute;
  }

  lemma Started(edges: seq<Edge>, start: string)
    ensures Searching(edges, start, map[start := 0.0], multiset{Entry(0.0, start)}, {})
  {
    assert Route(edges, [], start, start) && Length([]) == 0.0;
    assert Reaches(edges, start, start, 0.0);
  }

  lemma KnownNode(edges: seq<Edge>, start: string, best: Best, pending: multiset<Entry>, settled: set<string>, e: Entry)
    requires Searching(edges, start, best, pending, settled) && e in pending && start in Vertices(edges)
    ensures e.node in best && e.node in Vertices(edges)
  {
  }

  lemma FollowStart(edges: seq<Edge>, start: string, best: Best, rest: multiset<Entry>, settled: set<string>, e: Entry)
    requires Searching(edges, start, best, rest, settled + {e.node}) && e.node in best && best[e.node] == e.cost
    requires forall n | n in settled + {e.node} :: n in best && best[n] <= e.cost
    requires forall n | n in settled :: Relaxed(edges, best, n)
    ensures Following(edges, start, best, rest, settled + {e.node}, e.node, [])
  {
  }

  lemma OutgoingAre(adjacency: Adjacency, edges: seq<Edge>, node: string)
    requires Adjacent(adjacency, edges)
    ensures forall e :: e in Outgoing(adjacency, node) <==> e in edges && e.source == node
  {
  }

  lemma Fewer(vertices: set<string>, settled: set<string>, node: string)
    requires node in vertices && node !in settled
    ensures |vertices - (settled + {node})| < |vertices - settled|
  {
    assert vertices - settled == (vertices - (settled + {node})) + {node};
  }

  lemma ShortestFound(edges: seq<Edge>, start: string, best: Best, pending: multiset<Entry>, settled: set<string>,
      end: string, least: Entry)
    requires NonNegative(edges) && Searching(edges, start, best, pending, settled)
    requires forall n | n in settled :: Relaxed(edges, best, n)
    requires end !in settled && least in pending && least.node == end && least.cost == best[end]
    requires forall f | f in pending :: least.cost <= f.cost
    ensures Shortest(edges, start, end, least.cost)
  {
    forall p | Route(edges, p, start, end) ensures least.cost <= Length(p) {
      RouteBound(edges, start, best, pending, settled, p, end);
    }
  }

  lemma Exhausted(edges: seq<Edge>, start: string, best: Best, settled: set<string>, end: string)
    requires NonNegative(edges) && Searching(edges, start, best, multiset{}, settled)
    requires forall n | n in settled :: Relaxed(edges, best, n)
    requires end !in settled
    ensures forall p :: !Route(edges, p, start, end)
  {
    forall p ensures !Route(edges, p, start, end) {
      if Route(edges, p, start, end) { RouteBound(edges, start, best, multiset{}, settled, p, end); }
    }
  }
}
