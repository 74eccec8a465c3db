/** Transitive closure of a finite edge set, one worklist for each source. */
module Reachability {
  import opened Horn

  type Edge = (string, string)

  /** A directed walk of at least one edge. */
  ghost predicate Walk(edges: set<Edge>, p: seq<string>) {
    |p| >= 2 && forall i | 0 <= i < |p| - 1 :: (p[i], p[i + 1]) in edges
  }

  ghost predicate Joined(edges: set<Edge>, a: string, b: string) {
    exists p :: Walk(edges, p) && p[0] == a && p[|p| - 1] == b
  }

  lemma EdgeJoins(edges: set<Edge>, a: string, b: string)
    requires (a, b) in edges
    ensures Joined(edges, a, b)
  {
    assert Walk(edges, [a, b]);
  }

  lemma JoinedTransitive(edges: set<Edge>, a: string, b: string, c: string)
    requires Joined(edges, a, b) && Joined(edges, b, c)
    ensures Joined(edges, a, c)
  {
    var p :| Walk(edges, p) && p[0] == a && p[|p| - 1] == b;
    var q :| Walk(edges, q) && q[0] == b && q[|q| - 1] == c;
    var r := p + q[1..];
    forall i | 0 <= i < |r| - 1 ensures (r[i], r[i + 1]) in edges {
      if i >= |p| { assert r[i] == q[i - |p| + 1] && r[i + 1] == q[i - |p| + 2]; }
    }
    assert Walk(edges, r);
  }

  /** The walks are the least transitive relation over the edges. */
  lemma {:induction false} JoinedLeast(edges: set<Edge>, closed: set<Edge>, p: seq<string>)
    requires edges <= closed
    requires forall a, b, c | (a, b) in closed && (b, c) in closed :: (a, c) in closed
    requires Walk(edges, p)
    ensures (p[0], p[|p| - 1]) in closed
    decreases |p|
  {
    var n := |p| - 1;
    if n > 1 {
      JoinedLeast(edges, closed, p[..n]);
      assert (p[n - 1], p[n]) in edges;
    }
  }

  ghost predicate Adjacent(adjacency: map<string, set<string>>, edges: set<Edge>) {
    && (forall a, b :: (a, b) in edges <==> a in adjacency && b in adjacency[a])
    && forall a | a in adjacency :: adjacency[a] != {}
  }

  method Adjacency(edges: set<Edge>) returns (adjacency: map<string, set<string>>)
    ensures Adjacent(adjacency, edges)
  {
    adjacency := map[];
    var rest := edges;
    while rest != {}
      invariant rest <= edges && Adjacent(adjacency, edges - rest)
      decreases |rest|
    {
      var edge :| edge in rest;
      var (source, target) := edge;
      var targets := if source in adjacency then adjacency[source] else {};
      adjacency := adjacency[source := targets + {target}];
      rest := rest - {edge};
    }
  }

  function Neighbours(adjacency: map<string, set<string>>, node: string): set<string> {
    if node in adjacency then adjacency[node] else {}
  }

  /** What the worklist has still to visit lies ahead of what it has seen. */
  ghost predicate Frontier(edges: set<Edge>, source: string, pending: seq<string>, seen: set<string>) {
    && (forall b | b in pending || b in seen :: Joined(edges, source, b))
    && forall a, b | (a, b) in edges && (a == source || a in seen) :: b in seen || b in pending
  }

  lemma FrontierExhausted(edges: set<Edge>, source: string, seen: set<string>)
    requires Frontier(edges, source, [], seen)
    ensures forall b :: b in seen <==> Joined(edges, source, b)
  {
    forall b | Joined(edges, source, b) ensures b in seen {
      var p :| Walk(edges, p) && p[0] == source && p[|p| - 1] == b;
      WalkSeen(edges, seen, p);
    }
  }

  lemma {:induction false} WalkSeen(edges: set<Edge>, seen: set<string>, p: seq<string>)
    requires Walk(edges, p)
    requires forall a, b | (a, b) in edges && (a == p[0] || a in seen) :: b in seen
    ensures p[|p| - 1] in seen
    decreases |p|
  {
    var n := |p| - 1;
    assert (p[n - 1], p[n]) in edges;
    if n > 1 { WalkSeen(edges, seen, p[..n]); }
  }

  lemma FrontierVisit(edges: set<Edge>, source: string, pending: seq<string>, target: string, seen: set<string>,
      more: seq<string>)
    requires Frontier(edges, source, pending + [target], seen)
    requires forall b :: b in more <==> (target, b) in edges && b !in seen + {target}
    ensures Frontier(edges, source, pending + more, seen + {target})
  {
    assert target in pending + [target];
    forall b | b in pending + more || b in seen + {target} ensures Joined(edges, source, b) {
      if b in more {
        EdgeJoins(edges, target, b);
        JoinedTransitive(edges, source, target, b);
      } else {
        assert b in pending + [target] || b in seen;
      }
    }
    forall a, b | (a, b) in edges && (a == source || a in seen + {target})
      ensures b in seen + {target} || b in pending + more
    {
      if a == source || a in seen { assert b in seen || b in pending + [target]; }
    }
  }

  function Targets(edges: set<Edge>): set<string> { set e | e in edges :: e.1 }

  /** The unseen targets of an edge shrink with every node visited. */
  lemma VisitShrinks(edges: set<Edge>, adjacency: map<string, set<string>>, target: string, seen: set<string>,
      more: seq<string>)
    requires Adjacent(adjacency, edges) && target in Targets(edges) && target !in seen
    requires forall b :: b in more <==> b in Neighbours(adjacency, target) - (seen + {target})
    ensures |Targets(edges) - (seen + {target})| < |Targets(edges) - seen|
    ensures forall b :: b in more <==> (target, b) in edges && b !in seen + {target}
    ensures forall b | b in more :: b in Targets(edges)
  {
    Smaller(Targets(edges) - (seen + {target}), Targets(edges) - seen);
    forall b ensures b in more <==> (target, b) in edges && b !in seen + {target} { }
    forall b | b in more ensures b in Targets(edges) { assert (target, b) in edges; }
  }

  method Reachable(edges: set<Edge>, adjacency: map<string, set<string>>, source: string) returns (seen: set<string>)
    requires Adjacent(adjacency, edges) && source in adjacency
    ensures forall b :: b in seen <==> Joined(edges, source, b)
  {
    hide Targets;
    hide Joined;
    hide Neighbours;
    hide Frontier;
    var pending := Listing(adjacency[source]);
    seen := {};
    StartFrontier(edges, adjacency, source, pending);
    hide Adjacent;
    while pending != []
      invariant Frontier(edges, source, pending, seen)
      invariant forall b | b in pending :: b in Targets(edges)
      decreases |Targets(edges) - seen|, |pending|
    {
      var target := pending[|pending| - 1];
      var others := pending[..|pending| - 1];
      assert pending == others + [target];
      if target in seen {
        SkipSeen(edges, source, others, target, seen);
        pending := others;
        continue;
      }
      var more := Listing(Neighbours(adjacency, target) - (seen + {target}));
      VisitShrinks(edges, adjacency, target, seen, more);
      FrontierVisit(edges, source, others, target, seen, more);
      seen := seen + {target};
      pending := others + more;
    }
    assert pending == [];
    FrontierExhausted(edges, source, seen);
  }

  lemma SkipSeen(edges: set<Edge>, source: string, others: seq<string>, target: string, seen: set<string>)
    requires Frontier(edges, source, others + [target], seen) && target in seen
    ensures Frontier(edges, source, others, seen)
  {
    hide Joined;
    forall b | b in others || b in seen ensures Joined(edges, source, b) { assert b in others + [target] || b in seen; }
    forall a, b | (a, b) in edges && (a == source || a in seen) ensures b in seen || b in others {
      assert b in seen || b in others + [target];
    }
  }

  lemma StartFrontier(edges: set<Edge>, adjacency: map<string, set<string>>, source: string, pending: seq<string>)
    requires Adjacent(adjacency, edges) && source in adjacency
    requires forall b :: b in pending <==> b in adjacency[source]
    ensures Frontier(edges, source, pending, {})
    ensures forall b | b in pending :: b in Targets(edges)
  {
    forall b | b in pending ensures Joined(edges, source, b) && b in Targets(edges) {
      assert (source, b) in edges;
      EdgeJoins(edges, source, b);
    }
  }

  lemma Smaller<T>(a: set<T>, b: set<T>)
    requires a < b
    ensures |a| < |b|
  {
    assert b == a + (b - a) && |b - a| > 0;
  }

  /** Exactly the pairs joined by a nonempty walk. */
  method Reachability(edges: set<Edge>) returns (result: set<Edge>)
    ensures forall a, b :: (a, b) in result <==> Joined(edges, a, b)
  {
    var adjacency := Adjacency(edges);
    result := {};
    var sources := adjacency.Keys;
    while sources != {}
      invariant sources <= adjacency.Keys
      invariant forall a, b :: (a, b) in result <==> a in adjacency && a !in sources && Joined(edges, a, b)
      decreases |sources|
    {
      var source :| source in sources;
      var seen := Reachable(edges, adjacency, source);
      result := result + set target | target in seen :: (source, target);
      sources := sources - {source};
    }
    forall a, b | Joined(edges, a, b) ensures a in adjacency {
      var p :| Walk(edges, p) && p[0] == a && p[|p| - 1] == b;
      assert (p[0], p[1]) in edges;
    }
  }
}
