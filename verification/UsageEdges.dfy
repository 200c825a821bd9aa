/** Building the precedence edges and in-degrees that the replay order is computed from. */
module UsageEdges {
  import opened PrecedenceOrder
  import opened Representation
  import opened UsageHistory

  /** Sorting keys by last position is walking the positions, which are distinct ordinals. */
  method LastOccurrences(p: Policy, events: seq<UsageEvent>) returns (order: seq<Key>)
    requires forall n :: 0 <= n < |events| ==> events[n].ordinal == n
    ensures order == LastOrder(p, events)
  {
    hide KeyOf, LastPositions;
    var positions: map<Key, nat> := map[];
    NoPositions(p, events);
    for n := 0 to |events|
      invariant LastPositions(p, events, n, positions)
    {
      PositionsGrow(p, events, n, positions);
      positions := positions[KeyOf(p, events[n]) := events[n].ordinal];
    }
    order := [];
    for n := |events| downto 0
      invariant order == LastOrder(p, events[n..])
    {
      var key := KeyOf(p, events[n]);
      LastOrderFrom(p, events, n, positions);
      if positions[key] == n { order := [key] + order; }
    }
  }

  lemma NoPositions(p: Policy, events: seq<UsageEvent>)
    ensures LastPositions(p, events, 0, map[])
  {
  }

  /** A key joins the order exactly where it was last seen. */
  lemma LastOrderFrom(p: Policy, events: seq<UsageEvent>, n: nat, positions: map<Key, nat>)
    requires n < |events| && LastPositions(p, events, |events|, positions)
    ensures var k := KeyOf(p, events[n]);
      && k in positions
      && LastOrder(p, events[n..]) ==
         (if positions[k] == n then [k] else []) + LastOrder(p, events[n + 1..])
  {
    var k := KeyOf(p, events[n]);
    assert events[n..] == [events[n]] + events[n + 1..];
    EventKeyKnown(p, events, n);
    assert events[..|events|] == events;
    LastHere(p, events, n, k, positions[k]);
  }

  /** Where each key of the first n events was last seen. */
  ghost predicate LastPositions(p: Policy, events: seq<UsageEvent>, n: nat, positions: map<Key, nat>)
    requires n <= |events|
  {
    && positions.Keys == KeysIn(p, events[..n])
    && forall k <- positions :: IsLastFor(p, events[..n], k, positions[k])
  }

  lemma PositionsGrow(p: Policy, events: seq<UsageEvent>, n: nat, positions: map<Key, nat>)
    requires n < |events| && LastPositions(p, events, n, positions)
    ensures LastPositions(p, events, n + 1, positions[KeyOf(p, events[n]) := n])
  {
    assert events[..n + 1][..n] == events[..n];
    var key, now := KeyOf(p, events[n]), positions[KeyOf(p, events[n]) := n];
    forall k <- now ensures IsLastFor(p, events[..n + 1], k, now[k]) {
      if k != key {
        assert IsLastFor(p, events[..n], k, positions[k]);
        assert events[..n][positions[k]] == events[positions[k]];
        forall m | now[k] < m < n + 1 ensures KeyOf(p, events[m]) != k {
          assert m < n ==> events[..n][m] == events[m];
        }
      }
    }
  }

  lemma LastHere(p: Policy, events: seq<UsageEvent>, n: nat, k: Key, last: nat)
    requires n < |events| && KeyOf(p, events[n]) == k && IsLastFor(p, events, k, last)
    ensures last == n <==> k !in KeysIn(p, events[n + 1..])
  {
    var later := events[n + 1..];
    if last != n {
      assert events[last] == later[last - n - 1];
      EventKeyKnown(p, later, last - n - 1);
    }
    if k in KeysIn(p, later) { var m := LaterEvent(p, events, n, k); }
  }

  lemma LaterEvent(p: Policy, events: seq<UsageEvent>, n: nat, k: Key) returns (m: nat)
    requires n < |events| && k in KeysIn(p, events[n + 1..])
    ensures n < m < |events| && KeyOf(p, events[m]) == k
  {
    var i := EventWithKey(p, events[n + 1..], k);
    m := n + 1 + i;
  }

  ghost predicate InDegrees(edges: Graph, degrees: map<Key, nat>) {
    degrees.Keys == edges.Keys && forall k <- edges :: degrees[k] == |Preds(edges, k)|
  }

  method AddEdge(edges: Graph, degrees: map<Key, nat>, from: Key, to: Key)
    returns (edges': Graph, degrees': map<Key, nat>)
    requires from in edges && to in edges && InDegrees(edges, degrees)
    ensures edges' == edges[from := edges[from] + {to}]
    ensures InDegrees(edges', degrees')
  {
    edges', degrees' := edges, degrees;
    if to !in edges[from] {
      edges' := edges'[from := edges'[from] + {to}];
      degrees' := degrees'[to := degrees'[to] + 1];
      forall k <- edges ensures |Preds(edges', k)| == |Preds(edges, k)| + (if k == to then 1 else 0) {
        PredsGrow(edges, from, to, k);
      }
    } else {
      assert edges[from] == edges[from] + {to};
    }
  }

  lemma PredsGrow(edges: Graph, from: Key, to: Key, k: Key)
    requires from in edges && to !in edges[from]
    ensures |Preds(edges[from := edges[from] + {to}], k)| == |Preds(edges, k)| + (if k == to then 1 else 0)
  {
    var grown := edges[from := edges[from] + {to}];
    assert grown.Keys == edges.Keys;
    if k == to {
      assert Preds(grown, k) == Preds(edges, k) + {from};
    } else {
      forall p ensures p in Preds(grown, k) <==> p in Preds(edges, k) {}
      assert Preds(grown, k) == Preds(edges, k);
    }
  }

  ghost predicate IsGraphOf(g: Graph, keys: set<Key>, pairs: set<(Key, Key)>) {
    && g.Keys == keys
    && forall a, b :: a in keys ==> (b in g[a] <==> b in keys && (a, b) in pairs)
  }

  lemma GraphOfUnique(g: Graph, keys: set<Key>, pairs: set<(Key, Key)>)
    requires IsGraphOf(g, keys, pairs)
    ensures g == GraphOf(keys, pairs) && Closed(g)
  {
    var h := GraphOf(keys, pairs);
    assert g.Keys == h.Keys;
    forall a | a in keys ensures g[a] == h[a] {
      forall b ensures b in g[a] <==> b in h[a] {}
    }
  }

  method AddPair(edges: Graph, degrees: map<Key, nat>, from: Key, to: Key, ghost pairs: set<(Key, Key)>)
    returns (edges': Graph, degrees': map<Key, nat>)
    requires from in edges && to in edges && IsGraphOf(edges, edges.Keys, pairs) && InDegrees(edges, degrees)
    ensures IsGraphOf(edges', edges.Keys, pairs + {(from, to)}) && InDegrees(edges', degrees')
  {
    edges', degrees' := AddEdge(edges, degrees, from, to);
  }

  method AddPhase(edges: Graph, degrees: map<Key, nat>, phase: seq<Key>, ghost pairs: set<(Key, Key)>)
    returns (edges': Graph, degrees': map<Key, nat>)
    requires IsGraphOf(edges, edges.Keys, pairs) && InDegrees(edges, degrees)
    requires forall k <- phase :: k in edges
    ensures IsGraphOf(edges', edges.Keys, pairs + Neighbours(phase)) && InDegrees(edges', degrees')
  {
    edges', degrees' := edges, degrees;
    ghost var now := pairs;
    var n := 1;
    while n < |phase|
      invariant 1 <= n
      invariant now == pairs + NeighboursUpTo(phase, n)
      invariant IsGraphOf(edges', edges.Keys, now) && InDegrees(edges', degrees')
    {
      edges', degrees' := AddPair(edges', degrees', phase[n - 1], phase[n], now);
      now := now + {(phase[n - 1], phase[n])};
      NeighboursGrow(phase, n);
      n := n + 1;
    }
  }

  ghost function NeighboursUpTo(phase: seq<Key>, n: nat): set<(Key, Key)> {
    if n < |phase| then Neighbours(phase[..n]) else Neighbours(phase)
  }

  lemma NeighboursGrow(phase: seq<Key>, n: nat)
    requires 0 < n < |phase|
    ensures NeighboursUpTo(phase, n + 1) == NeighboursUpTo(phase, n) + {(phase[n - 1], phase[n])}
  {
    var front := phase[..n + 1];
    assert front[..n] == phase[..n];
    assert n + 1 == |phase| ==> front == phase;
  }

  method AddSource(p: Policy, sources: seq<Source>, picks: Picks, n: nat, edges: Graph, degrees: map<Key, nat>,
                   ghost pairs: set<(Key, Key)>)
    returns (edges': Graph, degrees': map<Key, nat>)
    requires n < |sources| && Decoded(sources[n].value)
    requires IsGraphOf(edges, picks.Keys, pairs) && InDegrees(edges, degrees)
    ensures IsGraphOf(edges', picks.Keys, pairs + SourcePairs(p, sources, picks, sources[n]))
    ensures InDegrees(edges', degrees')
  {
    edges', degrees' := edges, degrees;
    if Superseded(p, sources, sources[n]) {
      assert pairs + {} == pairs;
    } else {
      var order := LastOccurrences(p, sources[n].value.events);
      var snapshots, links := OfType(order, picks, SnapshotRecorded), OfType(order, picks, PlanLinked);
      OfTypeSelects(order, picks, SnapshotRecorded);
      OfTypeSelects(order, picks, PlanLinked);
      edges', degrees' := AddPhase(edges', degrees', snapshots, pairs);
      edges', degrees' := AddPhase(edges', degrees', links, pairs + Neighbours(snapshots));
      assert pairs + Neighbours(snapshots) + Neighbours(links) == pairs + (Neighbours(snapshots) + Neighbours(links));
    }
  }

  method NoEdges(keys: set<Key>) returns (edges: Graph, degrees: map<Key, nat>)
    ensures IsGraphOf(edges, keys, {}) && InDegrees(edges, degrees)
  {
    edges := map k | k in keys :: {};
    degrees := map k | k in keys :: 0;
    forall k <- edges ensures degrees[k] == |Preds(edges, k)| { assert Preds(edges, k) == {}; }
  }

  method BuildGraph(p: Policy, sources: seq<Source>, picks: Picks) returns (edges: Graph, degrees: map<Key, nat>)
    requires AllDecoded(sources)
    ensures edges == PrecedenceGraph(p, sources, picks)
    ensures Closed(edges) && InDegrees(edges, degrees)
  {
    ghost var pairs: set<(Key, Key)> := {};
    edges, degrees := NoEdges(picks.Keys);
    for n := 0 to |sources|
      invariant pairs == PairsUpTo(p, sources, picks, n)
      invariant IsGraphOf(edges, picks.Keys, pairs) && InDegrees(edges, degrees)
    {
      DecodedAt(sources, n);
      edges, degrees := AddSource(p, sources, picks, n, edges, degrees, pairs);
      pairs := pairs + SourcePairs(p, sources, picks, sources[n]);
    }
    GraphOfUnique(edges, picks.Keys, pairs);
  }

  lemma DecodedAt(sources: seq<Source>, n: nat)
    requires AllDecoded(sources) && n < |sources|
    ensures Decoded(sources[n].value)
  {
    assert sources[n] in sources;
  }
}
