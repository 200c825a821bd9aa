/**
 * The array heap of ready keys and the Kahn loop that drains it.
 *
 * The maps of the original iterate in insertion order. Here every such loop takes
 * the next entry nondeterministically, so what is proved holds for every insertion
 * order.
 */
module ReplayOrder {
  import opened PrecedenceOrder
  import opened Sequences

  predicate Child(p: int, j: int) {
    j == 2 * p + 1 || j == 2 * p + 2
  }

  ghost predicate IsHeap(h: seq<Key>) {
    forall p, j :: Child(p, j) && 0 <= p && j < |h| ==> h[p] <= h[j]
  }

  /** Across the hole at n, the parent of n is no greater than the children of n. */
  ghost predicate Bridged(h: seq<Key>, n: int) {
    forall q, j :: Child(q, n) && Child(n, j) && 0 <= q && j < |h| ==> h[q] <= h[j]
  }

  /** A heap but for the entry at n, which may be smaller than its parent. */
  ghost predicate HeapBelow(h: seq<Key>, n: int) {
    Bridged(h, n) && forall p, j :: Child(p, j) && 0 <= p && j < |h| && j != n ==> h[p] <= h[j]
  }

  /** A heap but for the entry at n, which may be greater than its children. */
  ghost predicate HeapAbove(h: seq<Key>, n: int) {
    Bridged(h, n) && forall p, j :: Child(p, j) && 0 <= p && j < |h| && p != n ==> h[p] <= h[j]
  }

  lemma {:induction false} RootIsLeast(h: seq<Key>, j: nat)
    requires IsHeap(h) && j < |h|
    ensures h[0] <= h[j]
  {
    if j > 0 {
      assert Child((j - 1) / 2, j);
      RootIsLeast(h, (j - 1) / 2);
    }
  }

  lemma AppendOpensHole(h: seq<Key>, key: Key)
    requires IsHeap(h)
    ensures HeapBelow(h + [key], |h|)
  {
  }

  /** h holds the rising key at n: exchanging it with a greater parent moves the hole up. */
  lemma RisingStep(h: seq<Key>, n: int, parent: int)
    requires Child(parent, n) && 0 <= parent && n < |h| && HeapBelow(h, n) && h[parent] > h[n]
    ensures HeapBelow(h[n := h[parent]][parent := h[n]], parent)
    ensures multiset(h[n := h[parent]][parent := h[n]]) == multiset(h)
  {
    var g := h[n := h[parent]][parent := h[n]];
    forall q, j | Child(q, parent) && Child(parent, j) && 0 <= q && j < |h| ensures g[q] <= g[j] {
      assert h[q] <= h[parent];
    }
  }

  lemma RisingDone(h: seq<Key>, n: int, parent: int)
    requires 0 <= n < |h| && HeapBelow(h, n)
    requires n == 0 || (Child(parent, n) && 0 <= parent && h[parent] <= h[n])
    ensures IsHeap(h)
  {
  }

  /** h holds the sinking tail at n: exchanging it with its least child moves the hole down. */
  lemma SinkingStep(h: seq<Key>, n: int, child: int)
    requires 0 <= n && Child(n, child) && child < |h| && HeapAbove(h, n) && h[n] > h[child]
    requires forall j :: Child(n, j) && j < |h| ==> h[child] <= h[j]
    ensures HeapAbove(h[n := h[child]][child := h[n]], child)
    ensures multiset(h[n := h[child]][child := h[n]]) == multiset(h)
  {
  }

  lemma SinkingDone(h: seq<Key>, n: int)
    requires 0 <= n < |h| && HeapAbove(h, n)
    requires forall j :: Child(n, j) && j < |h| ==> h[n] <= h[j]
    ensures IsHeap(h)
  {
  }

  lemma PopOpensHole(h: seq<Key>, tail: Key)
    requires IsHeap(h + [tail]) && h != []
    ensures HeapAbove(h[0 := tail], 0)
    ensures multiset(h[0 := tail]) + multiset{h[0]} == multiset(h + [tail])
  {
    assert h == [h[0]] + h[1..] && h[0 := tail] == [tail] + h[1..];
    forall p, j | Child(p, j) && 0 <= p && j < |h| && p != 0 ensures h[0 := tail][p] <= h[0 := tail][j] {
      assert (h + [tail])[p] <= (h + [tail])[j];
    }
  }

  /** The stored array while v waits to be written at the hole n. */
  ghost predicate HoleAt(stored: seq<Key>, view: seq<Key>, n: int, v: Key) {
    0 <= n < |stored| == |view| && view[n] == v && forall i :: 0 <= i < |view| && i != n ==> view[i] == stored[i]
  }

  class ReadyHeap {
    var ready: seq<Key>

    ghost predicate Valid()
      reads this
    {
      IsHeap(ready)
    }

    constructor ()
      ensures Valid() && ready == []
    {
      ready := [];
    }

    method Add(key: Key)
      requires Valid()
      modifies this
      ensures Valid()
      ensures multiset(ready) == old(multiset(ready)) + multiset{key}
    {
      AppendOpensHole(ready, key);
      ready := ready + [key];
      RaiseLast(key);
    }

    /** The upward half of adding: parents greater than the new key move down. */
    method RaiseLast(key: Key)
      requires ready != [] && ready[|ready| - 1] == key && HeapBelow(ready, |ready| - 1)
      modifies this
      ensures Valid() && multiset(ready) == old(multiset(ready))
    {
      var n := |ready| - 1;
      ghost var view, contents := ready, multiset(ready);
      while n > 0
        invariant HoleAt(ready, view, n, key)
        invariant HeapBelow(view, n) && multiset(view) == contents
      {
        var parent := (n - 1) / 2;
        assert Child(parent, n);
        if ready[parent] <= key {
          RisingDone(view, n, parent);
          break;
        }
        RisingStep(view, n, parent);
        view := view[n := view[parent]][parent := view[n]];
        ready := ready[n := ready[parent]];
        n := parent;
      }
      if n == 0 { RisingDone(view, n, 0); }
      ready := ready[n := key];
      assert ready == view;
    }

    method Take() returns (first: Key)
      requires Valid() && ready != []
      modifies this
      ensures Valid()
      ensures old(multiset(ready)) == multiset(ready) + multiset{first}
      ensures first in old(ready) && forall k <- old(ready) :: first <= k
    {
      first := ready[0];
      forall k <- ready ensures first <= k {
        var j :| 0 <= j < |ready| && ready[j] == k;
        RootIsLeast(ready, j);
      }
      var tail := ready[|ready| - 1];
      assert ready == ready[..|ready| - 1] + [tail];
      ready := ready[..|ready| - 1];
      if ready != [] {
        PopOpensHole(ready, tail);
        SinkTail(tail);
      }
    }

    method LesserChild(n: nat) returns (child: nat)
      requires 2 * n + 1 < |ready|
      ensures Child(n, child) && child < |ready|
      ensures forall j :: Child(n, j) && j < |ready| ==> ready[child] <= ready[j]
    {
      child := 2 * n + 1;
      if child + 1 < |ready| && ready[child + 1] < ready[child] { child := child + 1; }
    }

    /** The downward half of taking: the popped tail goes in where the root was. */
    method SinkTail(tail: Key)
      requires ready != [] && HeapAbove(ready[0 := tail], 0)
      modifies this
      ensures Valid() && multiset(ready) == old(multiset(ready[0 := tail]))
    {
      ghost var view := ready[0 := tail];
      ghost var contents := multiset(view);
      var n := 0;
      while 2 * n + 1 < |ready|
        invariant HoleAt(ready, view, n, tail)
        invariant HeapAbove(view, n)
        invariant multiset(view) == contents
      {
        var child := LesserChild(n);
        assert forall j :: Child(n, j) ==> j != n;
        if tail <= ready[child] {
          SinkingDone(view, n);
          break;
        }
        SinkingStep(view, n, child);
        view := view[n := view[child]][child := view[n]];
        ready := ready[n := ready[child]];
        n := child;
      }
      if 2 * n + 1 >= |ready| { SinkingDone(view, n); }
      ready := ready[n := tail];
      assert ready == view;
    }
  }

  // ------------------------------------------------------------------ Kahn loop

  /** The predecessors of k that are still to be emitted. */
  ghost function Waiting(edges: Graph, done: set<Key>, k: Key): set<Key> {
    set p | p in edges && p !in done && k in edges[p]
  }

  ghost function Counts(edges: Graph, done: set<Key>): map<Key, nat> {
    map k | k in edges :: |Waiting(edges, done, k)|
  }

  ghost predicate DownClosed(edges: Graph, done: set<Key>) {
    forall k <- done :: Preds(edges, k) <= done
  }

  /** The counts while a key is being emitted: targets in rest have yet to lose one. */
  ghost predicate Owes(degrees: map<Key, nat>, base: map<Key, nat>, rest: set<Key>) {
    && degrees.Keys == base.Keys
    && forall k <- base :: degrees[k] == base[k] + (if k in rest then 1 else 0)
  }

  /** The inner loop: every target loses one predecessor, and joins the heap at none. */
  method ReleaseTargets(targets: set<Key>, before: map<Key, nat>, heap: ReadyHeap,
                        ghost base: map<Key, nat>, ghost ready: set<Key>)
    returns (degrees: map<Key, nat>)
    requires targets <= base.Keys && Owes(before, base, targets)
    requires forall t <- targets :: base[t] == 0 <==> t in ready
    requires heap.Valid() && multiset(heap.ready) == multiset(ready - targets)
    modifies heap
    ensures heap.Valid() && multiset(heap.ready) == multiset(ready)
    ensures degrees == base
  {
    degrees := before;
    var rest := targets;
    while rest != {}
      invariant rest <= targets && Owes(degrees, base, rest)
      invariant heap.Valid() && multiset(heap.ready) == multiset(ready - rest)
    {
      var target :| target in rest;
      var degree := degrees[target] - 1;
      degrees := degrees[target := degree];
      AddOne(ready, rest, target);
      if degree == 0 { heap.Add(target); }
      rest := rest - {target};
    }
    assert degrees == base;
    assert ready - {} == ready;
  }

  lemma AddOne(s: set<Key>, rest: set<Key>, key: Key)
    requires key in rest
    ensures multiset(s - (rest - {key})) == multiset(s - rest) + (if key in s then multiset{key} else multiset{})
  {
    if key in s {
      assert s - (rest - {key}) == (s - rest) + {key};
    } else {
      assert s - (rest - {key}) == s - rest;
    }
  }

  /** What emitting key does to the counts and to the ready set. */
  lemma EmitEffect(edges: Graph, done: set<Key>, key: Key, held: seq<Key>)
    requires Closed(edges) && key in Ready(edges, done) && DownClosed(edges, done)
    requires multiset(held) + multiset{key} == multiset(Ready(edges, done))
    ensures var base, ready := Counts(edges, done + {key}), Ready(edges, done + {key});
      && Owes(Counts(edges, done), base, edges[key])
      && (forall t <- edges[key] :: base[t] == 0 <==> t in ready)
      && multiset(held) == multiset(ready - edges[key])
  {
    forall k <- edges
      ensures |Waiting(edges, done, k)| == |Waiting(edges, done + {key}, k)| + (if k in edges[key] then 1 else 0)
    {
      OneFewerWaiting(edges, done, key, k);
    }
    forall t <- edges[key]
      ensures |Waiting(edges, done + {key}, t)| == 0 <==> t in Ready(edges, done + {key})
    {
      TargetReleased(edges, done, key, t);
    }
    EmitLeavesOthers(edges, done, key);
    CancelOne(multiset(held), Ready(edges, done + {key}) - edges[key], Ready(edges, done), key);
  }

  lemma OneFewerWaiting(edges: Graph, done: set<Key>, key: Key, k: Key)
    requires key in edges && key !in done
    ensures |Waiting(edges, done, k)| == |Waiting(edges, done + {key}, k)| + (if k in edges[key] then 1 else 0)
  {
    var after := Waiting(edges, done + {key}, k);
    if k in edges[key] {
      assert Waiting(edges, done, k) == after + {key};
    } else {
      assert Waiting(edges, done, k) == after;
    }
  }

  lemma TargetReleased(edges: Graph, done: set<Key>, key: Key, target: Key)
    requires Closed(edges) && DownClosed(edges, done) && key in Ready(edges, done) && target in edges[key]
    ensures |Waiting(edges, done + {key}, target)| == 0 <==> target in Ready(edges, done + {key})
  {
    assert key in Preds(edges, target);
    var w := Waiting(edges, done + {key}, target);
    assert |w| == 0 <==> w == {};
    assert w == {} <==> Preds(edges, target) <= done + {key};
  }

  lemma EmitLeavesOthers(edges: Graph, done: set<Key>, key: Key)
    requires key in Ready(edges, done)
    ensures var rest := Ready(edges, done + {key}) - edges[key];
      rest + {key} == Ready(edges, done) && key !in rest
  {
    forall k | k in edges && k != key
      ensures k in Ready(edges, done + {key}) - edges[key] <==> k in Ready(edges, done)
    {
      assert k in edges[key] <==> key in Preds(edges, k);
    }
  }

  lemma CancelOne(m: multiset<Key>, s: set<Key>, t: set<Key>, key: Key)
    requires m + multiset{key} == multiset(t) && s + {key} == t && key !in s
    ensures m == multiset(s)
  {
    assert multiset(t) == multiset(s) + multiset{key};
    assert m == (m + multiset{key}) - multiset{key};
    assert multiset(s) == (multiset(s) + multiset{key}) - multiset{key};
  }

  lemma NothingEmitted(edges: Graph, k: Key)
    requires k in edges
    ensures Waiting(edges, {}, k) == Preds(edges, k)
    ensures |Preds(edges, k)| == 0 <==> k in Ready(edges, {})
  {
    assert |Preds(edges, k)| == 0 <==> Preds(edges, k) == {};
  }

  /** The keys that start with no predecessor. */
  method SeedHeap(degrees: map<Key, nat>, ghost ready: set<Key>) returns (heap: ReadyHeap)
    requires ready <= degrees.Keys && forall k <- degrees :: degrees[k] == 0 <==> k in ready
    ensures fresh(heap) && heap.Valid()
    ensures multiset(heap.ready) == multiset(ready)
  {
    heap := new ReadyHeap();
    var rest := degrees.Keys;
    assert ready - rest == {};
    while rest != {}
      invariant heap.Valid() && fresh(heap)
      invariant rest <= degrees.Keys
      invariant multiset(heap.ready) == multiset(ready - rest)
    {
      var key :| key in rest;
      AddOne(ready, rest, key);
      if degrees[key] == 0 { heap.Add(key); }
      rest := rest - {key};
    }
    assert ready - rest == ready;
  }

  lemma EmittedOneMore(edges: Graph, ordered: seq<Key>, key: Key)
    requires DownClosed(edges, Elements(ordered)) && IsLeast(Ready(edges, Elements(ordered)), key)
    ensures Elements(ordered + [key]) == Elements(ordered) + {key}
    ensures DownClosed(edges, Elements(ordered) + {key})
  {
  }

  /**
   * Given the precedence edges and each key's in-degree, the order the ready heap
   * emits: greedy, and stopped only by having nothing ready.
   */
  method KahnOrder(edges: Graph, counts: map<Key, nat>) returns (ordered: seq<Key>)
    requires Closed(edges)
    requires counts.Keys == edges.Keys && forall k <- edges :: counts[k] == |Preds(edges, k)|
    ensures Exhausted(edges, ordered)
  {
    forall k <- edges { NothingEmitted(edges, k); }
    assert counts == Counts(edges, {});
    var degrees := counts;
    var heap := SeedHeap(degrees, Ready(edges, {}));
    ordered := [];
    ghost var done: set<Key> := {};
    while heap.ready != []
      invariant heap.Valid() && fresh(heap)
      invariant done == Elements(ordered) && done <= edges.Keys
      invariant degrees == Counts(edges, done) && DownClosed(edges, done)
      invariant multiset(heap.ready) == multiset(Ready(edges, done))
      invariant Greedy(edges, ordered)
      decreases edges.Keys - done
    {
      ghost var ready := heap.ready;
      var key := heap.Take();
      LeastOfContents(ready, Ready(edges, done), key);
      GreedyExtends(edges, ordered, key);
      EmittedOneMore(edges, ordered, key);
      ordered := ordered + [key];
      EmitEffect(edges, done, key, heap.ready);
      degrees := ReleaseTargets(edges[key], degrees, heap, Counts(edges, done + {key}), Ready(edges, done + {key}));
      done := done + {key};
    }
    assert |multiset(Ready(edges, done))| == 0;
  }

  lemma LeastOfContents(h: seq<Key>, s: set<Key>, x: Key)
    requires multiset(h) == multiset(s) && x in h && forall k <- h :: x <= k
    ensures IsLeast(s, x)
  {
    assert x in multiset(h);
    forall y <- s ensures x <= y {
      assert y in multiset(s);
      assert y in multiset(h);
      assert y in h;
    }
  }
}
