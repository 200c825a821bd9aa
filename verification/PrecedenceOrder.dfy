/**
 * The abstract side of the usage replay order: what a precedence graph is, when it
 * is acyclic, what a topological order is, and which one of them is least.
 * Nothing here mentions a heap or an in-degree counter.
 */
module PrecedenceOrder {
  import opened Sequences

  /** A semantic key: the SHA-256 digest read as a number (see CodeUnits.DigestOrder). */
  type Key = nat

  /** For each key, the keys that some retained ledger replays directly after it. */
  type Graph = map<Key, set<Key>>

  ghost predicate Closed(g: Graph) {
    forall k <- g :: g[k] <= g.Keys
  }

  ghost function Preds(g: Graph, k: Key): set<Key> {
    set p | p in g && k in g[p]
  }

  /** Keys not yet emitted all of whose predecessors have been. */
  ghost function Ready(g: Graph, done: set<Key>): set<Key> {
    set k | k in g && k !in done && Preds(g, k) <= done
  }

  ghost predicate IsLeast(s: set<Key>, x: Key) {
    x in s && forall y <- s :: x <= y
  }

  /** Every step emits the least key that is ready at that moment. */
  ghost predicate Greedy(g: Graph, out: seq<Key>) {
    forall i :: 0 <= i < |out| ==> IsLeast(Ready(g, Elements(out[..i])), out[i])
  }

  /** A greedy run that stopped only because nothing was ready any more. */
  ghost predicate Exhausted(g: Graph, out: seq<Key>) {
    Greedy(g, out) && Ready(g, Elements(out)) == {}
  }

  /** A walk along edges, at least one edge long, that ends where it began. */
  ghost predicate ClosedWalk(g: Graph, w: seq<Key>) {
    |w| >= 2 && w[0] == w[|w| - 1] && Walk(g, w)
  }

  ghost predicate Walk(g: Graph, w: seq<Key>) {
    forall i {:trigger w[i]} :: 0 <= i < |w| - 1 ==> w[i] in g && w[i + 1] in g[w[i]]
  }

  ghost predicate Acyclic(g: Graph) {
    forall w :: !ClosedWalk(g, w)
  }

  /** A permutation of all keys in which every edge points forward. */
  ghost predicate Topological(g: Graph, order: seq<Key>) {
    && Distinct(order)
    && Elements(order) == g.Keys
    && forall i, j :: 0 <= i < |order| && 0 <= j < |order| && order[j] in g[order[i]] ==> i < j
  }

  /** Lexicographic order on key sequences. */
  ghost predicate LexLeq(a: seq<Key>, b: seq<Key>) {
    a == [] || (b != [] && (a[0] < b[0] || (a[0] == b[0] && LexLeq(a[1..], b[1..]))))
  }

  // ---------------------------------------------------------------- greedy runs

  lemma GreedyPrefixClosed(g: Graph, out: seq<Key>, i: nat)
    requires Greedy(g, out) && i < |out|
    ensures out[i] in g && out[i] !in out[..i]
    ensures forall p <- Preds(g, out[i]) :: p in out[..i]
  {
    assert IsLeast(Ready(g, Elements(out[..i])), out[i]);
  }

  lemma GreedyDistinct(g: Graph, out: seq<Key>)
    requires Greedy(g, out)
    ensures Distinct(out) && Elements(out) <= g.Keys
  {
    forall i, j | 0 <= i < j < |out| ensures out[i] != out[j] {
      GreedyPrefixClosed(g, out, j);
      assert out[i] == out[..j][i];
    }
    forall k <- Elements(out) ensures k in g {
      var i :| 0 <= i < |out| && out[i] == k;
      GreedyPrefixClosed(g, out, i);
    }
  }

  /** A greedy run that reached every key is a topological order. */
  lemma GreedyFullIsTopological(g: Graph, out: seq<Key>)
    requires Greedy(g, out) && Elements(out) == g.Keys
    ensures Topological(g, out)
  {
    GreedyDistinct(g, out);
    forall i, j | 0 <= i < |out| && 0 <= j < |out| && out[j] in g[out[i]] ensures i < j {
      GreedyPrefixClosed(g, out, j);
      assert out[i] in Preds(g, out[j]);
      var m :| 0 <= m < j && out[..j][m] == out[i];
      assert out[m] == out[i];
    }
  }

  lemma TopologicalTail(g: Graph, order: seq<Key>, i: nat)
    requires Closed(g) && Topological(g, order) && i < |order|
    ensures order[i] in Ready(g, Elements(order[..i]))
  {
    assert order[i] in g.Keys;
    forall p <- Preds(g, order[i]) ensures p in Elements(order[..i]) {
      assert p in Elements(order);
      var m :| 0 <= m < |order| && order[m] == p;
      assert order[i] in g[order[m]];
      assert order[..i][m] == p;
    }
  }

  lemma LexFromFirstDifference(a: seq<Key>, b: seq<Key>, i: nat)
    requires i < |a| && i < |b| && a[..i] == b[..i] && a[i] < b[i]
    ensures LexLeq(a, b)
    decreases i
  {
    if i > 0 {
      assert a[0] == a[..i][0] == b[..i][0] == b[0];
      assert a[1..][..i - 1] == a[..i][1..] == b[..i][1..] == b[1..][..i - 1];
      LexFromFirstDifference(a[1..], b[1..], i - 1);
    }
  }

  lemma LexReflexive(a: seq<Key>)
    ensures LexLeq(a, a)
  {
    if a != [] { LexReflexive(a[1..]); }
  }

  lemma FirstDifference(a: seq<Key>, b: seq<Key>) returns (i: nat)
    requires a != b && |a| == |b|
    ensures i < |a| && a[..i] == b[..i] && a[i] != b[i]
  {
    assert a != [];
    assert a == [a[0]] + a[1..] && b == [b[0]] + b[1..];
    if a[0] != b[0] {
      i := 0;
    } else {
      var k := FirstDifference(a[1..], b[1..]);
      i := k + 1;
      assert a[..i] == [a[0]] + a[1..][..k] && b[..i] == [b[0]] + b[1..][..k];
    }
  }

  /** No topological order precedes the greedy one. */
  lemma GreedyIsLexLeast(g: Graph, out: seq<Key>, other: seq<Key>)
    requires Closed(g) && Greedy(g, out) && Topological(g, out) && Topological(g, other)
    ensures LexLeq(out, other)
  {
    DistinctCardinality(out);
    DistinctCardinality(other);
    if out == other {
      LexReflexive(out);
    } else {
      var i := FirstDifference(out, other);
      TopologicalTail(g, other, i);
      assert IsLeast(Ready(g, Elements(out[..i])), out[i]);
      LexFromFirstDifference(out, other, i);
    }
  }

  /** The greedy run is determined by the graph alone. */
  lemma ExhaustedUnique(g: Graph, a: seq<Key>, b: seq<Key>)
    requires Exhausted(g, a) && Exhausted(g, b)
    ensures a == b
  {
    if |a| <= |b| { ExhaustedPrefix(g, a, b, |a|); } else { ExhaustedPrefix(g, b, a, |b|); }
  }

  lemma StopsWhenNothingReady(g: Graph, out: seq<Key>, n: nat)
    requires Greedy(g, out) && n <= |out|
    ensures Ready(g, Elements(out[..n])) == {} ==> n == |out|
  {
    if n < |out| { assert IsLeast(Ready(g, Elements(out[..n])), out[n]); }
  }

  lemma {:induction false} ExhaustedPrefix(g: Graph, a: seq<Key>, b: seq<Key>, n: nat)
    requires Exhausted(g, a) && Exhausted(g, b) && n <= |a| <= |b|
    ensures a[..n] == b[..n]
    ensures n == |a| ==> a == b
  {
    if n > 0 {
      ExhaustedPrefix(g, a, b, n - 1);
      assert IsLeast(Ready(g, Elements(a[..n - 1])), a[n - 1]);
      assert IsLeast(Ready(g, Elements(b[..n - 1])), b[n - 1]);
      assert a[..n] == a[..n - 1] + [a[n - 1]] && b[..n] == b[..n - 1] + [b[n - 1]];
    }
    if n == |a| {
      assert a == a[..n] == b[..n];
      StopsWhenNothingReady(g, b, n);
      assert b == b[..n];
    }
  }

  // ------------------------------------------------- reaching every key == acyclic

  lemma {:induction false} WalkMovesForward(g: Graph, order: seq<Key>, w: seq<Key>, n: nat) returns (p: nat)
    requires Topological(g, order) && Closed(g) && Walk(g, w) && n < |w| && |w| >= 2
    ensures p < |order| && order[p] == w[n]
    ensures forall q :: 0 <= q < |order| && order[q] == w[0] ==> (if n == 0 then q == p else q < p)
  {
    if n == 0 {
      assert w[0] in Elements(order);
      p :| 0 <= p < |order| && order[p] == w[0];
    } else {
      var m := WalkMovesForward(g, order, w, n - 1);
      assert w[n - 1] in g && w[n - 1 + 1] in g[w[n - 1]];
      assert w[n] in Elements(order);
      p :| 0 <= p < |order| && order[p] == w[n];
    }
  }

  lemma TopologicalIsAcyclic(g: Graph, order: seq<Key>)
    requires Closed(g) && Topological(g, order)
    ensures Acyclic(g)
  {
    forall w | ClosedWalk(g, w) ensures false {
      var p := WalkMovesForward(g, order, w, |w| - 1);
    }
  }

  /** Walking backwards inside a set in which nobody is ready never ends. */
  lemma {:induction false} BackwardWalk(g: Graph, done: set<Key>, start: Key, n: nat) returns (w: seq<Key>)
    requires Ready(g, done) == {} && start in g && start !in done
    ensures |w| == n + 1 && Walk(g, w)
    ensures forall k <- w :: k in g && k !in done
  {
    if n == 0 {
      w := [start];
    } else {
      var v := BackwardWalk(g, done, start, n - 1);
      assert v[0] in v;
      assert v[0] !in Ready(g, done);
      var p :| p in Preds(g, v[0]) && p !in done;
      w := [p] + v;
      forall i {:trigger w[i]} | 0 <= i < |w| - 1 ensures w[i] in g && w[i + 1] in g[w[i]] {
        if i > 0 { assert v[i - 1] in g && v[i - 1 + 1] in g[v[i - 1]]; }
      }
    }
  }

  lemma StuckIsCyclic(g: Graph, done: set<Key>, start: Key)
    requires Ready(g, done) == {} && start in g && start !in done
    ensures !Acyclic(g)
  {
    var w := BackwardWalk(g, done, start, |g.Keys|);
    assert Elements(w) <= g.Keys;
    var i, j := Repeats(w, g.Keys);
    RepeatIsCycle(g, w, i, j);
  }

  lemma RepeatIsCycle(g: Graph, w: seq<Key>, i: nat, j: nat)
    requires Walk(g, w) && i < j < |w| && w[i] == w[j]
    ensures !Acyclic(g)
  {
    WalkPart(g, w, i, j + 1);
    assert ClosedWalk(g, w[i..j + 1]);
  }

  lemma WalkPart(g: Graph, w: seq<Key>, i: nat, j: nat)
    requires Walk(g, w) && i <= j <= |w|
    ensures Walk(g, w[i..j])
  {
    var c := w[i..j];
    forall m {:trigger c[m]} | 0 <= m < |c| - 1 ensures c[m] in g && c[m + 1] in g[c[m]] {
      assert w[i + m] in g && w[i + m + 1] in g[w[i + m]];
    }
  }

  /** The loop's length test is an exact acyclicity test. */
  lemma FullExactlyWhenAcyclic(g: Graph, out: seq<Key>)
    requires Closed(g) && Exhausted(g, out)
    ensures |out| == |g| <==> Acyclic(g)
    ensures |out| == |g| ==> Topological(g, out)
  {
    GreedyDistinct(g, out);
    DistinctCardinality(out);
    SubsetCardinality(Elements(out), g.Keys);
    if |out| == |g| {
      GreedyFullIsTopological(g, out);
      TopologicalIsAcyclic(g, out);
    } else {
      var start :| start in g.Keys && start !in Elements(out);
      StuckIsCyclic(g, Elements(out), start);
    }
  }

  // ----------------------------------------------------------- a run always exists

  lemma {:induction false} LeastExists(s: set<Key>) returns (x: Key)
    requires s != {}
    ensures IsLeast(s, x)
  {
    var first :| first in s;
    var rest := s - {first};
    x := first;
    if rest != {} {
      var y := LeastExists(rest);
      if y < first { x := y; }
    }
    forall z <- s ensures x <= z { assert z == first || z in rest; }
  }

  lemma GreedyExtends(g: Graph, out: seq<Key>, x: Key)
    requires Greedy(g, out) && IsLeast(Ready(g, Elements(out)), x)
    ensures Greedy(g, out + [x])
  {
    var next := out + [x];
    forall i | 0 <= i < |next| ensures IsLeast(Ready(g, Elements(next[..i])), next[i]) {
      assert next[..i] == out[..i];
      assert i == |out| ==> out[..i] == out;
    }
  }

  lemma {:induction false} GreedyRunExists(g: Graph, out: seq<Key>) returns (full: seq<Key>)
    requires Greedy(g, out)
    ensures Exhausted(g, full)
    decreases g.Keys - Elements(out)
  {
    if Ready(g, Elements(out)) == {} {
      full := out;
    } else {
      var x := LeastExists(Ready(g, Elements(out)));
      GreedyExtends(g, out, x);
      assert x !in Elements(out) && Elements(out + [x]) == Elements(out) + {x};
      full := GreedyRunExists(g, out + [x]);
    }
  }
}
