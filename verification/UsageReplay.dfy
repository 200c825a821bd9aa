/**
 * The order of the records among all their rearrangements: snapshots first, then links, and within
 * each the least order that replays every ledger as it stands.
 */
module UsageReplay {
  import opened Sequences
  import opened CodeUnits
  import opened PrecedenceOrder
  import opened Representation
  import opened UsageHistory
  import opened UsageSelection
  import opened UsageTheorems

  /** Both among the first n keys, or both after them. */
  predicate SamePhase(keys: seq<Key>, n: nat, a: Key, b: Key) {
    IndexOf(keys, a) < n <==> IndexOf(keys, b) < n
  }

  /** Keys of one phase stand in the order in which the ledger has them last. */
  ghost predicate KeepsOrder(p: Policy, keys: seq<Key>, n: nat, source: Source) {
    var order := LastOrder(p, source.value.events);
    forall i, j :: 0 <= i < j < |order| && SamePhase(keys, n, order[i], order[j]) ==>
      IndexOf(keys, order[i]) < IndexOf(keys, order[j])
  }

  /** The same keys in another order, the first n of them among themselves and the rest too. */
  ghost predicate Rearranges(other: seq<Key>, keys: seq<Key>, n: nat) {
    && n <= |keys| == |other| && Distinct(other)
    && (forall k :: k in other <==> k in keys)
    && (forall k :: k in other[..n] <==> k in keys[..n])
  }

  /** No rearrangement that keeps the order of every ledger of account comes before the keys. */
  ghost predicate LeastKept(p: Policy, sources: seq<Source>, keys: seq<Key>, n: nat) {
    forall other :: Rearranges(other, keys, n) && AllKept(p, sources, other, n) ==> LexLeq(keys, other)
  }

  /** Every ledger that no longer one repeats is replayed in its own order. */
  ghost predicate AllKept(p: Policy, sources: seq<Source>, keys: seq<Key>, n: nat) {
    forall source <- sources :: !Superseded(p, sources, source) ==> KeepsOrder(p, keys, n, source)
  }

  // ------------------------------------------------------------------- where an edge is from

  lemma {:induction false} PairFrom(p: Policy, sources: seq<Source>, picks: Picks, n: nat, pair: (Key, Key))
    returns (m: nat)
    requires n <= |sources| && pair in PairsUpTo(p, sources, picks, n)
    ensures m < n && pair in SourcePairs(p, sources, picks, sources[m])
  {
    hide SourcePairs;
    if pair in SourcePairs(p, sources, picks, sources[n - 1]) {
      m := n - 1;
    } else {
      m := PairFrom(p, sources, picks, n - 1, pair);
    }
  }

  /** Neighbours within a type, where the ledger has them. */
  lemma NeighboursInLedger(p: Policy, source: Source, picks: Picks, t: RecordType, x: Key, y: Key)
    returns (i: nat, j: nat)
    requires (x, y) in Neighbours(Phase(p, source, picks, t))
    ensures i < j < |LastOrder(p, source.value.events)|
    ensures LastOrder(p, source.value.events)[i] == x && LastOrder(p, source.value.events)[j] == y
    ensures x in picks && y in picks && TypeOf(picks[x]) == t && TypeOf(picks[y]) == t
  {
    hide OfType, LastOrder, Neighbours;
    var order, phase := LastOrder(p, source.value.events), Phase(p, source, picks, t);
    var n := NeighbourFrom(phase, x, y);
    var at := OfTypeEmbeds(order, picks, t);
    OfTypeSelects(order, picks, t);
    assert x in phase && y in phase;
    i, j := at[n - 1], at[n];
  }

  /** Keys of one type are in one phase. */
  ghost predicate TypesAreSplit(picks: Picks, keys: seq<Key>, n: nat) {
    forall a, b :: a in picks && b in picks && TypeOf(picks[a]) == TypeOf(picks[b]) ==> SamePhase(keys, n, a, b)
  }

  /** A key that some ledger replays directly before another, of the same type, has to stand before it. */
  lemma PredecessorBefore(p: Policy, sources: seq<Source>, picks: Picks, keys: seq<Key>, n: nat, x: Key, y: Key)
    requires x in picks && y in PrecedenceGraph(p, sources, picks)[x]
    requires AllKept(p, sources, keys, n)
    requires TypesAreSplit(picks, keys, n)
    ensures y in picks && TypeOf(picks[x]) == TypeOf(picks[y])
    ensures IndexOf(keys, x) < IndexOf(keys, y)
  {
    hide Superseded, LastOrder, Neighbours, Phase, IndexOf, SamePhase, PairsUpTo;
    var m := PairFrom(p, sources, picks, |sources|, (x, y));
    assert !Superseded(p, sources, sources[m]);
    var phase := Phase(p, sources[m], picks, SnapshotRecorded);
    var t := if (x, y) in Neighbours(phase) then SnapshotRecorded else PlanLinked;
    var i, j := NeighboursInLedger(p, sources[m], picks, t, x, y);
    assert KeepsOrder(p, keys, n, sources[m]);
  }

  // ------------------------------------------------------------------ which key is before which

  lemma {:induction false} IndexJoined(a: seq<Key>, b: seq<Key>, k: Key)
    ensures IndexOf(a + b, k) == if k in a then IndexOf(a, k) else |a| + IndexOf(b, k)
  {
    if a == [] {
      assert a + b == b;
    } else {
      IndexJoined(a[1..], b, k);
      assert a == [a[0]] + a[1..] && (a + b)[1..] == a[1..] + b;
    }
  }

  /** Which phase a record key is in, and where. */
  lemma PhaseOfKey(ordered: seq<Key>, picks: Picks, k: Key)
    requires k in RecordKeys(ordered, picks)
    ensures var snapshots, links := OfType(ordered, picks, SnapshotRecorded), OfType(ordered, picks, PlanLinked);
      var n := IndexOf(RecordKeys(ordered, picks), k);
      if n < |snapshots| then k in snapshots && n == IndexOf(snapshots, k)
      else k in links && n == |snapshots| + IndexOf(links, k)
  {
    var snapshots, links := OfType(ordered, picks, SnapshotRecorded), OfType(ordered, picks, PlanLinked);
    IndexJoined(snapshots, links, k);
    IndexMisses(snapshots, k);
  }

  /** The snapshots are the records of the first phase. */
  lemma TypeOfKey(ordered: seq<Key>, picks: Picks, k: Key)
    requires k in RecordKeys(ordered, picks)
    ensures k in picks
    ensures TypeOf(picks[k]) == SnapshotRecorded <==>
      IndexOf(RecordKeys(ordered, picks), k) < |OfType(ordered, picks, SnapshotRecorded)|
    ensures TypeOf(picks[k]) == SnapshotRecorded || TypeOf(picks[k]) == PlanLinked
  {
    hide OfType, RecordKeys, IndexOf;
    PhaseOfKey(ordered, picks, k);
    OfTypeSelects(ordered, picks, SnapshotRecorded);
    OfTypeSelects(ordered, picks, PlanLinked);
  }

  /** Of two records in one phase, the earlier one was emitted earlier. */
  lemma EmittedBefore(ordered: seq<Key>, picks: Picks, a: Key, b: Key)
    requires Distinct(ordered) && a in RecordKeys(ordered, picks) && b in RecordKeys(ordered, picks)
    requires SamePhase(RecordKeys(ordered, picks), |OfType(ordered, picks, SnapshotRecorded)|, a, b)
    requires IndexOf(RecordKeys(ordered, picks), a) < IndexOf(RecordKeys(ordered, picks), b)
    ensures a in ordered && b in ordered && IndexOf(ordered, a) < IndexOf(ordered, b)
  {
    hide OfType, RecordKeys, IndexOf;
    PhaseOfKey(ordered, picks, a);
    PhaseOfKey(ordered, picks, b);
    var first := IndexOf(RecordKeys(ordered, picks), a) < |OfType(ordered, picks, SnapshotRecorded)|;
    var t := if first then SnapshotRecorded else PlanLinked;
    OfTypeSelects(ordered, picks, t);
    IndexMisses(ordered, a);
    IndexMisses(ordered, b);
    var i, j := IndexOf(ordered, a), IndexOf(ordered, b);
    if i > j { OfTypeKeepsOrder(ordered, picks, t, j, i); }
  }

  // -------------------------------------------------------------------------- the least of them

  lemma InPart(keys: seq<Key>, n: nat, k: Key)
    requires Distinct(keys) && k in keys && n <= |keys|
    ensures IndexOf(keys, k) < n <==> k in keys[..n]
  {
    IndexMisses(keys, k);
    if IndexOf(keys, k) < n { assert keys[..n][IndexOf(keys, k)] == k; }
    if k in keys[..n] {
      var i :| 0 <= i < n && keys[..n][i] == k;
      IndexFinds(keys, i);
    }
  }

  /** A rearrangement leaves each key in its phase. */
  lemma PhaseStays(keys: seq<Key>, other: seq<Key>, n: nat, k: Key)
    requires Distinct(keys) && Rearranges(other, keys, n) && k in keys
    ensures IndexOf(other, k) < n <==> IndexOf(keys, k) < n
  {
    InPart(keys, n, k);
    InPart(other, n, k);
  }

  /** Keys of one type are in one phase, rearranged or not. */
  lemma TypeIsPhase(ordered: seq<Key>, picks: Picks, other: seq<Key>, n: nat)
    requires Distinct(RecordKeys(ordered, picks)) && forall k :: k in RecordKeys(ordered, picks) <==> k in picks
    requires n == |OfType(ordered, picks, SnapshotRecorded)| && Rearranges(other, RecordKeys(ordered, picks), n)
    ensures TypesAreSplit(picks, other, n)
  {
    hide OfType, RecordKeys, IndexOf, Rearranges;
    forall a, b | a in picks && b in picks && TypeOf(picks[a]) == TypeOf(picks[b]) ensures SamePhase(other, n, a, b) {
      TypeOfKey(ordered, picks, a);
      TypeOfKey(ordered, picks, b);
      PhaseStays(RecordKeys(ordered, picks), other, n, a);
      PhaseStays(RecordKeys(ordered, picks), other, n, b);
    }
  }

  lemma SharedAt(a: seq<Key>, b: seq<Key>, j: nat, i: nat)
    requires i < j <= |a| && j <= |b| && a[..j] == b[..j]
    ensures a[i] == b[i]
  {
    assert a[..j][i] == b[..j][i];
  }

  /** What stands first where a rearrangement differs comes later in the keys, in the same phase. */
  lemma DifferenceIsLater(keys: seq<Key>, other: seq<Key>, n: nat, j: nat)
    requires Distinct(keys) && Rearranges(other, keys, n) && j < |keys|
    requires keys[..j] == other[..j] && keys[j] != other[j]
    ensures other[j] in keys && IndexOf(keys, keys[j]) == j < IndexOf(keys, other[j])
    ensures IndexOf(other, other[j]) == j && SamePhase(keys, n, keys[j], other[j])
  {
    var y := other[j];
    assert y in other;
    IndexFinds(keys, j);
    IndexFinds(other, j);
    IndexMisses(keys, y);
    var i := IndexOf(keys, y);
    if i < j { SharedAt(keys, other, j, i); }
    PhaseStays(keys, other, n, y);
  }

  /** A key that stands earlier in a rearrangement than its first difference is one of the shared keys. */
  lemma SharedBefore(keys: seq<Key>, other: seq<Key>, j: nat, z: Key)
    requires Distinct(keys) && j <= |keys| && j <= |other| && keys[..j] == other[..j]
    requires z in other && IndexOf(other, z) < j
    ensures z in keys && IndexOf(keys, z) < j
  {
    IndexMisses(other, z);
    var i := IndexOf(other, z);
    SharedAt(keys, other, j, i);
    IndexFinds(keys, i);
  }

  /** The keys of the records, and the order they were emitted in, with where the snapshots end. */
  ghost predicate RecordsOf(ordered: seq<Key>, picks: Picks, keys: seq<Key>, n: nat) {
    && keys == RecordKeys(ordered, picks) && n == |OfType(ordered, picks, SnapshotRecorded)|
    && Distinct(keys) && Distinct(ordered) && forall k :: k in keys <==> k in picks
  }

  /** Two keys that share their first j keys and differ in the next one. */
  ghost predicate DifferAt(keys: seq<Key>, other: seq<Key>, j: nat) {
    j < |keys| && j < |other| && keys[..j] == other[..j] && keys[j] != other[j]
  }

  /** What has to precede the rearrangement's own key where the two first differ was emitted before. */
  lemma PredecessorEmitted(
    p: Policy, sources: seq<Source>, picks: Picks, ordered: seq<Key>, keys: seq<Key>, n: nat, other: seq<Key>, j: nat,
    z: Key)
    requires RecordsOf(ordered, picks, keys, n) && Rearranges(other, keys, n) && AllKept(p, sources, other, n)
    requires DifferAt(keys, other, j)
    requires z in picks && other[j] in PrecedenceGraph(p, sources, picks)[z]
    ensures z in ordered && IndexOf(ordered, z) < IndexOf(ordered, keys[j])
  {
    hide OfType, RecordKeys, IndexOf, AllKept, PrecedenceGraph;
    var y := other[j];
    TypeIsPhase(ordered, picks, other, n);
    PredecessorBefore(p, sources, picks, other, n, z, y);
    DifferenceIsLater(keys, other, n, j);
    SharedBefore(keys, other, j, z);
    TypeOfKey(ordered, picks, z);
    TypeOfKey(ordered, picks, y);
    EmittedBefore(ordered, picks, z, keys[j]);
  }

  /** Where the keys of a rearrangement first differ, its own key was ready to be emitted as well. */
  lemma DifferenceWasReady(
    p: Policy, sources: seq<Source>, picks: Picks, ordered: seq<Key>, keys: seq<Key>, n: nat, other: seq<Key>, j: nat)
    returns (a: nat)
    requires RecordsOf(ordered, picks, keys, n) && Rearranges(other, keys, n) && AllKept(p, sources, other, n)
    requires DifferAt(keys, other, j)
    ensures a < |ordered| && ordered[a] == keys[j]
    ensures other[j] in Ready(PrecedenceGraph(p, sources, picks), Elements(ordered[..a]))
  {
    hide OfType, RecordKeys, IndexOf, AllKept, PairsUpTo, Rearranges;
    var g, x, y := PrecedenceGraph(p, sources, picks), keys[j], other[j];
    DifferenceIsLater(keys, other, n, j);
    assert x in keys;
    EmittedBefore(ordered, picks, x, y);
    a := IndexOf(ordered, x);
    IndexMisses(ordered, x);
    InPart(ordered, a, y);
    forall z | z in Preds(g, y) ensures z in ordered[..a] {
      PredecessorEmitted(p, sources, picks, ordered, keys, n, other, j, z);
      InPart(ordered, a, z);
    }
  }

  /** The records stand in the least order that keeps every ledger's. */
  lemma RecordsAreLeast(
    p: Policy, sources: seq<Source>, picks: Picks, ordered: seq<Key>, keys: seq<Key>, n: nat, other: seq<Key>)
    requires Greedy(PrecedenceGraph(p, sources, picks), ordered)
    requires RecordsOf(ordered, picks, keys, n) && Rearranges(other, keys, n) && AllKept(p, sources, other, n)
    ensures LexLeq(keys, other)
  {
    hide RecordsOf, AllKept, PrecedenceGraph, Ready;
    if keys == other {
      LexReflexive(keys);
    } else {
      var j := FirstDifference(keys, other);
      var a := DifferenceWasReady(p, sources, picks, ordered, keys, n, other, j);
      assert IsLeast(Ready(PrecedenceGraph(p, sources, picks), Elements(ordered[..a])), ordered[a]);
      LexFromFirstDifference(keys, other, j);
    }
  }
}
