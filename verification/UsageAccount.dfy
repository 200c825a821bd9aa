/** The account the usage merge gives of every original occurrence. */
module UsageAccount {
  import opened Sequences
  import opened CodeUnits
  import opened PrecedenceOrder
  import opened Representation
  import opened UsageHistory
  import opened UsageSelection
  import opened UsageTheorems

  /** Where the first ledger beyond the first n begins in the flat list. */
  function Offset(sources: seq<Source>, n: nat): nat
    requires n <= |sources|
  {
    if n == 0 then 0 else Offset(sources, n - 1) + |sources[n - 1].value.events|
  }

  lemma {:induction false} OccurrenceAtOffset(
    p: Policy, sources: seq<Source>, n: nat, keys: seq<Key>, picks: Picks, i: nat, m: nat)
    requires n <= |sources| && AllKeys(p, sources) <= picks.Keys
    requires i < n && m < |sources[i].value.events|
    ensures |OccurrencesUpTo(p, sources, n, keys, picks)| == Offset(sources, n)
    ensures Offset(sources, i) + m < Offset(sources, n)
    ensures KeyOf(p, sources[i].value.events[m]) in picks
    ensures OccurrencesUpTo(p, sources, n, keys, picks)[Offset(sources, i) + m]
      == OccurrenceAt(p, sources[i], m, keys, picks)
  {
    hide KeysIn, AllKeys, OccurrenceAt, OccurrencesIn, KeyOf;
    SourceKeysKnown(p, sources, n - 1);
    SourceKeysKnown(p, sources, i);
    EventKeyKnown(p, sources[i].value.events, m);
    AsManyOccurrences(p, sources, n, keys, picks);
    var front := OccurrencesUpTo(p, sources, n - 1, keys, picks);
    var own := OccurrencesIn(p, sources[n - 1], |sources[n - 1].value.events|, keys, picks);
    AsManyOccurrences(p, sources, n - 1, keys, picks);
    if i < n - 1 {
      OccurrenceAtOffset(p, sources, n - 1, keys, picks, i, m);
    } else {
      OccurrenceWithin(p, sources[i], |sources[i].value.events|, keys, picks, m);
      assert (front + own)[|front| + m] == own[m];
    }
  }

  lemma {:induction false} OccurrenceWithin(p: Policy, source: Source, n: nat, keys: seq<Key>, picks: Picks, m: nat)
    requires m < n <= |source.value.events| && KeysIn(p, source.value.events) <= picks.Keys
    ensures |OccurrencesIn(p, source, n, keys, picks)| == n
    ensures KeyOf(p, source.value.events[m]) in picks
    ensures OccurrencesIn(p, source, n, keys, picks)[m] == OccurrenceAt(p, source, m, keys, picks)
  {
    hide KeysIn, OccurrenceAt;
    EventKeyKnown(p, source.value.events, m);
    if n == 1 {
    } else if m < n - 1 {
      OccurrenceWithin(p, source, n - 1, keys, picks, m);
    } else {
      OccurrenceWithin(p, source, n - 1, keys, picks, 0);
    }
  }

  lemma {:induction false} AsManyOccurrences(p: Policy, sources: seq<Source>, n: nat, keys: seq<Key>, picks: Picks)
    requires n <= |sources| && AllKeys(p, sources) <= picks.Keys
    ensures |OccurrencesUpTo(p, sources, n, keys, picks)| == Offset(sources, n)
  {
    hide KeysIn, AllKeys;
    if n > 0 {
      SourceKeysKnown(p, sources, n - 1);
      var source := sources[n - 1];
      if source.value.events != [] { OccurrenceWithin(p, source, |source.value.events|, keys, picks, 0); }
      AsManyOccurrences(p, sources, n - 1, keys, picks);
    }
  }

  lemma {:induction false} Locate(sources: seq<Source>, n: nat, o: nat) returns (i: nat, m: nat)
    requires n <= |sources| && o < Offset(sources, n)
    ensures i < n && m < |sources[i].value.events| && o == Offset(sources, i) + m
  {
    if o < Offset(sources, n - 1) {
      i, m := Locate(sources, n - 1, o);
    } else {
      i, m := n - 1, o - Offset(sources, n - 1);
    }
  }

  /** The settled part of a merge that the account is about. */
  ghost predicate Settled(p: Policy, sources: seq<Source>, reviewed: seq<KeyedChoice>, picks: Picks, ordered: seq<Key>,
                          r: MergedUsage) {
    && AllDecoded(sources)
    && StrictlySorted(sources)
    && ArePicks(p, sources, reviewed, picks)
    && Topological(PrecedenceGraph(p, sources, picks), ordered)
    && r == Assemble(p, sources, picks, ordered)
  }

  /** The records of a settled merge list the picked keys, once each. */
  lemma SettledKeys(
    p: Policy, sources: seq<Source>, reviewed: seq<KeyedChoice>, picks: Picks, ordered: seq<Key>, r: MergedUsage)
    requires Settled(p, sources, reviewed, picks, ordered, r)
    ensures AllDecoded(sources) && StrictlySorted(sources) && ArePicks(p, sources, reviewed, picks)
    ensures AllKeys(p, sources) == picks.Keys && r == Assemble(p, sources, picks, ordered)
    ensures Distinct(RecordKeys(ordered, picks))
    ensures forall k :: k in RecordKeys(ordered, picks) <==> k in picks
    ensures |r.occurrences| == Offset(sources, |sources|)
    ensures r.occurrences == OccurrencesUpTo(p, sources, |sources|, RecordKeys(ordered, picks), picks)
  {
    RecordKeysCover(p, sources, reviewed, picks, ordered);
    AsManyOccurrences(p, sources, |sources|, RecordKeys(ordered, picks), picks);
  }

  /** Event m of ledger i, as a settled merge accounts for it. */
  lemma SettledOccurrence(
    p: Policy, sources: seq<Source>, reviewed: seq<KeyedChoice>, picks: Picks, ordered: seq<Key>, r: MergedUsage,
    i: nat, m: nat)
    requires Settled(p, sources, reviewed, picks, ordered, r)
    requires i < |sources| && m < |sources[i].value.events|
    ensures Offset(sources, i) + m < |r.occurrences| && sources[i].value.events[m].ordinal == m
    ensures var e := sources[i].value.events[m]; var o := r.occurrences[Offset(sources, i) + m];
      && KeyOf(p, e) in picks && KeyOf(p, e) in RecordKeys(ordered, picks)
      && o.sourceId == sources[i].id && o.ordinal == m
      && o.recordIndex == IndexOf(RecordKeys(ordered, picks), KeyOf(p, e))
      && (o.disposition == SelectedOriginal <==>
            picks[KeyOf(p, e)].record.sourceId == sources[i].id && picks[KeyOf(p, e)].record.ordinal == m)
  {
    hide Settled, RecordKeys, KeysIn, AllKeys, OccurrencesUpTo, Offset, ArePicks, IndexOf;
    var keys := RecordKeys(ordered, picks);
    SettledKeys(p, sources, reviewed, picks, ordered, r);
    OccurrenceAtOffset(p, sources, |sources|, keys, picks, i, m);
    assert sources[i] in sources;
    assert Decoded(sources[i].value);
  }

  lemma MergeIsSettled(
    p: Policy, sources: seq<Source>, reviewed: seq<KeyedChoice>, picks: Picks, ordered: seq<Key>, r: MergedUsage)
    requires AllDecoded(sources) && StrictlySorted(sources)
    requires Merges(p, sources, reviewed, picks, ordered, r)
    ensures Settled(p, sources, reviewed, picks, ordered, r)
  {
    ReplayOrderIsLeast(p, sources, reviewed, picks, ordered, r);
  }

  /** Every event of every ledger appears, at its place, under the record of its own key. */
  lemma EveryEventAccounted(
    p: Policy, sources: seq<Source>, reviewed: seq<KeyedChoice>, picks: Picks, ordered: seq<Key>, r: MergedUsage,
    i: nat, m: nat)
    requires Settled(p, sources, reviewed, picks, ordered, r)
    requires i < |sources| && m < |sources[i].value.events|
    ensures
      |r.occurrences| == Offset(sources, |sources|) && Offset(sources, i) + m < |r.occurrences|
    ensures Accounts(r, Offset(sources, i) + m, sources[i].id, m,
                     KeyOf(p, sources[i].value.events[m]))
  {
    hide Settled, Assemble, RecordKeys, KeysIn, AllKeys, ArePicks, Offset, OccurrencesUpTo;
    SettledKeys(p, sources, reviewed, picks, ordered, r);
    SettledOccurrence(p, sources, reviewed, picks, ordered, r, i, m);
    RecordOfKey(p, sources, reviewed, picks, ordered, r, KeyOf(p, sources[i].value.events[m]));
  }

  /** Occurrence o is event m of the named ledger, filed under the record of key k. */
  ghost predicate Accounts(r: MergedUsage, o: int, id: Text, m: nat, k: Key) {
    && 0 <= o < |r.occurrences|
    && r.occurrences[o].sourceId == id && r.occurrences[o].ordinal == m
    && r.occurrences[o].recordIndex < |r.records|
    && r.records[r.occurrences[o].recordIndex].key == k
  }

  lemma RecordOfKey(
    p: Policy, sources: seq<Source>, reviewed: seq<KeyedChoice>, picks: Picks, ordered: seq<Key>, r: MergedUsage,
    k: Key)
    requires Settled(p, sources, reviewed, picks, ordered, r) && k in picks
    ensures var x := IndexOf(RecordKeys(ordered, picks), k);
      x < |r.records| && r.records[x].key == k
  {
    var keys := RecordKeys(ordered, picks);
    RecordsFollowOrder(p, sources, reviewed, picks, ordered);
    IndexMisses(keys, k);
    assert RecordAt(r.records, keys, picks, IndexOf(keys, k));
  }

  ghost predicate IsOriginal(r: MergedUsage, x: nat, o: int) {
    0 <= o < |r.occurrences| && r.occurrences[o].recordIndex == x && r.occurrences[o].disposition == SelectedOriginal
  }

  /** Each record has an original occurrence, */
  lemma OriginalExists(
    p: Policy, sources: seq<Source>, reviewed: seq<KeyedChoice>, picks: Picks, ordered: seq<Key>, r: MergedUsage,
    x: nat)
    returns (o: nat)
    requires Settled(p, sources, reviewed, picks, ordered, r)
    requires x < |RecordKeys(ordered, picks)|
    ensures IsOriginal(r, x, o)
  {
    hide Settled, Assemble, RecordKeys, KeysIn, AllKeys, ArePicks, Offset, OccurrencesUpTo;
    var keys := RecordKeys(ordered, picks);
    SettledKeys(p, sources, reviewed, picks, ordered, r);
    assert keys[x] in keys;
    var i, m := PickPlace(p, sources, reviewed, picks, keys[x]);
    SettledOccurrence(p, sources, reviewed, picks, ordered, r, i, m);
    IndexFinds(keys, x);
    o := Offset(sources, i) + m;
  }

  lemma PickPlace(p: Policy, sources: seq<Source>, reviewed: seq<KeyedChoice>, picks: Picks, k: Key)
    returns (i: nat, m: nat)
    requires ArePicks(p, sources, reviewed, picks) && k in picks
    ensures i < |sources| && m < |sources[i].value.events| && KeyOf(p, sources[i].value.events[m]) == k
    ensures picks[k].record.sourceId == sources[i].id
    ensures picks[k].record.ordinal == sources[i].value.events[m].ordinal
  {
    m := PickOrigin(p, sources, reviewed, picks, k);
    i :| 0 <= i < |sources| && sources[i] == picks[k].source;
  }

  /** and only one. */
  lemma OriginalUnique(
    p: Policy, sources: seq<Source>, reviewed: seq<KeyedChoice>, picks: Picks, ordered: seq<Key>, r: MergedUsage,
    x: nat, a: nat, b: nat)
    requires Settled(p, sources, reviewed, picks, ordered, r)
    requires x < |RecordKeys(ordered, picks)|
    requires IsOriginal(r, x, a)
    requires IsOriginal(r, x, b)
    ensures a == b
  {
    hide Settled, Assemble, RecordKeys, KeysIn, AllKeys, ArePicks, OccurrencesUpTo, IsOriginal;
    SettledKeys(p, sources, reviewed, picks, ordered, r);
    var i, m := OriginalPlace(p, sources, reviewed, picks, ordered, r, x, a);
    var j, n := OriginalPlace(p, sources, reviewed, picks, ordered, r, x, b);
    if i != j { BeforeIsStrictTotal(sources[i].id, sources[j].id); }
  }

  lemma OriginalPlace(
    p: Policy, sources: seq<Source>, reviewed: seq<KeyedChoice>, picks: Picks, ordered: seq<Key>, r: MergedUsage,
    x: nat, o: nat)
    returns (i: nat, m: nat)
    requires Settled(p, sources, reviewed, picks, ordered, r)
    requires x < |RecordKeys(ordered, picks)|
    requires IsOriginal(r, x, o)
    ensures i < |sources| && m < |sources[i].value.events| && o == Offset(sources, i) + m
    ensures RecordKeys(ordered, picks)[x] in picks
    ensures sources[i].id == picks[RecordKeys(ordered, picks)[x]].record.sourceId
    ensures m == picks[RecordKeys(ordered, picks)[x]].record.ordinal
  {
    hide Settled, Assemble, RecordKeys, KeysIn, AllKeys, ArePicks, Offset, OccurrencesUpTo;
    var keys := RecordKeys(ordered, picks);
    SettledKeys(p, sources, reviewed, picks, ordered, r);
    i, m := Locate(sources, |sources|, o);
    SettledOccurrence(p, sources, reviewed, picks, ordered, r, i, m);
    IndexMisses(keys, KeyOf(p, sources[i].value.events[m]));
  }

  ghost function WithDisposition(occurrences: seq<Occurrence>, d: Disposition): set<int> {
    set o | 0 <= o < |occurrences| && occurrences[o].disposition == d
  }

  lemma {:induction false} Originals(
    p: Policy, sources: seq<Source>, reviewed: seq<KeyedChoice>, picks: Picks, ordered: seq<Key>, r: MergedUsage,
    n: nat)
    returns (origins: seq<int>)
    requires Settled(p, sources, reviewed, picks, ordered, r)
    requires n <= |RecordKeys(ordered, picks)|
    ensures |origins| == n
    ensures forall x :: 0 <= x < n ==> IsOriginal(r, x, origins[x])
  {
    hide Settled, Assemble, RecordKeys, KeysIn, AllKeys, ArePicks, OccurrencesUpTo, IsOriginal;
    origins := [];
    if n > 0 {
      var front := Originals(p, sources, reviewed, picks, ordered, r, n - 1);
      var o := OriginalExists(p, sources, reviewed, picks, ordered, r, n - 1);
      origins := front + [o];
    }
  }

  /** Every original occurrence is the one of the record it is filed under. */
  lemma OriginalListed(
    p: Policy, sources: seq<Source>, reviewed: seq<KeyedChoice>, picks: Picks, ordered: seq<Key>, r: MergedUsage,
    o: nat)
    returns (x: nat)
    requires Settled(p, sources, reviewed, picks, ordered, r)
    requires o in WithDisposition(r.occurrences, SelectedOriginal)
    ensures x < |RecordKeys(ordered, picks)| && IsOriginal(r, x, o)
  {
    hide Settled, Assemble, RecordKeys, KeysIn, AllKeys, ArePicks, Offset, OccurrencesUpTo;
    var keys := RecordKeys(ordered, picks);
    SettledKeys(p, sources, reviewed, picks, ordered, r);
    var i, m := Locate(sources, |sources|, o);
    SettledOccurrence(p, sources, reviewed, picks, ordered, r, i, m);
    var k := KeyOf(p, sources[i].value.events[m]);
    IndexMisses(keys, k);
    x := IndexOf(keys, k);
  }

  lemma OriginalsAreAll(
    p: Policy, sources: seq<Source>, reviewed: seq<KeyedChoice>, picks: Picks, ordered: seq<Key>, r: MergedUsage,
    origins: seq<int>)
    requires Settled(p, sources, reviewed, picks, ordered, r)
    requires |origins| == |RecordKeys(ordered, picks)|
    requires forall x :: 0 <= x < |origins| ==> IsOriginal(r, x, origins[x])
    ensures Elements(origins) == WithDisposition(r.occurrences, SelectedOriginal)
  {
    hide Settled, Assemble, RecordKeys, KeysIn, AllKeys, ArePicks, OccurrencesUpTo;
    var selected := WithDisposition(r.occurrences, SelectedOriginal);
    forall o | o in selected ensures o in origins {
      var x := OriginalListed(p, sources, reviewed, picks, ordered, r, o);
      OriginalUnique(p, sources, reviewed, picks, ordered, r, x, o, origins[x]);
    }
  }

  /** The account balances: as many originals as records, and the rest retained as evidence. */
  lemma AccountBalances(
    p: Policy, sources: seq<Source>, reviewed: seq<KeyedChoice>, picks: Picks, ordered: seq<Key>, r: MergedUsage)
    requires Settled(p, sources, reviewed, picks, ordered, r)
    ensures
      && |r.occurrences| == Offset(sources, |sources|)
      && |WithDisposition(r.occurrences, SelectedOriginal)| == |r.records| == r.selectedSnapshots + r.selectedLinks
      && |WithDisposition(r.occurrences, RetainedEvidence)| == r.retainedEvidence
  {
    var origins := Originals(p, sources, reviewed, picks, ordered, r, |RecordKeys(ordered, picks)|);
    SettledKeys(p, sources, reviewed, picks, ordered, r);
    OriginalsAreAll(p, sources, reviewed, picks, ordered, r, origins);
    OriginsDistinct(r, origins);
    DistinctCardinality(origins);
    Partition(r.occurrences);
  }

  lemma OriginsDistinct(r: MergedUsage, origins: seq<int>)
    requires forall x :: 0 <= x < |origins| ==> IsOriginal(r, x, origins[x])
    ensures Distinct(origins)
  {
    forall x, y | 0 <= x < y < |origins| ensures origins[x] != origins[y] {
      assert IsOriginal(r, x, origins[x]) && IsOriginal(r, y, origins[y]);
    }
  }

  lemma {:induction false} Partition(occurrences: seq<Occurrence>)
    ensures |WithDisposition(occurrences, SelectedOriginal)| + |WithDisposition(occurrences, RetainedEvidence)|
      == |occurrences|
  {
    if occurrences != [] {
      var n := |occurrences| - 1;
      Partition(occurrences[..n]);
      LastDisposition(occurrences, SelectedOriginal);
      LastDisposition(occurrences, RetainedEvidence);
    }
  }

  lemma LastDisposition(occurrences: seq<Occurrence>, d: Disposition)
    requires occurrences != []
    ensures var n := |occurrences| - 1;
      |WithDisposition(occurrences, d)| ==
      |WithDisposition(occurrences[..n], d)| + (if occurrences[n].disposition == d then 1 else 0)
  {
    var n := |occurrences| - 1;
    var front, own := WithDisposition(occurrences[..n], d), if occurrences[n].disposition == d then {n} else {};
    forall o ensures o in WithDisposition(occurrences, d) <==> o in front + own {}
    assert WithDisposition(occurrences, d) == front + own && front !! own;
  }

  // ------------------------------------------------------------------ one ledger only

  lemma {:induction false} IncreasingAtLeast(at: seq<nat>, i: nat)
    requires forall m, n :: 0 <= m < n < |at| ==> at[m] < at[n]
    requires i < |at|
    ensures at[i] >= i && at[i] + (|at| - 1 - i) <= at[|at| - 1]
    decreases i
  {
    if i > 0 { IncreasingAtLeast(at, i - 1); }
    if i < |at| - 1 { IncreasingGap(at, i, |at| - 1); }
  }

  lemma {:induction false} IncreasingGap(at: seq<nat>, i: nat, j: nat)
    requires forall m, n :: 0 <= m < n < |at| ==> at[m] < at[n]
    requires i <= j < |at|
    ensures at[i] + (j - i) <= at[j]
    decreases j - i
  {
    if i < j { IncreasingGap(at, i, j - 1); }
  }

  lemma FullSubsequence(a: seq<Key>, b: seq<Key>)
    requires IsSubsequence(a, b) && |a| == |b|
    ensures a == b
  {
    var at :| Embeds(at, a, b);
    forall i | 0 <= i < |a| ensures a[i] == b[i] { IncreasingAtLeast(at, i); }
  }

  /**
   * A single ledger is projected onto its last event per key: snapshots, then links,
   * each in last-occurrence order, which is what replaying the ledger itself keeps.
   */
  lemma SingleLedgerProjected(
    p: Policy, source: Source, reviewed: seq<KeyedChoice>, picks: Picks, ordered: seq<Key>, r: MergedUsage)
    requires Settled(p, [source], reviewed, picks, ordered, r)
    ensures RecordKeys(ordered, picks)
      == Phase(p, source, picks, SnapshotRecorded) + Phase(p, source, picks, PlanLinked)
    ensures forall k <- picks :: exists n ::
      IsLastFor(p, source.value.events, k, n) && picks[k].event == source.value.events[n]
  {
    SingleLedgerPhase(p, source, reviewed, picks, ordered, r, SnapshotRecorded);
    SingleLedgerPhase(p, source, reviewed, picks, ordered, r, PlanLinked);
    forall k <- picks
      ensures exists n :: IsLastFor(p, source.value.events, k, n) && picks[k].event == source.value.events[n]
    {
      var n := PickOrigin(p, [source], reviewed, picks, k);
    }
  }

  lemma SingleLedgerPhase(
    p: Policy, source: Source, reviewed: seq<KeyedChoice>, picks: Picks, ordered: seq<Key>, r: MergedUsage,
    t: RecordType)
    requires Settled(p, [source], reviewed, picks, ordered, r)
    requires t == SnapshotRecorded || t == PlanLinked
    ensures OfType(ordered, picks, t) == Phase(p, source, picks, t)
  {
    hide LastOrder, OfType, PairsUpTo, Assemble, StrictlySorted;
    assert [source][0] == source;
    PhaseEmbedsInType(p, [source], picks, ordered, 0, t);
    SameSelection(p, source, picks, ordered, t);
    FullSubsequence(Phase(p, source, picks, t), OfType(ordered, picks, t));
  }

  lemma SameSelection(p: Policy, source: Source, picks: Picks, ordered: seq<Key>, t: RecordType)
    requires picks.Keys == AllKeys(p, [source]) && Elements(ordered) == picks.Keys && Distinct(ordered)
    ensures |Phase(p, source, picks, t)| == |OfType(ordered, picks, t)|
  {
    hide LastOrder, OfType, AllKeys;
    LastOrderLists(p, source.value.events);
    SameKeys(p, source, picks, LastOrder(p, source.value.events), ordered);
    SameOfType(LastOrder(p, source.value.events), ordered, picks, t);
  }

  lemma SameOfType(a: seq<Key>, b: seq<Key>, picks: Picks, t: RecordType)
    requires Distinct(a) && Distinct(b) && forall k :: k in a <==> k in b
    ensures |OfType(a, picks, t)| == |OfType(b, picks, t)|
  {
    OfTypeSelects(a, picks, t);
    OfTypeSelects(b, picks, t);
    DistinctCardinality(OfType(a, picks, t));
    DistinctCardinality(OfType(b, picks, t));
    assert Elements(OfType(a, picks, t)) == Elements(OfType(b, picks, t));
  }

  lemma SameKeys(p: Policy, source: Source, picks: Picks, order: seq<Key>, ordered: seq<Key>)
    requires picks.Keys == AllKeys(p, [source]) && Elements(ordered) == picks.Keys
    requires forall k :: k in order <==> k in KeysIn(p, source.value.events)
    ensures forall k :: k in order <==> k in ordered
  {
    forall k ensures k in order <==> k in ordered {
      assert k in ordered <==> k in Elements(ordered);
      assert [source][0] == source;
    }
  }
}
