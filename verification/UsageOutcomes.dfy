/** What every successful usage merge returns, told from its result and its input alone. */
module UsageOutcomes {
  import opened Sequences
  import opened CodeUnits
  import opened PrecedenceOrder
  import opened Representation
  import opened UsageHistory
  import opened UsageSelection
  import opened UsageTheorems
  import opened UsageAccount
  import opened UsageReplay

  function KeysOf(records: seq<Record>): seq<Key> {
    seq(|records|, n requires 0 <= n < |records| => records[n].key)
  }

  /** Every key of every ledger has exactly one record. */
  ghost predicate OneRecordPerKey(p: Policy, r: MergedUsage) {
    Distinct(KeysOf(r.records)) && forall k :: k in KeysOf(r.records) <==> k in AllKeys(p, r.sources)
  }

  ghost predicate Balanced(r: MergedUsage) {
    && |r.occurrences| == Offset(r.sources, |r.sources|)
    && |WithDisposition(r.occurrences, SelectedOriginal)| == |r.records| == r.selectedSnapshots + r.selectedLinks
    && |WithDisposition(r.occurrences, RetainedEvidence)| == r.retainedEvidence
  }

  /** Every event of every ledger is listed at its place, under the record of its key. */
  ghost predicate EveryEventListed(p: Policy, r: MergedUsage) {
    forall i, m :: 0 <= i < |r.sources| && 0 <= m < |r.sources[i].value.events| ==>
      Accounts(r, Offset(r.sources, i) + m, r.sources[i].id, m, KeyOf(p, r.sources[i].value.events[m]))
  }

  // ------------------------------------------------------------------ one per key

  lemma RecordKeysOf(
    p: Policy, sources: seq<Source>, reviewed: seq<KeyedChoice>, picks: Picks, ordered: seq<Key>, r: MergedUsage)
    requires Settled(p, sources, reviewed, picks, ordered, r)
    ensures r.sources == sources && KeysOf(r.records) == RecordKeys(ordered, picks)
    ensures r.selectedSnapshots == |OfType(ordered, picks, SnapshotRecorded)|
    ensures OneRecordPerKey(p, r)
  {
    hide RecordKeys, OfType, OccurrencesUpTo, PairsUpTo, RecordAt, KeysOf, AllKeys;
    var keys := RecordKeys(ordered, picks);
    SettledKeys(p, sources, reviewed, picks, ordered, r);
    RecordsFollowOrder(p, sources, reviewed, picks, ordered);
    KeysListed(r.records, keys, picks);
  }

  lemma KeysListed(records: seq<Record>, keys: seq<Key>, picks: Picks)
    requires |records| == |keys| && forall n :: 0 <= n < |records| ==> RecordAt(records, keys, picks, n)
    ensures KeysOf(records) == keys
  {
    forall n | 0 <= n < |records| ensures KeysOf(records)[n] == keys[n] {
      assert RecordAt(records, keys, picks, n);
    }
  }

  // ----------------------------------------------------------------- ledger order

  lemma SubsequenceKeepsOrder(a: seq<Key>, b: seq<Key>, x: Key, y: Key)
    requires IsSubsequence(a, b) && Distinct(b) && x in a && y in a && IndexOf(a, x) < IndexOf(a, y)
    ensures IndexOf(b, x) < IndexOf(b, y)
  {
    var at :| Embeds(at, a, b);
    IndexMisses(a, x);
    IndexMisses(a, y);
    IndexFinds(b, at[IndexOf(a, x)]);
    IndexFinds(b, at[IndexOf(a, y)]);
  }

  /** Two keys of one type, in a ledger's own order, are replayed in that order. */
  lemma TypeKeepsOrder(
    p: Policy, sources: seq<Source>, picks: Picks, ordered: seq<Key>, m: nat, t: RecordType, i: nat, j: nat)
    requires AllKeys(p, sources) == picks.Keys && Topological(PrecedenceGraph(p, sources, picks), ordered)
    requires m < |sources| && !Superseded(p, sources, sources[m]) && (t == SnapshotRecorded || t == PlanLinked)
    requires i < j < |LastOrder(p, sources[m].value.events)|
    requires LastOrder(p, sources[m].value.events)[i] in OfType(ordered, picks, t)
    requires LastOrder(p, sources[m].value.events)[j] in OfType(ordered, picks, t)
    ensures IndexOf(OfType(ordered, picks, t), LastOrder(p, sources[m].value.events)[i]) <
      IndexOf(OfType(ordered, picks, t), LastOrder(p, sources[m].value.events)[j])
  {
    hide OfType, LastOrder, Superseded, IndexOf, PrecedenceGraph, AllKeys;
    var order := LastOrder(p, sources[m].value.events);
    LastOrderLists(p, sources[m].value.events);
    OfTypeSelects(order, picks, t);
    OfTypeSelects(ordered, picks, t);
    OfTypeKeepsOrder(order, picks, t, i, j);
    PhaseEmbedsInType(p, sources, picks, ordered, m, t);
    SubsequenceKeepsOrder(Phase(p, sources[m], picks, t), OfType(ordered, picks, t), order[i], order[j]);
  }

  lemma PhaseKeepsOrder(
    p: Policy, sources: seq<Source>, picks: Picks, ordered: seq<Key>, m: nat, snapshots: nat, i: nat, j: nat)
    requires AllKeys(p, sources) == picks.Keys && Topological(PrecedenceGraph(p, sources, picks), ordered)
    requires m < |sources| && !Superseded(p, sources, sources[m])
    requires i < j < |LastOrder(p, sources[m].value.events)|
    requires snapshots == |OfType(ordered, picks, SnapshotRecorded)|
    requires LastOrder(p, sources[m].value.events)[i] in RecordKeys(ordered, picks)
    requires LastOrder(p, sources[m].value.events)[j] in RecordKeys(ordered, picks)
    requires IndexOf(RecordKeys(ordered, picks), LastOrder(p, sources[m].value.events)[i]) < snapshots <==>
      IndexOf(RecordKeys(ordered, picks), LastOrder(p, sources[m].value.events)[j]) < snapshots
    ensures IndexOf(RecordKeys(ordered, picks), LastOrder(p, sources[m].value.events)[i]) <
      IndexOf(RecordKeys(ordered, picks), LastOrder(p, sources[m].value.events)[j])
  {
    hide RecordKeys, OfType, LastOrder, Superseded, IndexOf, PrecedenceGraph, Topological, AllKeys;
    var a, b := LastOrder(p, sources[m].value.events)[i], LastOrder(p, sources[m].value.events)[j];
    PhaseOfKey(ordered, picks, a);
    PhaseOfKey(ordered, picks, b);
    var t := if IndexOf(RecordKeys(ordered, picks), a) < snapshots then SnapshotRecorded else PlanLinked;
    TypeKeepsOrder(p, sources, picks, ordered, m, t, i, j);
  }

  lemma LedgerKeepsOrder(
    p: Policy, sources: seq<Source>, reviewed: seq<KeyedChoice>, picks: Picks, ordered: seq<Key>, r: MergedUsage,
    source: Source)
    requires Settled(p, sources, reviewed, picks, ordered, r)
    requires source in sources && !Superseded(p, sources, source)
    ensures KeepsOrder(p, KeysOf(r.records), r.selectedSnapshots, source)
  {
    hide RecordKeys, OfType, LastOrder, Superseded, IndexOf, PrecedenceGraph;
    var m :| 0 <= m < |sources| && sources[m] == source;
    var order := LastOrder(p, source.value.events);
    RecordKeysOf(p, sources, reviewed, picks, ordered, r);
    SettledKeys(p, sources, reviewed, picks, ordered, r);
    LastOrderLists(p, source.value.events);
    SourceKeysKnown(p, sources, m);
    forall i, j | 0 <= i < j < |order| && SamePhase(KeysOf(r.records), r.selectedSnapshots, order[i], order[j])
      ensures IndexOf(KeysOf(r.records), order[i]) < IndexOf(KeysOf(r.records), order[j])
    {
      assert order[i] in order && order[j] in order;
      PhaseKeepsOrder(p, sources, picks, ordered, m, r.selectedSnapshots, i, j);
    }
  }

  // --------------------------------------------------------------- the whole account

  lemma EventsListed(
    p: Policy, sources: seq<Source>, reviewed: seq<KeyedChoice>, picks: Picks, ordered: seq<Key>, r: MergedUsage)
    requires Settled(p, sources, reviewed, picks, ordered, r)
    ensures EveryEventListed(p, r)
  {
    hide Settled, Offset, KeyOf, Accounts, OneRecordPerKey;
    RecordKeysOf(p, sources, reviewed, picks, ordered, r);
    forall i, m | 0 <= i < |sources| && 0 <= m < |sources[i].value.events|
      ensures Accounts(r, Offset(sources, i) + m, sources[i].id, m, KeyOf(p, sources[i].value.events[m]))
    {
      EveryEventAccounted(p, sources, reviewed, picks, ordered, r, i, m);
    }
  }

  lemma AllKeptEither(p: Policy, a: seq<Source>, b: seq<Source>, keys: seq<Key>, n: nat)
    requires forall s :: s in a <==> s in b
    ensures AllKept(p, a, keys, n) <==> AllKept(p, b, keys, n)
  {
    hide KeepsOrder;
    assert forall s :: Superseded(p, a, s) <==> Superseded(p, b, s);
  }

  lemma OrdersKept(
    p: Policy, sources: seq<Source>, reviewed: seq<KeyedChoice>, picks: Picks, ordered: seq<Key>, r: MergedUsage)
    requires Settled(p, sources, reviewed, picks, ordered, r)
    ensures AllKept(p, sources, KeysOf(r.records), r.selectedSnapshots)
  {
    hide Settled, Superseded, KeepsOrder;
    forall source <- sources | !Superseded(p, sources, source)
      ensures KeepsOrder(p, KeysOf(r.records), r.selectedSnapshots, source)
    {
      LedgerKeepsOrder(p, sources, reviewed, picks, ordered, r, source);
    }
  }

  lemma OrdersLeast(
    p: Policy, sources: seq<Source>, reviewed: seq<KeyedChoice>, picks: Picks, ordered: seq<Key>, r: MergedUsage)
    requires Settled(p, sources, reviewed, picks, ordered, r)
    requires Greedy(PrecedenceGraph(p, sources, picks), ordered)
    ensures LeastKept(p, sources, KeysOf(r.records), r.selectedSnapshots)
  {
    hide OfType, RecordKeys, AllKept, Rearranges, Greedy, PrecedenceGraph, KeysOf, Assemble;
    var keys, n := KeysOf(r.records), r.selectedSnapshots;
    RecordKeysOf(p, sources, reviewed, picks, ordered, r);
    SettledKeys(p, sources, reviewed, picks, ordered, r);
    forall other | Rearranges(other, keys, n) && AllKept(p, sources, other, n) ensures LexLeq(keys, other) {
      RecordsAreLeast(p, sources, picks, ordered, keys, n, other);
    }
  }

  /** The orders that ledgers impose, told for the ledgers in any order of supply. */
  lemma OrdersForInput(p: Policy, input: seq<Source>, sources: seq<Source>, keys: seq<Key>, n: nat)
    requires forall s :: s in sources <==> s in input
    requires AllKept(p, sources, keys, n) && LeastKept(p, sources, keys, n)
    ensures AllKept(p, input, keys, n) && LeastKept(p, input, keys, n)
  {
    hide AllKept, Rearranges;
    AllKeptEither(p, input, sources, keys, n);
    forall other | Rearranges(other, keys, n) && AllKept(p, input, other, n) ensures LexLeq(keys, other) {
      AllKeptEither(p, input, sources, other, n);
    }
  }

  // ----------------------------------------------------------------------- what a record stands for

  /**
   * The event a record names, in the ledger it names: of its own key, the last one there, and a snapshot
   * or a link as the record's place says. No ledger has more of that key.
   */
  ghost predicate NamesEvent(p: Policy, r: MergedUsage, n: nat, i: int) {
    && n < |r.records| && 0 <= i < |r.sources| && r.sources[i].id == r.records[n].sourceId
    && r.records[n].ordinal < |r.sources[i].value.events|
    && var e := r.sources[i].value.events[r.records[n].ordinal];
      && KeyOf(p, e) == r.records[n].key && e.event.envelope.eventId == r.records[n].eventId
      && (e.event.envelope.recordType == SnapshotRecorded <==> n < r.selectedSnapshots)
      && IsLastFor(p, r.sources[i].value.events, r.records[n].key, r.records[n].ordinal)
      && forall s <- r.sources :: KeepsAllOf(p, r.sources[i], s, r.records[n].key, r.records[n].reviewed)
  }

  /** The events of a key in one ledger stand, at their places, for all that another ledger has of it. */
  ghost predicate KeepsAllOf(p: Policy, kept: Source, other: Source, k: Key, reviewed: bool) {
    Covers(p, reviewed, EventsFor(p, kept.value.events, k), EventsFor(p, other.value.events, k))
  }

  ghost predicate HasEvent(p: Policy, r: MergedUsage, n: nat) {
    exists i :: NamesEvent(p, r, n, i)
  }

  ghost predicate EveryRecordNames(p: Policy, r: MergedUsage) {
    forall n: nat :: n < |r.records| ==> HasEvent(p, r, n)
  }

  /** The occurrence is of the event that the record names. */
  ghost predicate IsRecorded(r: MergedUsage, x: nat, o: int) {
    && x < |r.records| && 0 <= o < |r.occurrences|
    && r.occurrences[o].sourceId == r.records[x].sourceId && r.occurrences[o].ordinal == r.records[x].ordinal
  }

  /** One occurrence, and no other, is the original of a record: that of the event it names. */
  ghost predicate HasOneOriginal(r: MergedUsage, x: nat) {
    exists o :: IsOriginal(r, x, o) && IsRecorded(r, x, o) && forall other :: IsOriginal(r, x, other) ==> other == o
  }

  ghost predicate OneOriginalEach(r: MergedUsage) {
    forall x: nat :: x < |r.records| ==> HasOneOriginal(r, x)
  }

  lemma RecordNames(
    p: Policy, sources: seq<Source>, reviewed: seq<KeyedChoice>, picks: Picks, ordered: seq<Key>, r: MergedUsage,
    n: nat)
    returns (i: nat)
    requires Settled(p, sources, reviewed, picks, ordered, r) && n < |r.records|
    ensures NamesEvent(p, r, n, i)
  {
    hide RecordKeys, OfType, KeysOf, AllKeys, IndexOf, Settled, IsLastFor, KeepsAllOf, ArePicks;
    var keys := RecordKeys(ordered, picks);
    RecordKeysOf(p, sources, reviewed, picks, ordered, r);
    SettledKeys(p, sources, reviewed, picks, ordered, r);
    assert |r.records| == |KeysOf(r.records)|;
    SettledRecord(p, sources, reviewed, picks, ordered, r, n);
    var k := keys[n];
    i := PickNamed(p, sources, reviewed, picks, k);
    IndexFinds(keys, n);
    assert k in keys;
    TypeOfKey(ordered, picks, k);
  }

  /** The event a pick ends with, in the ledger it is from. */
  lemma PickNamed(p: Policy, sources: seq<Source>, reviewed: seq<KeyedChoice>, picks: Picks, k: Key) returns (i: nat)
    requires AllDecoded(sources) && ArePicks(p, sources, reviewed, picks) && k in picks
    ensures i < |sources| && picks[k].record.key == k && sources[i].id == picks[k].record.sourceId
    ensures var n := picks[k].record.ordinal;
      && n < |sources[i].value.events| && picks[k].event == sources[i].value.events[n]
      && picks[k].record.eventId == picks[k].event.event.envelope.eventId
      && KeyOf(p, picks[k].event) == k && IsLastFor(p, sources[i].value.events, k, n)
    ensures forall s <- sources :: KeepsAllOf(p, sources[i], s, k, picks[k].record.reviewed)
  {
    hide HasPick, KeepsAllOf;
    var m := PickOrigin(p, sources, reviewed, picks, k);
    i :| 0 <= i < |sources| && sources[i] == picks[k].source;
    assert Decoded(sources[i].value);
    PickIdentity(p, sources, reviewed, picks, k);
    forall s <- sources ensures KeepsAllOf(p, picks[k].source, s, k, picks[k].record.reviewed) {
      PickKeepsAll(p, sources, reviewed, picks, k, s);
    }
  }

  lemma PickIdentity(p: Policy, sources: seq<Source>, reviewed: seq<KeyedChoice>, picks: Picks, k: Key)
    requires ArePicks(p, sources, reviewed, picks) && k in picks
    ensures picks[k].record.eventId == picks[k].event.event.envelope.eventId
  {
    hide KeyAccepts, Copies;
    assert HasPick(p, sources, reviewed, k, picks[k]);
  }

  lemma PickKeepsAll(p: Policy, sources: seq<Source>, reviewed: seq<KeyedChoice>, picks: Picks, k: Key, s: Source)
    requires ArePicks(p, sources, reviewed, picks) && k in picks && s in sources
    ensures KeepsAllOf(p, picks[k].source, s, k, picks[k].record.reviewed)
  {
    hide HasPick, Copies, EventsFor, StandsFor;
    NoRepairOmitted(p, sources, reviewed, picks, k);
    var target :| target in Copies(p, sources, k) && EndsCovering(p, Copies(p, sources, k), target, picks[k]);
    CopiesExactly(p, sources, k);
    var own := EventsFor(p, s.value.events, k);
    if own != [] { assert Copy(s, own) in Copies(p, sources, k); }
  }

  lemma RecordsName(
    p: Policy, sources: seq<Source>, reviewed: seq<KeyedChoice>, picks: Picks, ordered: seq<Key>, r: MergedUsage)
    requires Settled(p, sources, reviewed, picks, ordered, r)
    ensures EveryRecordNames(p, r)
  {
    hide Settled, NamesEvent;
    forall n: nat | n < |r.records| ensures HasEvent(p, r, n) {
      var i := RecordNames(p, sources, reviewed, picks, ordered, r, n);
    }
  }

  lemma OriginalIsRecorded(
    p: Policy, sources: seq<Source>, reviewed: seq<KeyedChoice>, picks: Picks, ordered: seq<Key>, r: MergedUsage,
    x: nat, o: nat)
    requires Settled(p, sources, reviewed, picks, ordered, r) && x < |RecordKeys(ordered, picks)| && IsOriginal(r, x, o)
    ensures IsRecorded(r, x, o)
  {
    hide Settled, RecordKeys, KeysIn, AllKeys, OccurrencesUpTo, Offset, ArePicks, IndexOf, Assemble;
    var i, m := OriginalPlace(p, sources, reviewed, picks, ordered, r, x, o);
    SettledOccurrence(p, sources, reviewed, picks, ordered, r, i, m);
    SettledRecord(p, sources, reviewed, picks, ordered, r, x);
  }

  lemma SettledRecord(
    p: Policy, sources: seq<Source>, reviewed: seq<KeyedChoice>, picks: Picks, ordered: seq<Key>, r: MergedUsage,
    x: nat)
    requires Settled(p, sources, reviewed, picks, ordered, r) && x < |RecordKeys(ordered, picks)|
    ensures RecordKeys(ordered, picks)[x] in picks && x < |r.records|
    ensures r.records[x] == picks[RecordKeys(ordered, picks)[x]].record
  {
    hide RecordKeys, OfType, OccurrencesUpTo, PairsUpTo, AllKeys;
    RecordsFollowOrder(p, sources, reviewed, picks, ordered);
    assert RecordAt(r.records, RecordKeys(ordered, picks), picks, x);
  }

  lemma OriginalsStand(
    p: Policy, sources: seq<Source>, reviewed: seq<KeyedChoice>, picks: Picks, ordered: seq<Key>, r: MergedUsage)
    requires Settled(p, sources, reviewed, picks, ordered, r)
    ensures OneOriginalEach(r)
  {
    hide Settled;
    RecordKeysOf(p, sources, reviewed, picks, ordered, r);
    assert |r.records| == |KeysOf(r.records)|;
    forall x: nat | x < |r.records| ensures HasOneOriginal(r, x) {
      var o := OriginalExists(p, sources, reviewed, picks, ordered, r, x);
      OriginalIsRecorded(p, sources, reviewed, picks, ordered, r, x, o);
      forall other | IsOriginal(r, x, other) ensures other == o {
        OriginalUnique(p, sources, reviewed, picks, ordered, r, x, other, o);
      }
    }
  }

  /** What a merge of sorted ledgers returns. */
  ghost predicate Outcome(p: Policy, sources: seq<Source>, r: MergedUsage) {
    && OneRecordPerKey(p, r) && EveryRecordNames(p, r) && OneOriginalEach(r)
    && AllKept(p, sources, KeysOf(r.records), r.selectedSnapshots)
    && LeastKept(p, sources, KeysOf(r.records), r.selectedSnapshots)
    && EveryEventListed(p, r) && Balanced(r)
  }

  lemma MergeOutcome(
    p: Policy, sources: seq<Source>, reviewed: seq<KeyedChoice>, picks: Picks, ordered: seq<Key>, r: MergedUsage)
    requires AllDecoded(sources) && StrictlySorted(sources) && Merges(p, sources, reviewed, picks, ordered, r)
    ensures r.sources == sources && Outcome(p, sources, r)
  {
    hide AllDecoded, StrictlySorted, Merges, Settled, Greedy, PrecedenceGraph, AllKept, LeastKept, KeysOf;
    hide OneRecordPerKey, EveryRecordNames, OneOriginalEach, EveryEventListed, Balanced, RecordKeys, OfType;
    MergeIsSettled(p, sources, reviewed, picks, ordered, r);
    MergeIsGreedy(p, sources, reviewed, picks, ordered, r);
    RecordKeysOf(p, sources, reviewed, picks, ordered, r);
    RecordsName(p, sources, reviewed, picks, ordered, r);
    OriginalsStand(p, sources, reviewed, picks, ordered, r);
    OrdersKept(p, sources, reviewed, picks, ordered, r);
    OrdersLeast(p, sources, reviewed, picks, ordered, r);
    EventsListed(p, sources, reviewed, picks, ordered, r);
    MergeBalances(p, sources, reviewed, picks, ordered, r);
  }

  lemma OutcomeForInput(p: Policy, input: seq<Source>, sources: seq<Source>, r: MergedUsage)
    requires Outcome(p, sources, r) && forall s :: s in sources <==> s in input
    ensures Outcome(p, input, r)
  {
    hide AllKept, LeastKept, KeysOf, OneRecordPerKey, EveryRecordNames, OneOriginalEach, EveryEventListed, Balanced;
    OrdersForInput(p, input, sources, KeysOf(r.records), r.selectedSnapshots);
  }

  lemma MergeIsGreedy(
    p: Policy, sources: seq<Source>, reviewed: seq<KeyedChoice>, picks: Picks, ordered: seq<Key>, r: MergedUsage)
    requires Merges(p, sources, reviewed, picks, ordered, r)
    ensures Greedy(PrecedenceGraph(p, sources, picks), ordered)
  {
  }

  lemma MergeBalances(
    p: Policy, sources: seq<Source>, reviewed: seq<KeyedChoice>, picks: Picks, ordered: seq<Key>, r: MergedUsage)
    requires Settled(p, sources, reviewed, picks, ordered, r)
    ensures Balanced(r)
  {
    hide Settled;
    RecordKeysOf(p, sources, reviewed, picks, ordered, r);
    AccountBalances(p, sources, reviewed, picks, ordered, r);
  }

  /**
   * A selected merge has one record for every key of the ledgers, named after an event with that key,
   * snapshots before links, and one original occurrence for each. The records keep the own order of
   * every ledger that no longer one repeats, and are the least arrangement that does. Every event is
   * listed under the record of its key, and the account balances.
   */
  lemma SelectedUsage(p: Policy, input: seq<Source>, reviewed: seq<KeyedChoice>, r: MergedUsage)
    requires AllDecoded(input) && IsOutcome(p, input, reviewed, UsageSelected(r))
    ensures StrictlySorted(r.sources) && forall s :: s in r.sources <==> s in input
    ensures Outcome(p, input, r)
  {
    hide Merges, SortById, Outcome, StrictlySorted;
    var sources := SortById(input);
    var picks, ordered :| Merges(p, sources, reviewed, picks, ordered, r);
    SortKeepsIds(input);
    SortedSourcesDecoded(input);
    MergeOutcome(p, sources, reviewed, picks, ordered, r);
    OutcomeForInput(p, input, sources, r);
  }
}
