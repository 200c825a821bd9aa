/**
 * The usage history merge: from retained ledgers to one list of records in replay
 * order, with an account of every original occurrence.
 */
module UsageSelection {
  import opened Sequences
  import opened CodeUnits
  import opened PrecedenceOrder
  import opened ReplayOrder
  import opened Representation
  import opened UsageHistory
  import opened UsagePicking
  import opened UsageEdges

  datatype Disposition = SelectedOriginal | RetainedEvidence

  datatype Occurrence = Occurrence(
    sourceId: Text, ordinal: nat, eventId: Text, recordIndex: nat, disposition: Disposition)

  datatype MergedUsage = MergedUsage(
    sources: seq<Source>, records: seq<Record>, occurrences: seq<Occurrence>,
    selectedSnapshots: nat, selectedLinks: nat, retainedEvidence: int)

  datatype UsageOutcome = UsageConflict | UsageSelected(selection: MergedUsage)

  // ------------------------------------------------------------- the merged result

  /** Snapshots first, then links, each in replay order. */
  function RecordKeys(ordered: seq<Key>, picks: Picks): seq<Key> {
    OfType(ordered, picks, SnapshotRecorded) + OfType(ordered, picks, PlanLinked)
  }

  lemma RecordKeysPicked(ordered: seq<Key>, picks: Picks)
    ensures forall k <- RecordKeys(ordered, picks) :: k in picks
  {
    OfTypeSelects(ordered, picks, SnapshotRecorded);
    OfTypeSelects(ordered, picks, PlanLinked);
  }

  function Records(keys: seq<Key>, picks: Picks): seq<Record>
    requires forall k <- keys :: k in picks
  {
    seq(|keys|, n requires 0 <= n < |keys| => picks[keys[n]].record)
  }

  function IndexOf(keys: seq<Key>, k: Key): nat {
    if keys == [] || keys[0] == k then 0 else 1 + IndexOf(keys[1..], k)
  }

  function OccurrenceAt(p: Policy, source: Source, n: nat, keys: seq<Key>, picks: Picks): Occurrence
    requires n < |source.value.events| && KeyOf(p, source.value.events[n]) in picks
  {
    var e := source.value.events[n];
    var target := picks[KeyOf(p, e)].record;
    Occurrence(source.id, e.ordinal, e.event.envelope.eventId, IndexOf(keys, KeyOf(p, e)),
               (if source.id == target.sourceId && e.ordinal == target.ordinal then SelectedOriginal
                else RetainedEvidence))
  }

  function OccurrencesIn(p: Policy, source: Source, n: nat, keys: seq<Key>, picks: Picks): seq<Occurrence>
    requires n <= |source.value.events| && KeysIn(p, source.value.events) <= picks.Keys
  {
    if n == 0 then [] else
      EventKeyKnown(p, source.value.events, n - 1);
      OccurrencesIn(p, source, n - 1, keys, picks) + [OccurrenceAt(p, source, n - 1, keys, picks)]
  }

  function OccurrencesUpTo(p: Policy, sources: seq<Source>, n: nat, keys: seq<Key>, picks: Picks): seq<Occurrence>
    requires n <= |sources| && AllKeys(p, sources) <= picks.Keys
  {
    if n == 0 then [] else
      SourceKeysKnown(p, sources, n - 1);
      OccurrencesUpTo(p, sources, n - 1, keys, picks) +
      OccurrencesIn(p, sources[n - 1], |sources[n - 1].value.events|, keys, picks)
  }

  function Assemble(p: Policy, sources: seq<Source>, picks: Picks, ordered: seq<Key>): MergedUsage
    requires AllKeys(p, sources) == picks.Keys
  {
    RecordKeysPicked(ordered, picks);
    var keys := RecordKeys(ordered, picks);
    var occurrences := OccurrencesUpTo(p, sources, |sources|, keys, picks);
    MergedUsage(sources, Records(keys, picks), occurrences,
                |OfType(ordered, picks, SnapshotRecorded)|, |OfType(ordered, picks, PlanLinked)|,
                |occurrences| - |keys|)
  }

  ghost predicate ReviewedKnown(p: Policy, sources: seq<Source>, reviewed: seq<KeyedChoice>) {
    forall c <- reviewed :: c.key in AllKeys(p, sources)
  }

  ghost predicate Merges(
    p: Policy, sources: seq<Source>, reviewed: seq<KeyedChoice>, picks: Picks, ordered: seq<Key>, r: MergedUsage)
  {
    && ReviewedKnown(p, sources, reviewed)
    && ArePicks(p, sources, reviewed, picks)
    && UniqueTerminals(p, picks)
    && Exhausted(PrecedenceGraph(p, sources, picks), ordered)
    && |ordered| == |picks|
    && r == Assemble(p, sources, picks, ordered)
  }

  ghost predicate IsMerge(p: Policy, sources: seq<Source>, reviewed: seq<KeyedChoice>, r: MergedUsage) {
    exists picks, ordered :: Merges(p, sources, reviewed, picks, ordered, r)
  }

  ghost predicate IsOutcome(p: Policy, input: seq<Source>, reviewed: seq<KeyedChoice>, out: UsageOutcome) {
    match out
    case UsageSelected(r) => ValidIds(input) && IsMerge(p, SortById(input), reviewed, r)
    case UsageConflict => !ValidIds(input) || forall r :: !IsMerge(p, SortById(input), reviewed, r)
  }

  // ---------------------------------------------------------------------- methods

  /** Terminal event identities, and terminal snapshot identities, must all differ. */
  method CheckTerminals(p: Policy, picks: Picks) returns (unique: bool)
    ensures unique <==> UniqueTerminals(p, picks)
  {
    var ids: set<Text>, snapshotIds: set<Text> := {}, {};
    var rest := picks.Keys;
    while rest != {}
      invariant rest <= picks.Keys
      invariant ids == set k | k in picks && k !in rest :: picks[k].record.eventId
      invariant snapshotIds ==
        set k | k in picks && k !in rest && TypeOf(picks[k]).SnapshotRecorded? :: SnapshotOf(p, picks[k])
      invariant forall a, b :: a in picks.Keys - rest && b in picks.Keys - rest && a != b ==>
        !SameTerminal(p, picks[a], picks[b])
    {
      var key :| key in rest;
      var pick := picks[key];
      if pick.record.eventId in ids || (TypeOf(pick).SnapshotRecorded? && SnapshotOf(p, pick) in snapshotIds) {
        ghost var other :| other in picks && other !in rest && SameTerminal(p, picks[other], pick);
        return false;
      }
      ids := ids + {pick.record.eventId};
      if TypeOf(pick).SnapshotRecorded? { snapshotIds := snapshotIds + {SnapshotOf(p, pick)}; }
      rest := rest - {key};
    }
    unique := true;
  }

  lemma {:induction false} IndexFinds(keys: seq<Key>, n: nat)
    requires Distinct(keys) && n < |keys|
    ensures IndexOf(keys, keys[n]) == n
  {
    if n > 0 { IndexFinds(keys[1..], n - 1); }
  }

  lemma {:induction false} IndexMisses(keys: seq<Key>, k: Key)
    ensures k !in keys <==> IndexOf(keys, k) == |keys|
    ensures k in keys ==> IndexOf(keys, k) < |keys| && keys[IndexOf(keys, k)] == k
  {
    if keys != [] {
      assert keys == [keys[0]] + keys[1..];
      IndexMisses(keys[1..], k);
    }
  }

  method IndexRecords(keys: seq<Key>) returns (indices: map<Key, nat>)
    requires Distinct(keys)
    ensures forall k :: k in indices <==> k in keys
    ensures forall k <- indices :: indices[k] == IndexOf(keys, k)
  {
    indices := map[];
    for n := 0 to |keys|
      invariant forall k :: k in indices <==> k in keys[..n]
      invariant forall k <- indices :: indices[k] == IndexOf(keys, k)
    {
      IndexFinds(keys, n);
      assert keys[..n + 1] == keys[..n] + [keys[n]];
      indices := indices[keys[n] := n];
    }
    assert keys[..|keys|] == keys;
  }

  method OccurrencesOfSource(p: Policy, source: Source, keys: seq<Key>, indices: map<Key, nat>, picks: Picks)
    returns (occurrences: seq<Occurrence>)
    requires KeysIn(p, source.value.events) <= picks.Keys && picks.Keys <= indices.Keys
    requires forall k <- indices :: indices[k] == IndexOf(keys, k)
    ensures occurrences == OccurrencesIn(p, source, |source.value.events|, keys, picks)
  {
    occurrences := [];
    for n := 0 to |source.value.events|
      invariant occurrences == OccurrencesIn(p, source, n, keys, picks)
    {
      var e := source.value.events[n];
      var key := KeyOf(p, e);
      EventKeyKnown(p, source.value.events, n);
      var target := picks[key].record;
      var disposition := if source.id == target.sourceId && e.ordinal == target.ordinal
        then SelectedOriginal else RetainedEvidence;
      occurrences := occurrences +
        [Occurrence(source.id, e.ordinal, e.event.envelope.eventId, indices[key], disposition)];
    }
  }

  method AllOccurrences(p: Policy, sources: seq<Source>, keys: seq<Key>, picks: Picks)
    returns (occurrences: seq<Occurrence>)
    requires AllKeys(p, sources) == picks.Keys && Distinct(keys) && forall k <- picks :: k in keys
    ensures occurrences == OccurrencesUpTo(p, sources, |sources|, keys, picks)
  {
    var indices := IndexRecords(keys);
    occurrences := [];
    for n := 0 to |sources|
      invariant occurrences == OccurrencesUpTo(p, sources, n, keys, picks)
    {
      SourceKeysKnown(p, sources, n);
      var own := OccurrencesOfSource(p, sources[n], keys, indices, picks);
      occurrences := occurrences + own;
    }
  }

  lemma MergeIsOverThesePicks(
    p: Policy, sources: seq<Source>, reviewed: seq<KeyedChoice>, picks: Picks, r: MergedUsage)
    returns (ordered: seq<Key>)
    requires ArePicks(p, sources, reviewed, picks) && IsMerge(p, sources, reviewed, r)
    ensures Merges(p, sources, reviewed, picks, ordered, r)
  {
    var others, order :| Merges(p, sources, reviewed, others, order, r);
    PicksUnique(p, sources, reviewed, picks, others);
    ordered := order;
  }

  /** A key's pick is an event of its own ledger, the last there with that key. */
  lemma PickOrigin(p: Policy, sources: seq<Source>, reviewed: seq<KeyedChoice>, picks: Picks, k: Key) returns (n: nat)
    requires ArePicks(p, sources, reviewed, picks) && k in picks
    ensures picks[k].source in sources
    ensures IsLastFor(p, picks[k].source.value.events, k, n) && picks[k].event == picks[k].source.value.events[n]
    ensures picks[k].record.key == k && picks[k].record.sourceId == picks[k].source.id
    ensures picks[k].record.ordinal == picks[k].event.ordinal
  {
    hide Copies, ChoicesFor, EventsFor, KeysIn, AllKeys;
    assert HasPick(p, sources, reviewed, k, picks[k]);
    var copies := Copies(p, sources, k);
    var i :| IsPick(p, k, copies, ChoicesFor(reviewed, k), i, picks[k]);
    CopiesOfKnownKeys(p, sources, k);
    assert copies[i] in copies;
    EventsForKnownKeys(p, picks[k].source.value.events, k);
    n := LastEventFor(p, picks[k].source.value.events, k);
  }

  /** Both usage types being kept, every picked key is listed, once. */
  lemma RecordKeysCover(p: Policy, sources: seq<Source>, reviewed: seq<KeyedChoice>, picks: Picks, ordered: seq<Key>)
    requires AllDecoded(sources) && ArePicks(p, sources, reviewed, picks)
    requires Distinct(ordered) && Elements(ordered) == picks.Keys
    ensures Distinct(RecordKeys(ordered, picks))
    ensures forall k :: k in RecordKeys(ordered, picks) <==> k in picks
  {
    hide OfType;
    OfTypeSelects(ordered, picks, SnapshotRecorded);
    OfTypeSelects(ordered, picks, PlanLinked);
    DistinctConcat(OfType(ordered, picks, SnapshotRecorded), OfType(ordered, picks, PlanLinked));
    forall k <- picks ensures k in RecordKeys(ordered, picks) {
      var n := PickOrigin(p, sources, reviewed, picks, k);
      assert Decoded(picks[k].source.value);
      assert k in Elements(ordered);
    }
    forall k <- RecordKeys(ordered, picks) ensures k in picks {}
  }

  lemma SortedSourcesDecoded(input: seq<Source>)
    requires ValidIds(input) && AllDecoded(input)
    ensures AllDecoded(SortById(input))
  {
    SortKeepsIds(input);
  }

  /** The whole merge. It succeeds exactly when some merge exists, and returns that one. */
  method SelectLegacyUsage(p: Policy, input: seq<Source>, reviewed: seq<KeyedChoice>) returns (out: UsageOutcome)
    requires AllDecoded(input)
    ensures IsOutcome(p, input, reviewed, out)
  {
    if !ValidIds(input) { return UsageConflict; }
    var sources := SortById(input);
    SortedSourcesDecoded(input);
    var byKey := GroupByKey(p, sources);
    var selected := PickAll(p, sources, byKey, reviewed);
    if selected.None? { return UsageConflict; }
    var known := forall c :: c in reviewed ==> c.key in byKey;
    out := Order(p, sources, reviewed, selected.value, known);
  }

  /** From the picks on: terminal identities, precedence, replay order, assembly. */
  method Order(p: Policy, sources: seq<Source>, reviewed: seq<KeyedChoice>, picks: Picks, known: bool)
    returns (out: UsageOutcome)
    requires AllDecoded(sources) && ArePicks(p, sources, reviewed, picks)
    requires known <==> ReviewedKnown(p, sources, reviewed)
    ensures match out
      case UsageSelected(r) => IsMerge(p, sources, reviewed, r)
      case UsageConflict => forall r :: !IsMerge(p, sources, reviewed, r)
  {
    hide UniqueTerminals;
    var unique := CheckTerminals(p, picks);
    if !known || !unique {
      NoMergeUnlessUnique(p, sources, reviewed, picks);
      return UsageConflict;
    }
    out := Replay(p, sources, reviewed, picks);
  }

  lemma PickedKeys(p: Policy, sources: seq<Source>, reviewed: seq<KeyedChoice>, picks: Picks)
    requires ArePicks(p, sources, reviewed, picks)
    ensures AllKeys(p, sources) == picks.Keys == PrecedenceGraph(p, sources, picks).Keys
  {
  }

  method Replay(p: Policy, sources: seq<Source>, reviewed: seq<KeyedChoice>, picks: Picks) returns (out: UsageOutcome)
    requires AllDecoded(sources) && ArePicks(p, sources, reviewed, picks)
    requires ReviewedKnown(p, sources, reviewed) && UniqueTerminals(p, picks)
    ensures match out
      case UsageSelected(r) => IsMerge(p, sources, reviewed, r)
      case UsageConflict => forall r :: !IsMerge(p, sources, reviewed, r)
  {
    hide UniqueTerminals, Topological, Acyclic, Exhausted, RecordKeys, Elements, Assemble, ReviewedKnown, AllDecoded,
      ArePicks, AllKeys, PrecedenceGraph, Closed, Distinct;
    PickedKeys(p, sources, reviewed, picks);
    var edges, degrees := BuildGraph(p, sources, picks);
    var ordered := KahnOrder(edges, degrees);
    if |ordered| != |picks| {
      NoMergeUnlessFull(p, sources, reviewed, picks, ordered);
      return UsageConflict;
    }
    FullOrderCovers(edges, ordered, picks);
    RecordKeysCover(p, sources, reviewed, picks, ordered);
    var merged := AssembleMerge(p, sources, picks, ordered);
    MergeWitness(p, sources, reviewed, picks, ordered, merged);
    out := UsageSelected(merged);
  }

  lemma MergeWitness(
    p: Policy, sources: seq<Source>, reviewed: seq<KeyedChoice>, picks: Picks, ordered: seq<Key>, r: MergedUsage)
    requires Merges(p, sources, reviewed, picks, ordered, r)
    ensures IsMerge(p, sources, reviewed, r)
  {
  }

  lemma NoMergeUnlessUnique(p: Policy, sources: seq<Source>, reviewed: seq<KeyedChoice>, picks: Picks)
    requires ArePicks(p, sources, reviewed, picks)
    requires !ReviewedKnown(p, sources, reviewed) || !UniqueTerminals(p, picks)
    ensures forall r :: !IsMerge(p, sources, reviewed, r)
  {
    forall r ensures !IsMerge(p, sources, reviewed, r) {
      if IsMerge(p, sources, reviewed, r) { var _ := MergeIsOverThesePicks(p, sources, reviewed, picks, r); }
    }
  }

  lemma NoMergeUnlessFull(
    p: Policy, sources: seq<Source>, reviewed: seq<KeyedChoice>, picks: Picks, ordered: seq<Key>)
    requires ArePicks(p, sources, reviewed, picks)
    requires Exhausted(PrecedenceGraph(p, sources, picks), ordered) && |ordered| != |picks|
    ensures forall r :: !IsMerge(p, sources, reviewed, r)
  {
    forall r ensures !IsMerge(p, sources, reviewed, r) {
      if IsMerge(p, sources, reviewed, r) {
        var other := MergeIsOverThesePicks(p, sources, reviewed, picks, r);
        ExhaustedUnique(PrecedenceGraph(p, sources, picks), ordered, other);
      }
    }
  }

  lemma FullOrderCovers(g: Graph, ordered: seq<Key>, picks: Picks)
    requires g.Keys == picks.Keys && Closed(g) && Exhausted(g, ordered) && |ordered| == |picks|
    ensures Topological(g, ordered) && Acyclic(g)
    ensures Distinct(ordered) && Elements(ordered) == picks.Keys
  {
    assert |g| == |g.Keys| == |picks.Keys| == |picks|;
    FullExactlyWhenAcyclic(g, ordered);
  }

  method AssembleMerge(p: Policy, sources: seq<Source>, picks: Picks, ordered: seq<Key>) returns (r: MergedUsage)
    requires AllKeys(p, sources) == picks.Keys
    requires Distinct(RecordKeys(ordered, picks)) && forall k <- picks :: k in RecordKeys(ordered, picks)
    ensures r == Assemble(p, sources, picks, ordered)
  {
    var snapshots, links := OfType(ordered, picks, SnapshotRecorded), OfType(ordered, picks, PlanLinked);
    var keys := snapshots + links;
    RecordKeysPicked(ordered, picks);
    var occurrences := AllOccurrences(p, sources, keys, picks);
    r := MergedUsage(sources, Records(keys, picks), occurrences, |snapshots|, |links|, |occurrences| - |keys|);
  }
}
