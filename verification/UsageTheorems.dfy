/** What the usage merge promises, for every set of retained ledgers. */
module UsageTheorems {
  import opened Sequences
  import opened CodeUnits
  import opened PrecedenceOrder
  import opened Representation
  import opened UsageHistory
  import opened UsageSelection

  // ------------------------------------------------------- when a merge exists at all

  lemma GraphClosed(p: Policy, sources: seq<Source>, picks: Picks)
    ensures Closed(PrecedenceGraph(p, sources, picks))
  {
  }

  /** Every key has a pick, and nothing refuses them: identities, or a cycle of precedence. */
  ghost predicate Mergeable(p: Policy, sources: seq<Source>, reviewed: seq<KeyedChoice>, picks: Picks) {
    && ArePicks(p, sources, reviewed, picks)
    && ReviewedKnown(p, sources, reviewed)
    && UniqueTerminals(p, picks)
    && Acyclic(PrecedenceGraph(p, sources, picks))
  }

  ghost predicate CanMerge(p: Policy, sources: seq<Source>, reviewed: seq<KeyedChoice>) {
    exists picks :: Mergeable(p, sources, reviewed, picks)
  }

  lemma MergedIsMergeable(
    p: Policy, sources: seq<Source>, reviewed: seq<KeyedChoice>, picks: Picks, ordered: seq<Key>, r: MergedUsage)
    requires Merges(p, sources, reviewed, picks, ordered, r)
    ensures Mergeable(p, sources, reviewed, picks)
  {
    GraphClosed(p, sources, picks);
    FullOrderCovers(PrecedenceGraph(p, sources, picks), ordered, picks);
  }

  lemma MergeableIsMerged(p: Policy, sources: seq<Source>, reviewed: seq<KeyedChoice>, picks: Picks)
    returns (r: MergedUsage)
    requires Mergeable(p, sources, reviewed, picks)
    ensures IsMerge(p, sources, reviewed, r)
  {
    var g := PrecedenceGraph(p, sources, picks);
    GraphClosed(p, sources, picks);
    var ordered := GreedyRunExists(g, []);
    AcyclicIsFull(g, ordered, picks);
    r := Assemble(p, sources, picks, ordered);
    MergeWitness(p, sources, reviewed, picks, ordered, r);
  }

  lemma AcyclicIsFull(g: Graph, ordered: seq<Key>, picks: Picks)
    requires Closed(g) && Exhausted(g, ordered) && Acyclic(g) && g.Keys == picks.Keys
    ensures |ordered| == |picks|
  {
    assert |g| == |g.Keys| == |picks.Keys| == |picks|;
    FullExactlyWhenAcyclic(g, ordered);
  }

  /** The merge succeeds exactly when the ledgers are mergeable. */
  lemma SelectedExactlyWhen(p: Policy, input: seq<Source>, reviewed: seq<KeyedChoice>, out: UsageOutcome)
    requires IsOutcome(p, input, reviewed, out)
    ensures out.UsageSelected? <==> ValidIds(input) && CanMerge(p, SortById(input), reviewed)
  {
    match out
    case UsageSelected(r) => MergeHasPicks(p, SortById(input), reviewed, r);
    case UsageConflict =>
      if ValidIds(input) { NoMergeNoPicks(p, SortById(input), reviewed); }
  }

  lemma NoMergeNoPicks(p: Policy, sources: seq<Source>, reviewed: seq<KeyedChoice>)
    requires forall r :: !IsMerge(p, sources, reviewed, r)
    ensures !CanMerge(p, sources, reviewed)
  {
    forall picks ensures !Mergeable(p, sources, reviewed, picks) {
      if Mergeable(p, sources, reviewed, picks) { var r := MergeableIsMerged(p, sources, reviewed, picks); }
    }
  }

  lemma MergeHasPicks(p: Policy, sources: seq<Source>, reviewed: seq<KeyedChoice>, r: MergedUsage)
    requires IsMerge(p, sources, reviewed, r)
    ensures CanMerge(p, sources, reviewed)
  {
    var picks, ordered :| Merges(p, sources, reviewed, picks, ordered, r);
    MergedIsMergeable(p, sources, reviewed, picks, ordered, r);
  }

  // -------------------------------------------------------------- order independence

  lemma MergeUnique(p: Policy, sources: seq<Source>, reviewed: seq<KeyedChoice>, a: MergedUsage, b: MergedUsage)
    requires IsMerge(p, sources, reviewed, a) && IsMerge(p, sources, reviewed, b)
    ensures a == b
  {
    var picks, ordered :| Merges(p, sources, reviewed, picks, ordered, a);
    var other := MergeIsOverThesePicks(p, sources, reviewed, picks, b);
    ExhaustedUnique(PrecedenceGraph(p, sources, picks), ordered, other);
  }

  /** Neither the order of the ledgers nor any map's insertion order shows in the outcome. */
  lemma MergeForgetsOrder(
    p: Policy, a: seq<Source>, b: seq<Source>, reviewed: seq<KeyedChoice>, x: UsageOutcome, y: UsageOutcome)
    requires multiset(a) == multiset(b)
    requires IsOutcome(p, a, reviewed, x) && IsOutcome(p, b, reviewed, y)
    ensures x == y
  {
    SortForgetsOrder(a, b);
    ValidIdsForgetsOrder(a, b);
    if x.UsageSelected? && y.UsageSelected? {
      MergeUnique(p, SortById(a), reviewed, x.selection, y.selection);
    }
  }

  // -------------------------------------------------------------------- replay order

  /**
   * The replay order behind the records: a topological order of the precedence graph
   * over every retained key, and lexicographically the least one.
   */
  lemma ReplayOrderIsLeast(
    p: Policy, sources: seq<Source>, reviewed: seq<KeyedChoice>, picks: Picks, ordered: seq<Key>, r: MergedUsage)
    requires Merges(p, sources, reviewed, picks, ordered, r)
    ensures PrecedenceGraph(p, sources, picks).Keys == AllKeys(p, sources)
    ensures Acyclic(PrecedenceGraph(p, sources, picks))
    ensures IsLeastOrder(PrecedenceGraph(p, sources, picks), ordered)
  {
    var g := PrecedenceGraph(p, sources, picks);
    GraphClosed(p, sources, picks);
    FullOrderCovers(g, ordered, picks);
    forall other | Topological(g, other) ensures LexLeq(ordered, other) {
      GreedyIsLexLeast(g, ordered, other);
    }
  }

  ghost predicate IsLeastOrder(g: Graph, ordered: seq<Key>) {
    Topological(g, ordered) && forall other :: Topological(g, other) ==> LexLeq(ordered, other)
  }

  /** The records list every retained key exactly once, each with its own pick. */
  lemma RecordsFollowOrder(
    p: Policy, sources: seq<Source>, reviewed: seq<KeyedChoice>, picks: Picks, ordered: seq<Key>)
    requires AllDecoded(sources) && ArePicks(p, sources, reviewed, picks)
    requires Topological(PrecedenceGraph(p, sources, picks), ordered)
    ensures forall k :: k in RecordKeys(ordered, picks) <==> k in picks
    ensures var records := Assemble(p, sources, picks, ordered).records;
      && |records| == |RecordKeys(ordered, picks)| == |picks|
      && Distinct(RecordKeys(ordered, picks))
      && forall n :: 0 <= n < |records| ==> RecordAt(records, RecordKeys(ordered, picks), picks, n)
  {
    hide OfType, RecordAt, PairsUpTo;
    RecordKeysCover(p, sources, reviewed, picks, ordered);
    RecordKeysPicked(ordered, picks);
    var keys := RecordKeys(ordered, picks);
    AsManyRecords(keys, picks);
    PicksHoldTheirKeys(p, sources, reviewed, picks);
    RecordsHoldTheirKeys(keys, picks);
  }

  lemma PicksHoldTheirKeys(p: Policy, sources: seq<Source>, reviewed: seq<KeyedChoice>, picks: Picks)
    requires ArePicks(p, sources, reviewed, picks)
    ensures forall k <- picks :: picks[k].record.key == k
  {
    forall k <- picks ensures picks[k].record.key == k {
      var _ := PickOrigin(p, sources, reviewed, picks, k);
    }
  }

  lemma RecordsHoldTheirKeys(keys: seq<Key>, picks: Picks)
    requires forall k <- keys :: k in picks && picks[k].record.key == k
    ensures forall n :: 0 <= n < |keys| ==> RecordAt(Records(keys, picks), keys, picks, n)
  {
    forall n | 0 <= n < |keys| ensures RecordAt(Records(keys, picks), keys, picks, n) {
      assert keys[n] in keys;
    }
  }

  lemma AsManyRecords(keys: seq<Key>, picks: Picks)
    requires Distinct(keys) && forall k :: k in keys <==> k in picks
    ensures |keys| == |picks|
  {
    DistinctCardinality(keys);
    assert Elements(keys) == picks.Keys;
    assert |picks.Keys| == |picks|;
  }

  ghost predicate RecordAt(records: seq<Record>, keys: seq<Key>, picks: Picks, n: int) {
    && 0 <= n < |records| && n < |keys| && keys[n] in picks
    && records[n] == picks[keys[n]].record && records[n].key == keys[n]
  }

  ghost predicate Embeds(at: seq<nat>, a: seq<Key>, b: seq<Key>) {
    && |at| == |a|
    && (forall i, j :: 0 <= i < j < |at| ==> at[i] < at[j])
    && (forall i :: 0 <= i < |at| ==> at[i] < |b| && b[at[i]] == a[i])
  }

  ghost predicate IsSubsequence(a: seq<Key>, b: seq<Key>) {
    exists at :: Embeds(at, a, b)
  }

  /** Selecting one type keeps the order of what it selects. */
  lemma {:induction false} OfTypeEmbeds(order: seq<Key>, picks: Picks, t: RecordType) returns (at: seq<nat>)
    ensures Embeds(at, OfType(order, picks, t), order)
  {
    at := [];
    if order != [] {
      var rest := OfTypeEmbeds(order[1..], picks, t);
      var tail := OfType(order[1..], picks, t);
      assert order == [order[0]] + order[1..];
      EmbedsAfter(rest, tail, order[1..], order[0]);
      if order[0] in picks && TypeOf(picks[order[0]]) == t {
        at := [0] + Later(rest);
      } else {
        at := Later(rest);
        assert OfType(order, picks, t) == [] + tail == tail;
      }
    }
  }

  function Later(at: seq<nat>): seq<nat> {
    seq(|at|, i requires 0 <= i < |at| => at[i] + 1)
  }

  lemma EmbedsAfter(at: seq<nat>, a: seq<Key>, b: seq<Key>, x: Key)
    requires Embeds(at, a, b)
    ensures Embeds(Later(at), a, [x] + b)
    ensures Embeds([0] + Later(at), [x] + a, [x] + b)
  {
    forall i | 0 <= i < |a| ensures ([x] + b)[at[i] + 1] == a[i] {
      assert b[at[i]] == a[i];
    }
    FirstEmbeds(Later(at), a, [x] + b, x);
  }

  lemma FirstEmbeds(at: seq<nat>, a: seq<Key>, b: seq<Key>, x: Key)
    requires Embeds(at, a, b) && b != [] && b[0] == x && forall i :: 0 <= i < |at| ==> at[i] > 0
    ensures Embeds([0] + at, [x] + a, b)
  {
    var first := [0] + at;
    forall i | 0 <= i < |first| ensures first[i] < |b| && b[first[i]] == ([x] + a)[i] {
      if i > 0 { assert first[i] == at[i - 1] && ([x] + a)[i] == a[i - 1]; }
    }
  }

  lemma OfTypeKeepsOrder(order: seq<Key>, picks: Picks, t: RecordType, i: nat, j: nat)
    requires Distinct(order) && i < j < |order|
    requires order[i] in OfType(order, picks, t) && order[j] in OfType(order, picks, t)
    ensures IndexOf(OfType(order, picks, t), order[i]) < IndexOf(OfType(order, picks, t), order[j])
  {
    hide OfType;
    var kept := OfType(order, picks, t);
    var at := OfTypeEmbeds(order, picks, t);
    IndexMisses(kept, order[i]);
    IndexMisses(kept, order[j]);
    var m, n := IndexOf(kept, order[i]), IndexOf(kept, order[j]);
    assert order[at[m]] == order[i] && order[at[n]] == order[j];
  }

  /** Neighbours in order, everyone in order. */
  lemma {:induction false} ChainIncreases(phase: seq<Key>, b: seq<Key>, i: nat, j: nat)
    requires i < j < |phase|
    requires forall n :: 0 < n < |phase| ==> Earlier(b, phase, n)
    ensures IndexOf(b, phase[i]) < IndexOf(b, phase[j])
  {
    assert Earlier(b, phase, j);
    if i + 1 < j { ChainIncreases(phase, b, i, j - 1); }
  }

  ghost predicate Earlier(b: seq<Key>, phase: seq<Key>, n: int)
    requires 0 < n < |phase|
  {
    IndexOf(b, phase[n - 1]) < IndexOf(b, phase[n])
  }

  lemma ChainEmbeds(phase: seq<Key>, b: seq<Key>)
    requires forall k <- phase :: k in b
    requires forall n :: 0 < n < |phase| ==> Earlier(b, phase, n)
    ensures IsSubsequence(phase, b)
  {
    var at: seq<nat> := seq(|phase|, i requires 0 <= i < |phase| => IndexOf(b, phase[i]));
    forall i, j | 0 <= i < j < |at| ensures at[i] < at[j] { ChainIncreases(phase, b, i, j); }
    forall i | 0 <= i < |at| ensures at[i] < |b| && b[at[i]] == phase[i] {
      assert phase[i] in phase;
      IndexMisses(b, phase[i]);
    }
    assert Embeds(at, phase, b);
  }

  lemma {:induction false} PairImposed(p: Policy, sources: seq<Source>, picks: Picks, m: nat, n: nat, pair: (Key, Key))
    requires m < n <= |sources| && pair in SourcePairs(p, sources, picks, sources[m])
    ensures pair in PairsUpTo(p, sources, picks, n)
  {
    hide SourcePairs;
    if m < n - 1 { PairImposed(p, sources, picks, m, n - 1, pair); }
  }

  /** A pair imposed by a ledger keeps its order among the emitted keys of that type. */
  lemma ImposedPairOrdered(
    p: Policy, sources: seq<Source>, picks: Picks, ordered: seq<Key>, m: nat, t: RecordType, n: nat)
    requires AllKeys(p, sources) == picks.Keys
    requires Topological(PrecedenceGraph(p, sources, picks), ordered)
    requires m < |sources| && !Superseded(p, sources, sources[m])
    requires t == SnapshotRecorded || t == PlanLinked
    requires 0 < n < |Phase(p, sources[m], picks, t)|
    ensures Earlier(OfType(ordered, picks, t), Phase(p, sources[m], picks, t), n)
  {
    var phase := Phase(p, sources[m], picks, t);
    var from, to := phase[n - 1], phase[n];
    NeighbourAt(phase, n);
    PairImposed(p, sources, picks, m, |sources|, (from, to));
    assert from in phase && to in phase;
    OfTypeSelects(LastOrder(p, sources[m].value.events), picks, t);
    var g := PrecedenceGraph(p, sources, picks);
    assert to in g[from];
    assert from in Elements(ordered) && to in Elements(ordered);
    var i :| 0 <= i < |ordered| && ordered[i] == from;
    var j :| 0 <= j < |ordered| && ordered[j] == to;
    OfTypeSelects(ordered, picks, t);
    OfTypeKeepsOrder(ordered, picks, t, i, j);
  }

  lemma PhaseEmbedsInType(p: Policy, sources: seq<Source>, picks: Picks, ordered: seq<Key>, m: nat, t: RecordType)
    requires AllKeys(p, sources) == picks.Keys
    requires Topological(PrecedenceGraph(p, sources, picks), ordered)
    requires m < |sources| && !Superseded(p, sources, sources[m])
    requires t == SnapshotRecorded || t == PlanLinked
    ensures IsSubsequence(Phase(p, sources[m], picks, t), OfType(ordered, picks, t))
  {
    var phase := Phase(p, sources[m], picks, t);
    OfTypeSelects(LastOrder(p, sources[m].value.events), picks, t);
    OfTypeSelects(ordered, picks, t);
    forall k <- phase ensures k in OfType(ordered, picks, t) { assert k in Elements(ordered); }
    forall n | 0 < n < |phase| ensures Earlier(OfType(ordered, picks, t), phase, n) {
      ImposedPairOrdered(p, sources, picks, ordered, m, t, n);
    }
    ChainEmbeds(phase, OfType(ordered, picks, t));
  }

  lemma SubsequenceOfPart(a: seq<Key>, before: seq<Key>, b: seq<Key>, after: seq<Key>)
    requires IsSubsequence(a, b)
    ensures IsSubsequence(a, before + b + after)
  {
    var at :| Embeds(at, a, b);
    var moved: seq<nat> := seq(|at|, i requires 0 <= i < |at| => |before| + at[i]);
    assert Embeds(moved, a, before + b + after);
  }

  /** Every ledger that is not superseded is replayed in its own order, type by type. */
  lemma EveryLedgerInItsOrder(
    p: Policy, sources: seq<Source>, picks: Picks, ordered: seq<Key>, source: Source, t: RecordType)
    requires AllKeys(p, sources) == picks.Keys
    requires Topological(PrecedenceGraph(p, sources, picks), ordered)
    requires source in sources && !Superseded(p, sources, source)
    requires t == SnapshotRecorded || t == PlanLinked
    ensures IsSubsequence(Phase(p, source, picks, t), RecordKeys(ordered, picks))
  {
    var m :| 0 <= m < |sources| && sources[m] == source;
    PhaseEmbedsInType(p, sources, picks, ordered, m, t);
    TypeEmbedsInRecords(Phase(p, source, picks, t), ordered, picks, t);
  }

  lemma TypeEmbedsInRecords(phase: seq<Key>, ordered: seq<Key>, picks: Picks, t: RecordType)
    requires IsSubsequence(phase, OfType(ordered, picks, t))
    requires t == SnapshotRecorded || t == PlanLinked
    ensures IsSubsequence(phase, RecordKeys(ordered, picks))
  {
    var snapshots, links := OfType(ordered, picks, SnapshotRecorded), OfType(ordered, picks, PlanLinked);
    assert [] + snapshots + links == snapshots + links == snapshots + links + [];
    if t == SnapshotRecorded {
      SubsequenceOfPart(phase, [], snapshots, links);
    } else {
      SubsequenceOfPart(phase, snapshots, links, []);
    }
  }

  /** Following supersession upwards ends at a ledger that still holds the key. */
  lemma {:induction false} KeyInUnsupersededLedger(p: Policy, sources: seq<Source>, source: Source, k: Key, bound: nat)
    returns (top: Source)
    requires source in sources && k in KeysIn(p, source.value.events)
    requires forall s <- sources :: |s.value.events| <= bound
    ensures top in sources && !Superseded(p, sources, top) && k in KeysIn(p, top.value.events)
    decreases bound - |source.value.events|
  {
    if Superseded(p, sources, source) {
      var other :| other in sources && |source.value.events| < |other.value.events|
        && Agrees(p.redact, Logs(source.value.events), Logs(other.value.events));
      AgreementKeepsKeys(p, source.value.events, other.value.events, k);
      top := KeyInUnsupersededLedger(p, sources, other, k, bound);
    } else {
      top := source;
    }
  }

  lemma AgreementKeepsKeys(p: Policy, a: seq<UsageEvent>, b: seq<UsageEvent>, k: Key)
    requires Agrees(p.redact, Logs(a), Logs(b)) && k in KeysIn(p, a)
    ensures k in KeysIn(p, b)
  {
    var n := EventWithKey(p, a, k);
    assert Compare(p.redact, Logs(a)[n], Logs(b)[n]) != Conflict;
    EventKeyKnown(p, b, n);
  }

  lemma {:induction false} LengthBound(sources: seq<Source>) returns (bound: nat)
    ensures forall s <- sources :: |s.value.events| <= bound
  {
    bound := 0;
    if sources != [] {
      bound := LengthBound(sources[1..]);
      assert sources == [sources[0]] + sources[1..];
      if |sources[0].value.events| > bound { bound := |sources[0].value.events|; }
    }
  }

  /** Dropping superseded ledgers from the precedence loses no key. */
  lemma EveryKeyOrdered(p: Policy, sources: seq<Source>, k: Key)
    requires k in AllKeys(p, sources)
    ensures exists top <- sources :: !Superseded(p, sources, top) && k in KeysIn(p, top.value.events)
  {
    var n := SourceWithKey(p, sources, k);
    var bound := LengthBound(sources);
    var top := KeyInUnsupersededLedger(p, sources, sources[n], k, bound);
  }

  // ------------------------------------------------------------- nothing is omitted

  /** A copy stands in for another when it is no shorter and agrees event by event. */
  ghost predicate Covers(p: Policy, reviewed: bool, target: seq<UsageEvent>, copy: seq<UsageEvent>) {
    && |copy| <= |target|
    && forall n :: 0 <= n < |copy| ==> StandsFor(p.redact, reviewed, target[n].event, copy[n].event)
  }

  /** A pick ends the given copy, which covers every copy there is. */
  ghost predicate EndsCovering(p: Policy, copies: seq<Copy>, target: Copy, r: Pick) {
    && target.source == r.source && target.events != []
    && r.event == target.events[|target.events| - 1]
    && forall copy <- copies :: Covers(p, r.record.reviewed, target.events, copy.events)
  }

  /** A key's record ends a copy that covers the copy of every ledger: no repair is dropped. */
  lemma NoRepairOmitted(
    p: Policy, sources: seq<Source>, reviewed: seq<KeyedChoice>, picks: Picks, k: Key)
    requires ArePicks(p, sources, reviewed, picks) && k in picks
    ensures exists target <- Copies(p, sources, k) :: EndsCovering(p, Copies(p, sources, k), target, picks[k])
  {
    hide EndsCovering, Copies, ChoicesFor;
    assert HasPick(p, sources, reviewed, k, picks[k]);
    var copies, choices := Copies(p, sources, k), ChoicesFor(reviewed, k);
    var i :| IsPick(p, k, copies, choices, i, picks[k]);
    PickCovers(p, k, copies, choices, i, picks[k]);
    assert copies[i] in copies;
  }

  lemma PickCovers(p: Policy, k: Key, copies: seq<Copy>, choices: seq<Choice>, i: nat, r: Pick)
    requires IsPick(p, k, copies, choices, i, r)
    ensures i < |copies| && EndsCovering(p, copies, copies[i], r)
  {
    hide Covers;
    forall copy <- copies ensures Covers(p, choices != [], copies[i].events, copy.events) {
      var j :| 0 <= j < |copies| && copies[j] == copy;
      AcceptedCovers(p, copies, choices, i, j);
    }
  }

  lemma AcceptedCovers(p: Policy, copies: seq<Copy>, choices: seq<Choice>, i: nat, j: nat)
    requires KeyAccepts(p, copies, choices, i) && i < |copies| && j < |copies|
    ensures Covers(p, choices != [], copies[i].events, copies[j].events)
  {
    var logs := CopyLogs(copies);
    var given, kept := logs[j].value.events, logs[i].value.events;
    assert Agrees(p.redact, given, kept);
    forall n | 0 <= n < |copies[j].events|
      ensures StandsFor(p.redact, choices != [], copies[i].events[n].event, copies[j].events[n].event)
    {
      AgreementStandsFor(p.redact, given, kept, choices != [], n);
    }
  }
}
