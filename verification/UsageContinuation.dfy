/**
 * Ledgers that a longer one repeats and carries on. They impose no order of their own: the merge
 * goes through with them exactly as without, in the same order.
 */
module UsageContinuation {
  import opened Options
  import opened Sequences
  import opened CodeUnits
  import opened PrecedenceOrder
  import opened Representation
  import opened UsageHistory
  import opened UsageSelection
  import opened UsageTheorems
  import opened UsageAccount
  import opened UsageReplay
  import opened UsageOutcomes

  // ------------------------------------------------------------------ which ledgers impose an order

  /** Of every longer ledger, some event conflicts with this one's at its place. */
  ghost predicate StandsAlone(p: Policy, sources: seq<Source>, source: Source) {
    forall other <- sources :: |source.value.events| < |other.value.events| ==>
      exists n :: 0 <= n < |source.value.events|
        && Compare(p.redact, source.value.events[n].event, other.value.events[n].event) == Conflict
  }

  lemma AloneExactlyWhen(p: Policy, sources: seq<Source>, source: Source)
    ensures Superseded(p, sources, source) <==> !StandsAlone(p, sources, source)
  {
    forall other <- sources | |source.value.events| < |other.value.events|
      ensures Agrees(p.redact, Logs(source.value.events), Logs(other.value.events)) <==>
        !exists n :: 0 <= n < |source.value.events|
          && Compare(p.redact, source.value.events[n].event, other.value.events[n].event) == Conflict
    {
      var a, b := Logs(source.value.events), Logs(other.value.events);
      assert forall n :: 0 <= n < |a| ==> a[n] == source.value.events[n].event && b[n] == other.value.events[n].event;
    }
  }

  ghost predicate Imposes(p: Policy, picks: Picks, source: Source, a: Key, b: Key) {
    || (a, b) in Neighbours(Phase(p, source, picks, SnapshotRecorded))
    || (a, b) in Neighbours(Phase(p, source, picks, PlanLinked))
  }

  lemma PairExactlyWhen(p: Policy, sources: seq<Source>, picks: Picks, a: Key, b: Key)
    ensures (a, b) in PairsUpTo(p, sources, picks, |sources|) <==>
      exists source <- sources :: !Superseded(p, sources, source) && Imposes(p, picks, source, a, b)
  {
    hide Superseded, Neighbours, Phase;
    if (a, b) in PairsUpTo(p, sources, picks, |sources|) {
      var m := PairFrom(p, sources, picks, |sources|, (a, b));
      assert sources[m] in sources;
    }
    if source :| source in sources && !Superseded(p, sources, source) && Imposes(p, picks, source, a, b) {
      var m :| 0 <= m < |sources| && sources[m] == source;
      PairImposed(p, sources, picks, m, |sources|, (a, b));
    }
  }

  /**
   * A key is replayed after another exactly when some ledger has it directly after the other, within
   * their type, and every longer ledger conflicts with that ledger somewhere.
   */
  lemma EdgeExactlyWhen(p: Policy, sources: seq<Source>, picks: Picks, a: Key, b: Key)
    requires a in picks && b in picks
    ensures b in PrecedenceGraph(p, sources, picks)[a] <==>
      exists source <- sources :: StandsAlone(p, sources, source) && Imposes(p, picks, source, a, b)
  {
    hide Superseded, StandsAlone, PairsUpTo, Imposes;
    PairExactlyWhen(p, sources, picks, a, b);
    forall source <- sources ensures Superseded(p, sources, source) <==> !StandsAlone(p, sources, source) {
      AloneExactlyWhen(p, sources, source);
    }
  }

  // --------------------------------------------------------------------- a ledger carried on by another

  /** The same ledgers and one more, which starts one of them and stops short of its end. */
  ghost predicate Extended(sources: seq<Source>, more: seq<Source>, extra: Source, host: Source) {
    && (forall s :: s in more <==> s in sources || s == extra)
    && host in sources && extra.value.events < host.value.events
  }

  lemma PrefixAgrees(redact: Redactor, a: seq<LogEvent>, b: seq<LogEvent>, c: seq<LogEvent>)
    requires Agrees(redact, a, b) && b <= c
    ensures Agrees(redact, a, c)
  {
    forall n | 0 <= n < |a| ensures Compare(redact, a[n], c[n]) != Conflict {
      assert c[n] == b[n];
      assert Compare(redact, a[n], b[n]) != Conflict;
    }
  }

  lemma LogsOfPrefix(a: seq<UsageEvent>, b: seq<UsageEvent>)
    requires a <= b
    ensures Logs(a) <= Logs(b)
  {
  }

  lemma ExtraIsSuperseded(p: Policy, sources: seq<Source>, more: seq<Source>, extra: Source, host: Source)
    requires Extended(sources, more, extra, host)
    ensures Superseded(p, more, extra)
  {
    LogsOfPrefix(extra.value.events, host.value.events);
    assert forall n :: 0 <= n < |extra.value.events| ==> extra.value.events[n] == host.value.events[n];
    assert host in more;
  }

  lemma SupersededAlike(p: Policy, sources: seq<Source>, more: seq<Source>, extra: Source, host: Source, s: Source)
    requires Extended(sources, more, extra, host)
    ensures Superseded(p, more, s) <==> Superseded(p, sources, s)
  {
    hide Agrees, Logs;
    if Superseded(p, more, s) {
      var other :| other in more && |s.value.events| < |other.value.events|
        && Agrees(p.redact, Logs(s.value.events), Logs(other.value.events));
      if other == extra {
        LogsOfPrefix(extra.value.events, host.value.events);
        PrefixAgrees(p.redact, Logs(s.value.events), Logs(extra.value.events), Logs(host.value.events));
      }
    }
  }

  /** Picks of the same keys that end the same events, told from other copies or not. */
  ghost predicate SameEnds(picks: Picks, others: Picks) {
    picks.Keys == others.Keys && forall k <- picks :: k in others && picks[k].event.event == others[k].event.event
  }

  lemma {:induction false} SameOfType(order: seq<Key>, picks: Picks, others: Picks, t: RecordType)
    requires SameEnds(picks, others)
    ensures OfType(order, picks, t) == OfType(order, others, t)
  {
    if order != [] { SameOfType(order[1..], picks, others, t); }
  }

  lemma SameImposed(p: Policy, picks: Picks, others: Picks, source: Source, a: Key, b: Key)
    requires SameEnds(picks, others)
    ensures Imposes(p, picks, source, a, b) == Imposes(p, others, source, a, b)
  {
    SameOfType(LastOrder(p, source.value.events), picks, others, SnapshotRecorded);
    SameOfType(LastOrder(p, source.value.events), picks, others, PlanLinked);
  }

  lemma SamePair(
    p: Policy, sources: seq<Source>, more: seq<Source>, extra: Source, host: Source, picks: Picks, others: Picks,
    a: Key, b: Key)
    requires Extended(sources, more, extra, host) && SameEnds(picks, others)
    ensures (a, b) in PairsUpTo(p, sources, picks, |sources|) <==> (a, b) in PairsUpTo(p, more, others, |more|)
  {
    hide Superseded, Imposes, SameEnds, PairsUpTo;
    PairExactlyWhen(p, sources, picks, a, b);
    PairExactlyWhen(p, more, others, a, b);
    ExtraIsSuperseded(p, sources, more, extra, host);
    forall s <- sources ensures Superseded(p, more, s) <==> Superseded(p, sources, s) {
      SupersededAlike(p, sources, more, extra, host, s);
    }
    forall s <- sources ensures Imposes(p, picks, s, a, b) == Imposes(p, others, s, a, b) {
      SameImposed(p, picks, others, s, a, b);
    }
  }

  lemma SamePairs(
    p: Policy, sources: seq<Source>, more: seq<Source>, extra: Source, host: Source, picks: Picks, others: Picks)
    requires Extended(sources, more, extra, host) && SameEnds(picks, others)
    ensures PairsUpTo(p, sources, picks, |sources|) == PairsUpTo(p, more, others, |more|)
  {
    hide Extended, SameEnds, PairsUpTo;
    forall pair: (Key, Key)
      ensures pair in PairsUpTo(p, sources, picks, |sources|) <==> pair in PairsUpTo(p, more, others, |more|)
    {
      SamePair(p, sources, more, extra, host, picks, others, pair.0, pair.1);
    }
  }

  lemma SameGraph(
    p: Policy, sources: seq<Source>, more: seq<Source>, extra: Source, host: Source, picks: Picks, others: Picks)
    requires Extended(sources, more, extra, host) && SameEnds(picks, others)
    ensures PrecedenceGraph(p, sources, picks) == PrecedenceGraph(p, more, others)
  {
    hide PairsUpTo;
    SamePairs(p, sources, more, extra, host, picks, others);
  }

  // ---------------------------------------------------------------------------------- the same picks

  lemma {:induction false} EventsForPrefix(p: Policy, a: seq<UsageEvent>, b: seq<UsageEvent>, k: Key)
    requires a <= b
    ensures EventsFor(p, a, k) <= EventsFor(p, b, k)
    decreases |b|
  {
    if |a| == |b| {
      assert a == b;
    } else {
      EventsForPrefix(p, a, b[..|b| - 1], k);
    }
  }

  lemma {:induction false} SameKeys(p: Policy, sources: seq<Source>, more: seq<Source>, extra: Source, host: Source)
    requires Extended(sources, more, extra, host)
    ensures AllKeys(p, more) == AllKeys(p, sources)
  {
    hide AllKeys, KeysIn;
    forall k ensures k in AllKeys(p, more) <==> k in AllKeys(p, sources) {
      if k in AllKeys(p, more) {
        var n := SourceWithKey(p, more, k);
        var s := more[n];
        assert s in more;
        if s == extra {
          var m := EventWithKey(p, extra.value.events, k);
          EventKeyKnown(p, host.value.events, m);
          KnownIn(p, sources, host, k);
        } else {
          KnownIn(p, sources, s, k);
        }
      }
      if k in AllKeys(p, sources) {
        var n := SourceWithKey(p, sources, k);
        assert sources[n] in sources;
        KnownIn(p, more, sources[n], k);
      }
    }
  }

  lemma KnownIn(p: Policy, sources: seq<Source>, s: Source, k: Key)
    requires s in sources && k in KeysIn(p, s.value.events)
    ensures k in AllKeys(p, sources)
  {
    var m :| 0 <= m < |sources| && sources[m] == s;
    SourceKeysKnown(p, sources, m);
  }

  /** Without reviewed choices a key has a pick exactly when one of its copies starts with every other. */
  lemma PickNeedsLongest(p: Policy, k: Key, copies: seq<Copy>, i: int, r: Pick)
    requires IsPick(p, k, copies, [], i, r)
    ensures 0 <= i < |copies| && forall c <- copies :: Logs(c.events) <= Logs(copies[i].events)
    ensures var log := Logs(copies[i].events); log != [] && r.event.event == log[|log| - 1]
  {
    var logs := CopyLogs(copies);
    AcceptedArePrefixes(p.redact, logs, i);
    forall c <- copies ensures Logs(c.events) <= Logs(copies[i].events) {
      var j :| 0 <= j < |copies| && copies[j] == c;
      assert logs[j] in logs;
    }
  }

  lemma LongestIsPicked(p: Policy, k: Key, copies: seq<Copy>, whole: Copy) returns (i: int, r: Pick)
    requires whole in copies && forall c <- copies :: Logs(c.events) <= Logs(whole.events) && c.events != []
    ensures IsPick(p, k, copies, [], i, r)
  {
    var logs := CopyLogs(copies);
    var w :| 0 <= w < |copies| && copies[w] == whole;
    assert logs[w] in logs;
    forall x <- logs ensures x.value.kind == logs[w].value.kind && x.value.events <= logs[w].value.events {
      var j :| 0 <= j < |copies| && logs[j] == x;
      assert copies[j] in copies;
    }
    PrefixesAreAccepted(p.redact, logs, logs[w]);
    i :| Accepts(p.redact, logs, None, i);
    r := PickOf(p, k, copies, i);
  }

  /** The pick that copy i makes, once it is accepted. */
  lemma PickOf(p: Policy, k: Key, copies: seq<Copy>, i: int) returns (r: Pick)
    requires Accepts(p.redact, CopyLogs(copies), None, i) && forall c <- copies :: c.events != []
    ensures IsPick(p, k, copies, [], i, r)
  {
    var logs, target := CopyLogs(copies), copies[i];
    var event := target.events[|target.events| - 1];
    forall j | 0 <= j < |copies| ensures |logs[j].value.events| <= |logs[i].value.events| {}
    var fidelity := seq(|copies|, j requires 0 <= j < |copies| => FidelityOf(p.redact, logs[j], logs[i].value));
    r := Pick(target.source, event,
      Record(k, target.source.id, event.ordinal, event.event.envelope.eventId, false, fidelity));
  }

  /** With the extra ledger a key is picked from another copy, if at all, but ends in the same event. */
  lemma SamePick(
    p: Policy, sources: seq<Source>, more: seq<Source>, extra: Source, host: Source, k: Key, r: Pick)
    returns (other: Pick)
    requires Extended(sources, more, extra, host) && HasPick(p, sources, [], k, r)
    ensures HasPick(p, more, [], k, other) && other.event.event == r.event.event
  {
    hide Copies, EventsFor, Accepts, Logs;
    var copies, others := Copies(p, sources, k), Copies(p, more, k);
    var i :| IsPick(p, k, copies, [], i, r);
    CopiesExactly(p, sources, k);
    CopiesExactly(p, more, k);
    PickNeedsLongest(p, k, copies, i, r);
    var whole := copies[i];
    forall c <- others ensures Logs(c.events) <= Logs(whole.events) {
      ExtraIsShorter(p, sources, more, extra, host, k, c, whole);
    }
    var j;
    j, other := LongestIsPicked(p, k, others, whole);
    PickNeedsLongest(p, k, others, j, other);
    assert others[j] in others;
    assert whole in others && Logs(whole.events) == Logs(others[j].events);
  }

  lemma ExtraIsShorter(
    p: Policy, sources: seq<Source>, more: seq<Source>, extra: Source, host: Source, k: Key, c: Copy, whole: Copy)
    requires Extended(sources, more, extra, host) && c in Copies(p, more, k)
    requires forall x <- Copies(p, sources, k) :: Logs(x.events) <= Logs(whole.events)
    ensures Logs(c.events) <= Logs(whole.events)
  {
    hide Copies, EventsFor, Logs;
    CopiesExactly(p, sources, k);
    CopiesExactly(p, more, k);
    if c.source == extra {
      var longer := Copy(host, EventsFor(p, host.value.events, k));
      EventsForPrefix(p, extra.value.events, host.value.events, k);
      LogsOfPrefix(c.events, longer.events);
      assert longer in Copies(p, sources, k);
    } else {
      assert c in Copies(p, sources, k);
    }
  }

  ghost function PickFor(p: Policy, sources: seq<Source>, k: Key): (r: Pick)
    requires exists r :: HasPick(p, sources, [], k, r)
    ensures HasPick(p, sources, [], k, r)
  {
    var r :| HasPick(p, sources, [], k, r);
    r
  }

  lemma SamePicks(
    p: Policy, sources: seq<Source>, more: seq<Source>, extra: Source, host: Source, picks: Picks)
    returns (others: Picks)
    requires Extended(sources, more, extra, host) && ArePicks(p, sources, [], picks)
    ensures ArePicks(p, more, [], others) && SameEnds(picks, others)
  {
    hide HasPick, Extended;
    SameKeys(p, sources, more, extra, host);
    forall k <- picks ensures exists r :: HasPick(p, more, [], k, r) && r.event.event == picks[k].event.event {
      var r := SamePick(p, sources, more, extra, host, k, picks[k]);
    }
    others := map k | k in picks :: PickFor(p, more, k);
    forall k <- picks ensures others[k].event.event == picks[k].event.event {
      var r := SamePick(p, sources, more, extra, host, k, picks[k]);
      HasPickUnique(p, more, [], k, r, others[k]);
    }
  }

  lemma SameTerminals(
    p: Policy, sources: seq<Source>, more: seq<Source>, picks: Picks, others: Picks)
    requires ArePicks(p, sources, [], picks) && ArePicks(p, more, [], others)
    requires SameEnds(picks, others) && UniqueTerminals(p, picks)
    ensures UniqueTerminals(p, others)
  {
    hide HasPick;
    forall a, b | a in others && b in others && a != b ensures !SameTerminal(p, others[a], others[b]) {
      PickIdentity(p, sources, [], picks, a);
      PickIdentity(p, sources, [], picks, b);
      PickIdentity(p, more, [], others, a);
      PickIdentity(p, more, [], others, b);
      assert !SameTerminal(p, picks[a], picks[b]);
    }
  }

  // ------------------------------------------------------------------------------------- the whole merge

  lemma ValidWithOneMore<T>(input: seq<Tagged<T>>, extra: Tagged<T>)
    requires ValidIds(input) && extra.id != [] && forall s <- input :: s.id != extra.id
    ensures ValidIds(input + [extra])
  {
    var more := input + [extra];
    forall id ensures id in Ids(more) <==> id in Ids(input) || id == extra.id {
      if id == extra.id { assert more[|input|].id == id; }
      if i :| 0 <= i < |input| && input[i].id == id { assert more[i].id == id; }
    }
    assert Ids(more) == Ids(input) + {extra.id};
    assert forall i :: 0 <= i < |input| ==> input[i] in input;
  }

  lemma ExtendedInput(input: seq<Source>, extra: Source, host: Source)
    requires ValidIds(input) && extra.id != [] && forall s <- input :: s.id != extra.id
    requires AllDecoded(input) && host in input && extra.value.events < host.value.events
    ensures ValidIds(input + [extra]) && AllDecoded(input + [extra])
    ensures Extended(SortById(input), SortById(input + [extra]), extra, host)
  {
    hide SortById, DistinctIds;
    ValidWithOneMore(input, extra);
    SortKeepsIds(input);
    SortKeepsIds(input + [extra]);
    assert Decoded(host.value);
    assert forall n :: 0 <= n < |extra.value.events| ==> extra.value.events[n] == host.value.events[n];
  }

  lemma StillMergeable(
    p: Policy, sources: seq<Source>, more: seq<Source>, extra: Source, host: Source, picks: Picks)
    returns (others: Picks)
    requires Extended(sources, more, extra, host) && Mergeable(p, sources, [], picks)
    ensures Mergeable(p, more, [], others) && SameEnds(picks, others)
    ensures PrecedenceGraph(p, more, others) == PrecedenceGraph(p, sources, picks)
  {
    hide ArePicks, UniqueTerminals, SameEnds, PrecedenceGraph, Acyclic, Extended;
    others := SamePicks(p, sources, more, extra, host, picks);
    SameTerminals(p, sources, more, picks, others);
    SameGraph(p, sources, more, extra, host, picks, others);
  }

  lemma KeysOfMerge(
    p: Policy, sources: seq<Source>, picks: Picks, ordered: seq<Key>, r: MergedUsage)
    requires AllDecoded(sources) && StrictlySorted(sources) && Merges(p, sources, [], picks, ordered, r)
    ensures KeysOf(r.records) == RecordKeys(ordered, picks)
    ensures r.selectedSnapshots == |OfType(ordered, picks, SnapshotRecorded)|
  {
    hide Merges, Settled, KeysOf, RecordKeys, OfType;
    MergeIsSettled(p, sources, [], picks, ordered, r);
    RecordKeysOf(p, sources, [], picks, ordered, r);
  }

  /** Two merges over one graph, with picks that end alike, list the same keys. */
  lemma SameGraphSameKeys(
    p: Policy, sources: seq<Source>, more: seq<Source>, picks: Picks, others: Picks, ordered: seq<Key>, r: MergedUsage,
    s: MergedUsage)
    requires AllDecoded(sources) && StrictlySorted(sources) && Merges(p, sources, [], picks, ordered, r)
    requires AllDecoded(more) && StrictlySorted(more) && Mergeable(p, more, [], others) && IsMerge(p, more, [], s)
    requires SameEnds(picks, others) && PrecedenceGraph(p, more, others) == PrecedenceGraph(p, sources, picks)
    ensures KeysOf(s.records) == KeysOf(r.records) && s.selectedSnapshots == r.selectedSnapshots
  {
    hide AllDecoded, StrictlySorted, ArePicks, UniqueTerminals, SameEnds, PrecedenceGraph, Acyclic, Exhausted, IsMerge;
    hide KeysOf, Assemble, OfType, ReviewedKnown;
    var again := MergeIsOverThesePicks(p, more, [], others, s);
    ExhaustedUnique(PrecedenceGraph(p, sources, picks), ordered, again);
    KeysOfMerge(p, sources, picks, ordered, r);
    KeysOfMerge(p, more, others, again, s);
    SameOfType(ordered, picks, others, SnapshotRecorded);
    SameOfType(ordered, picks, others, PlanLinked);
  }

  /**
   * A ledger that starts as another does and stops earlier, supplied besides, leaves a merge without
   * reviewed choices as it was: it succeeds, with the same records in the same order.
   */
  lemma ContinuedLedgerChangesNothing(
    p: Policy, input: seq<Source>, extra: Source, host: Source, r: MergedUsage, out: UsageOutcome)
    requires AllDecoded(input) && IsOutcome(p, input, [], UsageSelected(r))
    requires host in input && extra.value.events < host.value.events
    requires extra.id != [] && forall s <- input :: s.id != extra.id
    requires IsOutcome(p, input + [extra], [], out)
    ensures out.UsageSelected? && KeysOf(out.selection.records) == KeysOf(r.records)
    ensures out.selection.selectedSnapshots == r.selectedSnapshots
  {
    hide SortById, DistinctIds, Merges, AllDecoded, ArePicks, Extended, PrecedenceGraph, KeysOf, Mergeable, SameEnds;
    hide StrictlySorted;
    var sources, more := SortById(input), SortById(input + [extra]);
    ExtendedInput(input, extra, host);
    SortKeepsIds(input);
    SortKeepsIds(input + [extra]);
    SortedSourcesDecoded(input);
    SortedSourcesDecoded(input + [extra]);
    var picks, ordered :| Merges(p, sources, [], picks, ordered, r);
    MergedIsMergeable(p, sources, [], picks, ordered, r);
    var others := StillMergeable(p, sources, more, extra, host, picks);
    var s := MergeableIsMerged(p, more, [], others);
    SameGraphSameKeys(p, sources, more, picks, others, ordered, r, out.selection);
  }

  // -------------------------------------------------------------------------------------- one ledger alone

  ghost predicate EndsKey(p: Policy, events: seq<UsageEvent>, n: int) {
    0 <= n < |events| && IsLastFor(p, events, KeyOf(p, events[n]), n)
  }

  /** The last events of different keys differ in identity, and two snapshots among them in theirs. */
  ghost predicate EndsDiffer(p: Policy, events: seq<UsageEvent>) {
    forall m, n :: EndsKey(p, events, m) && EndsKey(p, events, n) && m != n ==>
      !SameIdentity(p, events[m].event, events[n].event)
  }

  ghost predicate SameIdentity(p: Policy, a: LogEvent, b: LogEvent) {
    || a.envelope.eventId == b.envelope.eventId
    || (a.envelope.recordType == b.envelope.recordType == SnapshotRecorded
        && p.snapshotIn(a.payload) == p.snapshotIn(b.payload))
  }

  lemma OneSorted(source: Source)
    requires source.id != []
    ensures SortById([source]) == [source] && ValidIds([source])
  {
    assert Ids([source]) == {source.id} by {
      assert [source][0].id == source.id;
    }
  }

  lemma OnePicks(p: Policy, source: Source) returns (picks: Picks)
    ensures ArePicks(p, [source], [], picks)
  {
    hide HasPick, KeysIn;
    forall k <- AllKeys(p, [source]) ensures exists r :: HasPick(p, [source], [], k, r) {
      var r := OnePick(p, source, k);
    }
    picks := map k | k in AllKeys(p, [source]) :: PickFor(p, [source], k);
  }

  lemma OnePick(p: Policy, source: Source, k: Key) returns (r: Pick)
    requires k in AllKeys(p, [source])
    ensures HasPick(p, [source], [], k, r)
  {
    hide EventsFor, Copies, KeysIn, AllKeys;
    CopiesExactly(p, [source], k);
    CopiesOfKnownKeys(p, [source], k);
    var copies := Copies(p, [source], k);
    assert copies[0] in copies;
    var i;
    i, r := LongestIsPicked(p, k, copies, copies[0]);
    assert IsPick(p, k, Copies(p, [source], k), ChoicesFor([], k), i, r);
  }

  /** The order of a ledger is one that its own precedence allows. */
  lemma OwnOrderAllowed(p: Policy, source: Source, picks: Picks)
    requires picks.Keys == AllKeys(p, [source])
    ensures Acyclic(PrecedenceGraph(p, [source], picks))
  {
    hide LastOrder, PairsUpTo, Acyclic, KeysIn;
    var g, order := PrecedenceGraph(p, [source], picks), LastOrder(p, source.value.events);
    LastOrderLists(p, source.value.events);
    assert [source][0] == source && [source][..0] == [];
    assert AllKeys(p, [source]) == KeysIn(p, source.value.events);
    forall i, j | 0 <= i < |order| && 0 <= j < |order| && order[j] in g[order[i]] ensures i < j {
      OwnEdgeForward(p, source, picks, i, j);
    }
    GraphClosed(p, [source], picks);
    TopologicalIsAcyclic(g, order);
  }

  lemma OwnEdgeForward(p: Policy, source: Source, picks: Picks, i: nat, j: nat)
    requires i < |LastOrder(p, source.value.events)| && j < |LastOrder(p, source.value.events)|
    requires var order := LastOrder(p, source.value.events);
      (order[i], order[j]) in PairsUpTo(p, [source], picks, 1)
    ensures i < j
  {
    hide LastOrder, Superseded, Neighbours, Phase;
    var order := LastOrder(p, source.value.events);
    var a, b := order[i], order[j];
    var m := PairFrom(p, [source], picks, 1, (a, b));
    LastOrderLists(p, source.value.events);
    var t := if (a, b) in Neighbours(Phase(p, source, picks, SnapshotRecorded)) then SnapshotRecorded else PlanLinked;
    var x, y := NeighboursInLedger(p, source, picks, t, a, b);
  }

  lemma PickEndsKey(p: Policy, source: Source, picks: Picks, k: Key) returns (n: nat)
    requires ArePicks(p, [source], [], picks) && k in picks
    ensures EndsKey(p, source.value.events, n) && KeyOf(p, source.value.events[n]) == k
    ensures picks[k].event == source.value.events[n]
    ensures picks[k].record.eventId == picks[k].event.event.envelope.eventId
  {
    hide HasPick, KeysIn, AllKeys;
    n := PickOrigin(p, [source], [], picks, k);
    PickIdentity(p, [source], [], picks, k);
  }

  lemma OneTerminals(p: Policy, source: Source, picks: Picks)
    requires ArePicks(p, [source], [], picks)
    ensures UniqueTerminals(p, picks) <==> EndsDiffer(p, source.value.events)
  {
    hide ArePicks, KeysIn, IsLastFor;
    var events := source.value.events;
    if EndsDiffer(p, events) {
      forall a, b | a in picks && b in picks && a != b ensures !SameTerminal(p, picks[a], picks[b]) {
        var m := PickEndsKey(p, source, picks, a);
        var n := PickEndsKey(p, source, picks, b);
      }
    }
    if UniqueTerminals(p, picks) {
      forall m, n | EndsKey(p, events, m) && EndsKey(p, events, n) && m != n
        ensures !SameIdentity(p, events[m].event, events[n].event)
      {
        EndsApart(p, source, picks, m, n);
      }
    }
  }

  lemma EndOfPick(p: Policy, source: Source, picks: Picks, n: nat)
    requires ArePicks(p, [source], [], picks) && EndsKey(p, source.value.events, n)
    ensures var k := KeyOf(p, source.value.events[n]);
      && k in picks && picks[k].event == source.value.events[n]
      && picks[k].record.eventId == source.value.events[n].event.envelope.eventId
  {
    hide HasPick, KeysIn, AllKeys;
    var events := source.value.events;
    EventKeyKnown(p, events, n);
    KnownIn(p, [source], source, KeyOf(p, events[n]));
    var m := PickEndsKey(p, source, picks, KeyOf(p, events[n]));
  }

  lemma EndsApart(p: Policy, source: Source, picks: Picks, m: nat, n: nat)
    requires ArePicks(p, [source], [], picks) && UniqueTerminals(p, picks)
    requires EndsKey(p, source.value.events, m) && EndsKey(p, source.value.events, n) && m != n
    ensures !SameIdentity(p, source.value.events[m].event, source.value.events[n].event)
  {
    hide ArePicks;
    var events := source.value.events;
    EndOfPick(p, source, picks, m);
    EndOfPick(p, source, picks, n);
    assert !SameTerminal(p, picks[KeyOf(p, events[m])], picks[KeyOf(p, events[n])]);
  }

  /** A ledger alone is selected exactly when the events that end its keys can be told apart. */
  lemma SingleLedgerSelects(p: Policy, source: Source, out: UsageOutcome)
    requires source.id != [] && IsOutcome(p, [source], [], out)
    ensures out.UsageSelected? <==> EndsDiffer(p, source.value.events)
  {
    hide ArePicks, UniqueTerminals, Acyclic, PrecedenceGraph, EndsDiffer, Merges, AllKeys;
    OneSorted(source);
    var picks := OnePicks(p, source);
    OneTerminals(p, source, picks);
    KeysPicked(p, source, picks);
    OwnOrderAllowed(p, source, picks);
    SelectedExactlyWhen(p, [source], [], out);
    if out.UsageSelected? {
      var others :| Mergeable(p, [source], [], others);
      PicksUnique(p, [source], [], picks, others);
    } else if EndsDiffer(p, source.value.events) {
      OneCanMerge(p, source, picks);
    }
  }

  lemma KeysPicked(p: Policy, source: Source, picks: Picks)
    requires ArePicks(p, [source], [], picks)
    ensures picks.Keys == AllKeys(p, [source])
  {
  }

  lemma OneCanMerge(p: Policy, source: Source, picks: Picks)
    requires ArePicks(p, [source], [], picks) && UniqueTerminals(p, picks)
    requires Acyclic(PrecedenceGraph(p, [source], picks))
    ensures CanMerge(p, [source], [])
  {
    hide ArePicks, UniqueTerminals, Acyclic, PrecedenceGraph;
    assert Mergeable(p, [source], [], picks);
  }

  /** With links alone in it, a ledger's records are its keys in the order it has them last. */
  lemma LinksInOrder(p: Policy, source: Source, r: MergedUsage)
    requires source.id != [] && Decoded(source.value) && IsOutcome(p, [source], [], UsageSelected(r))
    requires forall e <- source.value.events :: e.event.envelope.recordType == PlanLinked
    ensures KeysOf(r.records) == LastOrder(p, source.value.events)
  {
    hide Merges, ArePicks, OfType, LastOrder, KeysOf, PrecedenceGraph, SortById, Settled;
    OneSorted(source);
    var picks, ordered :| Merges(p, [source], [], picks, ordered, r);
    MergeIsSettled(p, [source], [], picks, ordered, r);
    KeysOfMerge(p, [source], picks, ordered, r);
    SingleLedgerProjected(p, source, [], picks, ordered, r);
    SettledPicks(p, source, picks, ordered, r);
    forall k <- picks ensures TypeOf(picks[k]) == PlanLinked {
      var n := PickEndsKey(p, source, picks, k);
    }
    LastOrderLists(p, source.value.events);
    OneType(LastOrder(p, source.value.events), picks);
  }

  lemma SettledPicks(p: Policy, source: Source, picks: Picks, ordered: seq<Key>, r: MergedUsage)
    requires Settled(p, [source], [], picks, ordered, r)
    ensures ArePicks(p, [source], [], picks)
    ensures forall k <- LastOrder(p, source.value.events) :: k in picks
  {
    hide KeysIn, HasPick;
    LastOrderLists(p, source.value.events);
    assert [source][0] == source;
  }

  lemma {:induction false} OneType(order: seq<Key>, picks: Picks)
    requires forall k <- order :: k in picks && TypeOf(picks[k]) == PlanLinked
    ensures OfType(order, picks, PlanLinked) == order && OfType(order, picks, SnapshotRecorded) == []
  {
    if order != [] { OneType(order[1..], picks); }
  }

  // ------------------------------------------------------------------------------ a ledger and its archive

  function LinkEvent(ordinal: nat, id: Text, name: Text, payload: Text): UsageEvent {
    UsageEvent(ordinal, LogEvent(Envelope(id, PlanLinked, [], 1, name), payload))
  }

  /** Two links, and a ledger that goes on to repair the first of them twice. */
  function Hot(one: Text, two: Text): seq<UsageEvent> {
    [LinkEvent(0, one, one, one), LinkEvent(1, two, two, two)]
  }

  function Archive(one: Text, two: Text): seq<UsageEvent> {
    [LinkEvent(0, one, one, one), LinkEvent(1, two, two, two), LinkEvent(2, one, one, two), LinkEvent(3, one, one, two)]
  }

  lemma LastOrderGrows(p: Policy, e: UsageEvent, rest: seq<UsageEvent>)
    ensures KeysIn(p, [e] + rest) == {KeyOf(p, e)} + KeysIn(p, rest)
    ensures LastOrder(p, [e] + rest) ==
      if KeyOf(p, e) in KeysIn(p, rest) then LastOrder(p, rest) else [KeyOf(p, e)] + LastOrder(p, rest)
  {
    KeysInCons(p, e, rest);
    assert ([e] + rest)[1..] == rest;
  }

  lemma ArchiveOrder(p: Policy, one: Text, two: Text)
    requires p.digest(PlanLinked, one) != p.digest(PlanLinked, two)
    ensures LastOrder(p, Archive(one, two)) == [p.digest(PlanLinked, two), p.digest(PlanLinked, one)]
  {
    hide LastOrder, KeysIn;
    var a, b, c, d := LinkEvent(0, one, one, one), LinkEvent(1, two, two, two), LinkEvent(2, one, one, two),
      LinkEvent(3, one, one, two);
    NothingLast(p);
    LastOrderGrows(p, d, []);
    LastOrderGrows(p, c, [d]);
    LastOrderGrows(p, b, [c, d]);
    LastOrderGrows(p, a, [b, c, d]);
    assert [d] + [] == [d] && [c] + [d] == [c, d] && [b] + [c, d] == [b, c, d];
    assert [a] + [b, c, d] == Archive(one, two);
  }

  lemma NothingLast(p: Policy)
    ensures LastOrder(p, []) == [] && KeysIn(p, []) == {}
  {
  }

  lemma ArchiveEnds(p: Policy, one: Text, two: Text)
    requires one != two
    ensures EndsDiffer(p, Archive(one, two))
  {
    var events := Archive(one, two);
    forall m | EndsKey(p, events, m) ensures m == 1 || m == 3 {
      assert KeyOf(p, events[3]) == KeyOf(p, events[2]) == KeyOf(p, events[0]);
    }
    assert events[1].event.envelope.eventId == two && events[3].event.envelope.eventId == one;
  }

  lemma OutcomeExists(p: Policy, input: seq<Source>) returns (out: UsageOutcome)
    ensures IsOutcome(p, input, [], out)
  {
    out := UsageConflict;
    if ValidIds(input) && exists r :: IsMerge(p, SortById(input), [], r) {
      var r :| IsMerge(p, SortById(input), [], r);
      out := UsageSelected(r);
    }
  }

  lemma ArchiveAlone(p: Policy, one: Text, two: Text, archive: Source) returns (r: MergedUsage)
    requires p.digest(PlanLinked, one) != p.digest(PlanLinked, two)
    requires archive.id != [] && archive.value.events == Archive(one, two)
    ensures Decoded(archive.value) && IsOutcome(p, [archive], [], UsageSelected(r))
    ensures KeysOf(r.records) == [p.digest(PlanLinked, two), p.digest(PlanLinked, one)]
  {
    hide IsOutcome, KeysOf, LastOrder, EndsDiffer;
    var out := OutcomeExists(p, [archive]);
    ArchiveEnds(p, one, two);
    SingleLedgerSelects(p, archive, out);
    r := out.selection;
    LinksInOrder(p, archive, r);
    ArchiveOrder(p, one, two);
  }

  /**
   * A ledger supplied with an archive that goes on to repair its first link: both are merged, and the
   * repaired link is replayed last.
   */
  lemma RepairedArchiveIsSelected(p: Policy, one: Text, two: Text, archive: Source, hot: Source, out: UsageOutcome)
    requires p.digest(PlanLinked, one) != p.digest(PlanLinked, two)
    requires archive.id != [] && hot.id != [] && archive.id != hot.id
    requires archive.value.events == Archive(one, two) && hot.value.events == Hot(one, two)
    requires IsOutcome(p, [archive, hot], [], out)
    ensures out.UsageSelected?
    ensures KeysOf(out.selection.records) == [p.digest(PlanLinked, two), p.digest(PlanLinked, one)]
  {
    hide IsOutcome, KeysOf;
    var r := ArchiveAlone(p, one, two, archive);
    assert Archive(one, two)[..2] == Hot(one, two);
    assert [archive] + [hot] == [archive, hot];
    ContinuedLedgerChangesNothing(p, [archive], hot, archive, r, out);
  }
}
