/**
 * Retained usage ledgers: their events grouped by semantic key, the copy that may
 * represent a key, and the precedence the ledgers impose on keys.
 */
module UsageHistory {
  import opened Options
  import opened Sequences
  import opened CodeUnits
  import opened PrecedenceOrder
  import opened Representation

  datatype UsageEvent = UsageEvent(ordinal: nat, event: LogEvent)

  datatype Bundle = Bundle(sha256: Text, events: seq<UsageEvent>)

  type Source = Tagged<Bundle>

  /** The redactor, the digest of a record type with an idempotency key, and the identity in a snapshot's payload. */
  datatype Policy = Policy(redact: Redactor, digest: (RecordType, Text) -> Key, snapshotIn: Text -> Text)

  datatype KeyedChoice = KeyedChoice(key: Key, choice: Choice)

  /** What decoding a bundle establishes: line ordinals, and only the two usage types. */
  ghost predicate Decoded(b: Bundle) {
    forall n :: 0 <= n < |b.events| ==>
      b.events[n].ordinal == n && !b.events[n].event.envelope.recordType.OtherRecord?
  }

  ghost predicate AllDecoded(sources: seq<Source>) {
    forall s <- sources :: Decoded(s.value)
  }

  function KeyOf(p: Policy, e: UsageEvent): Key {
    p.digest(e.event.envelope.recordType, e.event.envelope.idempotencyKey)
  }

  function KeysIn(p: Policy, events: seq<UsageEvent>): set<Key> {
    if events == [] then {} else KeysIn(p, events[..|events| - 1]) + {KeyOf(p, events[|events| - 1])}
  }

  function AllKeys(p: Policy, sources: seq<Source>): set<Key> {
    if sources == [] then {} else
      AllKeys(p, sources[..|sources| - 1]) + KeysIn(p, sources[|sources| - 1].value.events)
  }

  lemma {:induction false} EventKeyKnown(p: Policy, events: seq<UsageEvent>, n: nat)
    requires n < |events|
    ensures KeyOf(p, events[n]) in KeysIn(p, events)
  {
    var last := |events| - 1;
    if n < last {
      assert events[..last][n] == events[n];
      EventKeyKnown(p, events[..last], n);
    }
  }

  lemma {:induction false} EventWithKey(p: Policy, events: seq<UsageEvent>, k: Key) returns (n: nat)
    requires k in KeysIn(p, events)
    ensures n < |events| && KeyOf(p, events[n]) == k
  {
    n := |events| - 1;
    if KeyOf(p, events[n]) != k {
      var front := events[..n];
      n := EventWithKey(p, front, k);
      assert front[n] == events[n];
    }
  }

  lemma {:induction false} KeysInCons(p: Policy, e: UsageEvent, rest: seq<UsageEvent>)
    ensures KeysIn(p, [e] + rest) == {KeyOf(p, e)} + KeysIn(p, rest)
  {
    if rest == [] {
      assert [e] + rest == [e];
    } else {
      var n := |rest| - 1;
      KeysInCons(p, e, rest[..n]);
      assert ([e] + rest)[..n + 1] == [e] + rest[..n];
    }
  }

  lemma {:induction false} SourceKeysKnown(p: Policy, sources: seq<Source>, n: nat)
    requires n < |sources|
    ensures KeysIn(p, sources[n].value.events) <= AllKeys(p, sources)
  {
    var last := |sources| - 1;
    if n < last {
      assert sources[..last][n] == sources[n];
      SourceKeysKnown(p, sources[..last], n);
    }
  }

  lemma {:induction false} SourceWithKey(p: Policy, sources: seq<Source>, k: Key) returns (n: nat)
    requires k in AllKeys(p, sources)
    ensures n < |sources| && k in KeysIn(p, sources[n].value.events)
  {
    n := |sources| - 1;
    if k !in KeysIn(p, sources[n].value.events) {
      var front := sources[..n];
      n := SourceWithKey(p, front, k);
      assert front[n] == sources[n];
    }
  }

  // ------------------------------------------------------------------- grouping

  datatype Copy = Copy(source: Source, events: seq<UsageEvent>)

  /** One ledger's events for a key, in ledger order. */
  function EventsFor(p: Policy, events: seq<UsageEvent>, k: Key): seq<UsageEvent> {
    if events == [] then [] else
      var n := |events| - 1;
      EventsFor(p, events[..n], k) + (if KeyOf(p, events[n]) == k then [events[n]] else [])
  }

  /** Every ledger's non-empty copy of a key, in ledger order. */
  function Copies(p: Policy, sources: seq<Source>, k: Key): seq<Copy> {
    if sources == [] then [] else
      var n := |sources| - 1;
      var own := EventsFor(p, sources[n].value.events, k);
      Copies(p, sources[..n], k) + (if own == [] then [] else [Copy(sources[n], own)])
  }

  lemma {:induction false} EventsForKnownKeys(p: Policy, events: seq<UsageEvent>, k: Key)
    ensures EventsFor(p, events, k) != [] <==> k in KeysIn(p, events)
  {
    if events != [] {
      var n := |events| - 1;
      EventsForKnownKeys(p, events[..n], k);
    }
  }

  lemma {:induction false} CopiesOfKnownKeys(p: Policy, sources: seq<Source>, k: Key)
    ensures Copies(p, sources, k) != [] <==> k in AllKeys(p, sources)
    ensures forall c <- Copies(p, sources, k) ::
      c.events != [] && c.source in sources && c.events == EventsFor(p, c.source.value.events, k)
  {
    if sources != [] {
      var n := |sources| - 1;
      assert sources == sources[..n] + [sources[n]];
      CopiesOfKnownKeys(p, sources[..n], k);
      EventsForKnownKeys(p, sources[n].value.events, k);
    }
  }

  lemma {:induction false} CopiesExactly(p: Policy, sources: seq<Source>, k: Key)
    ensures forall c :: c in Copies(p, sources, k) <==>
      c.source in sources && c.events == EventsFor(p, c.source.value.events, k) && c.events != []
  {
    if sources != [] {
      var n := |sources| - 1;
      assert sources == sources[..n] + [sources[n]];
      CopiesExactly(p, sources[..n], k);
    }
  }

  ghost predicate IsLastFor(p: Policy, events: seq<UsageEvent>, k: Key, n: int) {
    0 <= n < |events| && KeyOf(p, events[n]) == k && forall m :: n < m < |events| ==> KeyOf(p, events[m]) != k
  }

  lemma {:induction false} LastEventFor(p: Policy, events: seq<UsageEvent>, k: Key) returns (n: nat)
    requires k in KeysIn(p, events)
    ensures IsLastFor(p, events, k, n)
    ensures var own := EventsFor(p, events, k); own != [] && events[n] == own[|own| - 1]
  {
    n := |events| - 1;
    var front := events[..n];
    assert events == front + [events[n]];
    if KeyOf(p, events[n]) != k {
      n := LastEventFor(p, front, k);
      forall m | n < m < |events| ensures KeyOf(p, events[m]) != k {
        assert m < |front| ==> KeyOf(p, front[m]) != k;
      }
    }
  }

  // -------------------------------------------------------- representing one key

  function Logs(events: seq<UsageEvent>): seq<LogEvent> {
    seq(|events|, n requires 0 <= n < |events| => events[n].event)
  }

  /** A key's copies as the logs that Representation compares. */
  function CopyLogs(copies: seq<Copy>): seq<Tagged<Log>> {
    seq(|copies|, n requires 0 <= n < |copies| =>
      Tagged(copies[n].source.id, Log(UsageLog, copies[n].source.value.sha256, Logs(copies[n].events))))
  }

  function ChoicesFor(reviewed: seq<KeyedChoice>, k: Key): seq<Choice> {
    if reviewed == [] then [] else
      (if reviewed[0].key == k then [reviewed[0].choice] else []) + ChoicesFor(reviewed[1..], k)
  }

  function FirstChoice(choices: seq<Choice>): Option<Choice> {
    if choices == [] then None else Some(choices[0])
  }

  datatype FidelityEntry = FidelityEntry(
    sourceId: Text, sha256: Text, records: nat, selectedRedacted: nat, selectedUnredacted: nat)

  datatype Record = Record(
    key: Key, sourceId: Text, ordinal: nat, eventId: Text, reviewed: bool, fidelity: seq<FidelityEntry>)

  datatype Pick = Pick(source: Source, event: UsageEvent, record: Record)

  function FidelityOf(redact: Redactor, copy: Tagged<Log>, target: Log): FidelityEntry
    requires |copy.value.events| <= |target.events|
  {
    var n := |copy.value.events|;
    FidelityEntry(copy.id, copy.value.sha256, n,
                  Tally(redact, copy.value.events, target.events, n, SelectedRedacted),
                  Tally(redact, copy.value.events, target.events, n, SelectedUnredacted))
  }

  /** Copy i may represent the key, and nothing in any other copy is thereby omitted. */
  ghost predicate KeyAccepts(p: Policy, copies: seq<Copy>, choices: seq<Choice>, i: int) {
    |choices| <= 1 && Accepts(p.redact, CopyLogs(copies), FirstChoice(choices), i)
  }

  /** The pick for a key: the last event of the representing copy, with its evidence. */
  ghost predicate IsPick(p: Policy, k: Key, copies: seq<Copy>, choices: seq<Choice>, i: int, r: Pick)
  {
    && KeyAccepts(p, copies, choices, i)
    && copies[i].events != []
    && r.source == copies[i].source
    && r.event == copies[i].events[|copies[i].events| - 1]
    && r.record.key == k && r.record.sourceId == r.source.id && r.record.ordinal == r.event.ordinal
    && r.record.eventId == r.event.event.envelope.eventId && r.record.reviewed == (choices != [])
    && |r.record.fidelity| == |copies|
    && forall j :: 0 <= j < |copies| ==>
         r.record.fidelity[j] == FidelityOf(p.redact, CopyLogs(copies)[j], CopyLogs(copies)[i].value)
  }

  lemma PickUnique(p: Policy, k: Key, copies: seq<Copy>, choices: seq<Choice>, i: int, a: Pick, j: int, b: Pick)
    requires IsPick(p, k, copies, choices, i, a) && IsPick(p, k, copies, choices, j, b)
    ensures i == j && a == b
  {
    var s := CopyLogs(copies);
    TargetUnique(LogIds(s), LogLengths(s), FirstChoice(choices), i, j);
    assert a.record.fidelity == b.record.fidelity;
  }

  type Picks = map<Key, Pick>

  ghost predicate HasPick(p: Policy, sources: seq<Source>, reviewed: seq<KeyedChoice>, k: Key, r: Pick) {
    exists i :: IsPick(p, k, Copies(p, sources, k), ChoicesFor(reviewed, k), i, r)
  }

  lemma HasPickUnique(p: Policy, sources: seq<Source>, reviewed: seq<KeyedChoice>, k: Key, a: Pick, b: Pick)
    requires HasPick(p, sources, reviewed, k, a) && HasPick(p, sources, reviewed, k, b)
    ensures a == b
  {
    var copies, choices := Copies(p, sources, k), ChoicesFor(reviewed, k);
    var i :| IsPick(p, k, copies, choices, i, a);
    var j :| IsPick(p, k, copies, choices, j, b);
    PickUnique(p, k, copies, choices, i, a, j, b);
  }

  ghost predicate ArePicks(p: Policy, sources: seq<Source>, reviewed: seq<KeyedChoice>, picks: Picks) {
    && picks.Keys == AllKeys(p, sources)
    && forall k <- picks :: HasPick(p, sources, reviewed, k, picks[k])
  }

  lemma PicksUnique(p: Policy, sources: seq<Source>, reviewed: seq<KeyedChoice>, a: Picks, b: Picks)
    requires ArePicks(p, sources, reviewed, a) && ArePicks(p, sources, reviewed, b)
    ensures a == b
  {
    if k :| k in a && k in b && a[k] != b[k] { PickAtUnique(p, sources, reviewed, a, b, k); }
    SameEntries(a, b);
  }

  lemma SameEntries(a: Picks, b: Picks)
    requires a.Keys == b.Keys && forall k :: k in a && k in b ==> a[k] == b[k]
    ensures a == b
  {
  }

  lemma PickAtUnique(p: Policy, sources: seq<Source>, reviewed: seq<KeyedChoice>, a: Picks, b: Picks, k: Key)
    requires ArePicks(p, sources, reviewed, a) && ArePicks(p, sources, reviewed, b) && k in a
    ensures k in b && a[k] == b[k]
  {
    HasPickUnique(p, sources, reviewed, k, a[k], b[k]);
  }

  function TypeOf(r: Pick): RecordType {
    r.event.event.envelope.recordType
  }

  function SnapshotOf(p: Policy, r: Pick): Text {
    p.snapshotIn(r.event.event.payload)
  }

  ghost predicate SameTerminal(p: Policy, a: Pick, b: Pick) {
    || a.record.eventId == b.record.eventId
    || (TypeOf(a).SnapshotRecorded? && TypeOf(b).SnapshotRecorded? && SnapshotOf(p, a) == SnapshotOf(p, b))
  }

  /** No two keys end in one event identity, and no two snapshots in one snapshot identity. */
  ghost predicate UniqueTerminals(p: Policy, picks: Picks) {
    forall a, b :: a in picks && b in picks && a != b ==> !SameTerminal(p, picks[a], picks[b])
  }

  // ------------------------------------------------------------------ precedence

  /** Some longer ledger repeats this one, event for event. */
  predicate Superseded(p: Policy, sources: seq<Source>, s: Source) {
    exists other <- sources ::
      |s.value.events| < |other.value.events| && Agrees(p.redact, Logs(s.value.events), Logs(other.value.events))
  }

  /** A ledger's keys in the order of their last occurrences. */
  function LastOrder(p: Policy, events: seq<UsageEvent>): seq<Key> {
    if events == [] then [] else
      var k, rest := KeyOf(p, events[0]), LastOrder(p, events[1..]);
      if k in KeysIn(p, events[1..]) then rest else [k] + rest
  }

  lemma {:induction false} LastOrderLists(p: Policy, events: seq<UsageEvent>)
    ensures forall k :: k in LastOrder(p, events) <==> k in KeysIn(p, events)
    ensures Distinct(LastOrder(p, events))
  {
    if events != [] {
      assert events == [events[0]] + events[1..];
      KeysInCons(p, events[0], events[1..]);
      LastOrderLists(p, events[1..]);
    }
  }

  /** The keys of one record type, in the given order. */
  function OfType(order: seq<Key>, picks: Picks, t: RecordType): seq<Key> {
    if order == [] then [] else
      (if order[0] in picks && TypeOf(picks[order[0]]) == t then [order[0]] else []) + OfType(order[1..], picks, t)
  }

  lemma {:induction false} OfTypeSelects(order: seq<Key>, picks: Picks, t: RecordType)
    ensures forall k :: k in OfType(order, picks, t) <==> k in order && k in picks && TypeOf(picks[k]) == t
    ensures Distinct(order) ==> Distinct(OfType(order, picks, t))
  {
    if order != [] {
      assert order == [order[0]] + order[1..];
      OfTypeSelects(order[1..], picks, t);
    }
  }

  /** Every key of a phase with the key after it. */
  function Neighbours(phase: seq<Key>): set<(Key, Key)> {
    if |phase| < 2 then {} else
      var n := |phase| - 1;
      Neighbours(phase[..n]) + {(phase[n - 1], phase[n])}
  }

  lemma {:induction false} NeighbourAt(phase: seq<Key>, n: nat)
    requires 0 < n < |phase|
    ensures (phase[n - 1], phase[n]) in Neighbours(phase)
  {
    if n < |phase| - 1 { NeighbourAt(phase[..|phase| - 1], n); }
  }

  lemma {:induction false} NeighbourFrom(phase: seq<Key>, a: Key, b: Key) returns (n: nat)
    requires (a, b) in Neighbours(phase)
    ensures 0 < n < |phase| && a == phase[n - 1] && b == phase[n]
  {
    n := |phase| - 1;
    if (a, b) != (phase[n - 1], phase[n]) { n := NeighbourFrom(phase[..n], a, b); }
  }

  function Phase(p: Policy, s: Source, picks: Picks, t: RecordType): seq<Key> {
    OfType(LastOrder(p, s.value.events), picks, t)
  }

  /** What one ledger imposes: nothing if superseded, else its order within each record type. */
  function SourcePairs(p: Policy, sources: seq<Source>, picks: Picks, s: Source): set<(Key, Key)> {
    if Superseded(p, sources, s) then {} else
      Neighbours(Phase(p, s, picks, SnapshotRecorded)) + Neighbours(Phase(p, s, picks, PlanLinked))
  }

  /** The pairs imposed by the first n ledgers. */
  function PairsUpTo(p: Policy, sources: seq<Source>, picks: Picks, n: nat): set<(Key, Key)>
    requires n <= |sources|
  {
    if n == 0 then {} else
      PairsUpTo(p, sources, picks, n - 1) + SourcePairs(p, sources, picks, sources[n - 1])
  }

  function GraphOf(keys: set<Key>, pairs: set<(Key, Key)>): Graph {
    map a | a in keys :: set b | b in keys && (a, b) in pairs
  }

  function PrecedenceGraph(p: Policy, sources: seq<Source>, picks: Picks): Graph {
    GraphOf(picks.Keys, PairsUpTo(p, sources, picks, |sources|))
  }
}
