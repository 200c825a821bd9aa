/**
 * When two retained copies of one history record stand for the same fact, and which
 * of several retained logs may represent all of them.
 *
 * A payload is its canonical JSON text, so equality of texts is the original's `same`.
 * The redactor is a parameter: nothing below depends on what it redacts.
 */
module Representation {
  import opened Options
  import opened Sequences
  import opened CodeUnits

  datatype RecordType = SnapshotRecorded | PlanLinked | OtherRecord(name: Text)

  datatype Envelope = Envelope(
    eventId: Text, recordType: RecordType, ts: Text, schemaVersion: int, idempotencyKey: Text)

  datatype LogEvent = LogEvent(envelope: Envelope, payload: Text)

  type Redactor = Text -> Text

  datatype Relation = SamePayload | SelectedRedacted | SelectedUnredacted | Conflict

  function Compare(redact: Redactor, original: LogEvent, target: LogEvent): Relation {
    if original.envelope != target.envelope then Conflict
    else if original.payload == target.payload then SamePayload
    else if redact(original.payload) == target.payload then SelectedRedacted
    else if original.payload == redact(target.payload) then SelectedUnredacted
    else Conflict
  }

  /** Whether two copies conflict does not depend on which is called the original. */
  lemma ConflictIsSymmetric(redact: Redactor, a: LogEvent, b: LogEvent)
    ensures Compare(redact, a, b) == Conflict <==> Compare(redact, b, a) == Conflict
    ensures Compare(redact, a, b) == SamePayload <==> a == b
  {
  }

  /** With an idempotent redactor, exchanging the copies exchanges the two fidelity verdicts. */
  lemma FidelityExchanges(redact: Redactor, a: LogEvent, b: LogEvent)
    requires forall t :: redact(redact(t)) == redact(t)
    ensures Compare(redact, a, b) == SelectedRedacted <==> Compare(redact, b, a) == SelectedUnredacted
  {
    assert redact(redact(a.payload)) == redact(a.payload);
    assert redact(redact(b.payload)) == redact(b.payload);
  }

  /** Every event of the shorter log has an unconflicting counterpart at its position. */
  predicate Agrees(redact: Redactor, short: seq<LogEvent>, long: seq<LogEvent>) {
    |short| <= |long| && forall n :: 0 <= n < |short| ==> Compare(redact, short[n], long[n]) != Conflict
  }

  // ------------------------------------------------------------ choosing a copy

  datatype Choice = Choice(sourceId: Text, sources: seq<Tagged<Text>>)

  ghost predicate IsFirstLongest(lengths: seq<nat>, i: int) {
    && 0 <= i < |lengths|
    && (forall j :: 0 <= j < |lengths| ==> lengths[j] <= lengths[i])
    && (forall j :: 0 <= j < i ==> lengths[j] < lengths[i])
  }

  method FirstLongest(lengths: seq<nat>) returns (i: nat)
    requires lengths != []
    ensures IsFirstLongest(lengths, i)
  {
    i := 0;
    for n := 1 to |lengths|
      invariant 0 <= i < n
      invariant forall j :: 0 <= j < n ==> lengths[j] <= lengths[i]
      invariant forall j :: 0 <= j < i ==> lengths[j] < lengths[i]
    {
      if lengths[n] > lengths[i] { i := n; }
    }
  }

  /**
   * The copy that may represent the others: the reviewed one, or else the first of
   * the longest. In both cases no copy is longer.
   */
  ghost predicate IsTarget(ids: seq<Text>, lengths: seq<nat>, choice: Option<Choice>, i: int)
    requires |ids| == |lengths|
  {
    match choice
    case None => IsFirstLongest(lengths, i)
    case Some(c) =>
      && 0 <= i < |ids| && ids[i] == c.sourceId
      && (forall j :: 0 <= j < i ==> ids[j] != c.sourceId)
      && (forall j :: 0 <= j < |lengths| ==> lengths[j] <= lengths[i])
  }

  lemma TargetUnique(ids: seq<Text>, lengths: seq<nat>, choice: Option<Choice>, i: int, j: int)
    requires |ids| == |lengths| && IsTarget(ids, lengths, choice, i) && IsTarget(ids, lengths, choice, j)
    ensures i == j
  {
    match choice
    case None => assert lengths[i] <= lengths[j] <= lengths[i];
    case Some(c) => assert ids[i] == ids[j] == c.sourceId;
  }

  method FindTarget(ids: seq<Text>, lengths: seq<nat>, choice: Option<Choice>) returns (target: Option<nat>)
    requires |ids| == |lengths| && lengths != []
    ensures match target
      case Some(i) => IsTarget(ids, lengths, choice, i)
      case None => forall i :: !IsTarget(ids, lengths, choice, i)
  {
    var longest := FirstLongest(lengths);
    match choice {
      case None => target := Some(longest);
      case Some(c) =>
        var i := 0;
        while i < |ids| && ids[i] != c.sourceId
          invariant 0 <= i <= |ids| && forall j :: 0 <= j < i ==> ids[j] != c.sourceId
        {
          i := i + 1;
        }
        if i == |ids| || lengths[i] != lengths[longest] {
          target := None;
          assert i < |ids| ==> lengths[i] < lengths[longest];
        } else {
          target := Some(i);
        }
    }
  }

  // ------------------------------------------------------------ whole-log selection

  datatype LogKind = ArtifactLog | UsageLog

  datatype Log = Log(kind: LogKind, sha256: Text, events: seq<LogEvent>)

  datatype Extent = EqualExtent | PrefixExtent

  datatype Fidelity = SameFidelity | RedactedFidelity | UnredactedFidelity | MixedFidelity

  datatype Evidence = Evidence(
    sourceId: Text, sha256: Text, records: nat, extent: Extent, fidelity: Fidelity, differentPayloads: nat)

  datatype Selection = Selection(sourceId: Text, log: Log, reviewed: bool, sources: seq<Evidence>)

  datatype Outcome = SourceConflict | Chosen(selection: Selection)

  /** How many of the first n positions stand in the given relation. */
  function Tally(redact: Redactor, original: seq<LogEvent>, target: seq<LogEvent>, n: nat, relation: Relation): nat
    requires n <= |original| && n <= |target|
  {
    if n == 0 then 0 else
      Tally(redact, original, target, n - 1, relation) +
      (if Compare(redact, original[n - 1], target[n - 1]) == relation then 1 else 0)
  }

  function Verdict(redacted: bool, unredacted: bool): Fidelity {
    if redacted && unredacted then MixedFidelity
    else if redacted then RedactedFidelity
    else if unredacted then UnredactedFidelity
    else SameFidelity
  }

  function EvidenceOf(redact: Redactor, source: Tagged<Log>, target: Log): Evidence
    requires |source.value.events| <= |target.events|
  {
    var n := |source.value.events|;
    var r := Tally(redact, source.value.events, target.events, n, SelectedRedacted);
    var u := Tally(redact, source.value.events, target.events, n, SelectedUnredacted);
    Evidence(source.id, source.value.sha256, n, if n == |target.events| then EqualExtent else PrefixExtent,
             Verdict(r > 0, u > 0), r + u)
  }

  function LogIds(s: seq<Tagged<Log>>): seq<Text> {
    seq(|s|, i requires 0 <= i < |s| => s[i].id)
  }

  function LogLengths(s: seq<Tagged<Log>>): seq<nat> {
    seq(|s|, i requires 0 <= i < |s| => |s[i].value.events|)
  }

  function LogHashes(s: seq<Tagged<Log>>): seq<Tagged<Text>> {
    seq(|s|, i requires 0 <= i < |s| => Tagged(s[i].id, s[i].value.sha256))
  }

  predicate ValidIds<T>(s: seq<Tagged<T>>) {
    s != [] && DistinctIds(s) && forall i :: 0 <= i < |s| ==> s[i].id != []
  }

  /** The sorted logs may all be represented by log i. */
  ghost predicate Accepts(redact: Redactor, s: seq<Tagged<Log>>, choice: Option<Choice>, i: int) {
    && (choice.Some? ==> SortById(choice.value.sources) == LogHashes(s))
    && IsTarget(LogIds(s), LogLengths(s), choice, i)
    && AllAgree(redact, s, i)
    && (choice.None? ==> forall j :: 0 <= j < |s| ==> s[j].value.events <= s[i].value.events)
  }

  ghost predicate IsSelection(redact: Redactor, s: seq<Tagged<Log>>, choice: Option<Choice>, i: int, r: Selection) {
    && Accepts(redact, s, choice, i)
    && r.sourceId == s[i].id && r.log == s[i].value && r.reviewed == choice.Some?
    && |r.sources| == |s|
    && forall j :: 0 <= j < |s| ==> r.sources[j] == EvidenceOf(redact, s[j], s[i].value)
  }

  ghost predicate LogOutcome(redact: Redactor, input: seq<Tagged<Log>>, choice: Option<Choice>, out: Outcome) {
    var s := SortById(input);
    if ValidIds(input) && exists i :: Accepts(redact, s, choice, i)
    then out.Chosen? && exists i :: IsSelection(redact, s, choice, i, out.selection)
    else out == SourceConflict
  }

  /** One retained log against the chosen one: None where they diverge. */
  method Examine(redact: Redactor, source: Tagged<Log>, target: Log) returns (evidence: Option<Evidence>)
    requires |source.value.events| <= |target.events|
    ensures match evidence
      case None => !Agrees(redact, source.value.events, target.events)
      case Some(e) => Agrees(redact, source.value.events, target.events) && e == EvidenceOf(redact, source, target)
  {
    var events := source.value.events;
    var redacted, unredacted, different := false, false, 0;
    for n := 0 to |events|
      invariant forall m :: 0 <= m < n ==> Compare(redact, events[m], target.events[m]) != Conflict
      invariant redacted <==> Tally(redact, events, target.events, n, SelectedRedacted) > 0
      invariant unredacted <==> Tally(redact, events, target.events, n, SelectedUnredacted) > 0
      invariant different == Tally(redact, events, target.events, n, SelectedRedacted)
                           + Tally(redact, events, target.events, n, SelectedUnredacted)
    {
      var original, counterpart := events[n], target.events[n];
      if original.envelope != counterpart.envelope { return None; }
      if original.payload != counterpart.payload {
        different := different + 1;
        if redact(original.payload) == counterpart.payload {
          redacted := true;
        } else if original.payload == redact(counterpart.payload) {
          unredacted := true;
        } else {
          return None;
        }
      }
    }
    var extent := if |events| == |target.events| then EqualExtent else PrefixExtent;
    evidence := Some(Evidence(source.id, source.value.sha256, |events|, extent,
                              Verdict(redacted, unredacted), different));
  }

  /** No differing payload is counted exactly when the shorter log is a literal prefix. */
  lemma {:induction false} NoDifferenceIsPrefix(redact: Redactor, a: seq<LogEvent>, b: seq<LogEvent>, n: nat)
    requires n <= |a| && n <= |b|
    requires forall m :: 0 <= m < n ==> Compare(redact, a[m], b[m]) != Conflict
    ensures Tally(redact, a, b, n, SelectedRedacted) + Tally(redact, a, b, n, SelectedUnredacted) == 0
      <==> a[..n] == b[..n]
  {
    if n > 0 {
      NoDifferenceIsPrefix(redact, a, b, n - 1);
      assert a[..n] == a[..n - 1] + [a[n - 1]] && b[..n] == b[..n - 1] + [b[n - 1]];
      ConflictIsSymmetric(redact, a[n - 1], b[n - 1]);
    }
  }

  method SelectLegacyRepresentation(redact: Redactor, input: seq<Tagged<Log>>, choice: Option<Choice>)
    returns (out: Outcome)
    ensures LogOutcome(redact, input, choice, out)
  {
    if !ValidIds(input) { return SourceConflict; }
    var s := SortById(input);
    SortKeepsIds(input);
    if choice.Some? && SortById(choice.value.sources) != LogHashes(s) { return SourceConflict; }
    var found := FindTarget(LogIds(s), LogLengths(s), choice);
    if found.None? { return SourceConflict; }
    var i := found.value;
    forall j | 0 <= j < |s| ensures |s[j].value.events| <= |s[i].value.events| {
      assert LogLengths(s)[j] <= LogLengths(s)[i];
    }
    forall m | Accepts(redact, s, choice, m) ensures m == i {
      TargetUnique(LogIds(s), LogLengths(s), choice, m, i);
    }
    var evidence, different := ExamineAll(redact, s, i);
    if evidence.None? || (different && choice.None?) { return SourceConflict; }
    out := Chosen(Selection(s[i].id, s[i].value, choice.Some?, evidence.value));
    assert IsSelection(redact, s, choice, i, out.selection);
  }

  ghost predicate AllAgree(redact: Redactor, s: seq<Tagged<Log>>, i: int)
    requires 0 <= i < |s|
  {
    forall j :: 0 <= j < |s| ==>
      s[j].value.kind == s[i].value.kind && Agrees(redact, s[j].value.events, s[i].value.events)
  }

  /** The evidence of one log, and whether it differs in a payload; none if it diverges. */
  method ExamineOne(redact: Redactor, source: Tagged<Log>, target: Log)
    returns (evidence: Option<Evidence>, different: bool)
    requires |source.value.events| <= |target.events|
    ensures evidence.Some? <==>
      source.value.kind == target.kind && Agrees(redact, source.value.events, target.events)
    ensures evidence.Some? ==> evidence.value == EvidenceOf(redact, source, target)
    ensures evidence.Some? ==> (!different <==> source.value.events <= target.events)
  {
    if source.value.kind != target.kind { return None, false; }
    evidence := Examine(redact, source, target);
    if evidence.None? { return None, false; }
    NoDifferenceIsPrefix(redact, source.value.events, target.events, |source.value.events|);
    different := evidence.value.differentPayloads > 0;
  }

  method ExamineAll(redact: Redactor, s: seq<Tagged<Log>>, i: nat)
    returns (evidence: Option<seq<Evidence>>, different: bool)
    requires i < |s| && forall j :: 0 <= j < |s| ==> |s[j].value.events| <= |s[i].value.events|
    ensures evidence.Some? <==> AllAgree(redact, s, i)
    ensures evidence.Some? ==>
      && |evidence.value| == |s|
      && (forall j :: 0 <= j < |s| ==> evidence.value[j] == EvidenceOf(redact, s[j], s[i].value))
      && (!different <==> forall j :: 0 <= j < |s| ==> s[j].value.events <= s[i].value.events)
  {
    hide EvidenceOf, Agrees;
    different := false;
    var entries: seq<Evidence> := [];
    var target := s[i].value;
    for j := 0 to |s|
      invariant |entries| == j
      invariant forall m :: 0 <= m < j ==>
        s[m].value.kind == target.kind && Agrees(redact, s[m].value.events, target.events)
      invariant forall m :: 0 <= m < j ==> entries[m] == EvidenceOf(redact, s[m], target)
      invariant !different <==> forall m :: 0 <= m < j ==> s[m].value.events <= target.events
    {
      var e, differs := ExamineOne(redact, s[j], target);
      if e.None? { return None, different; }
      different := different || differs;
      entries := entries + [e.value];
    }
    evidence := Some(entries);
  }

  lemma SortKeepsIds<T>(s: seq<Tagged<T>>)
    requires ValidIds(s)
    ensures SortById(s) != [] && StrictlySorted(SortById(s))
    ensures forall x :: x in SortById(s) <==> x in s
  {
    IdCount(s);
    SortByIdSorts(s);
    assert Elements(s) == Elements(SortById(s));
    assert s[0] in Elements(s);
    forall x ensures x in SortById(s) <==> x in s {
      assert x in Elements(SortById(s)) <==> x in Elements(s);
    }
  }

  // ------------------------------------------------------------ what selection means

  /** The answer does not depend on the order in which the logs were supplied. */
  lemma RepresentationForgetsOrder(
    redact: Redactor, a: seq<Tagged<Log>>, b: seq<Tagged<Log>>, choice: Option<Choice>, x: Outcome, y: Outcome)
    requires multiset(a) == multiset(b)
    requires LogOutcome(redact, a, choice, x) && LogOutcome(redact, b, choice, y)
    ensures x == y
  {
    hide Accepts, IsSelection, SortById, DistinctIds;
    SortForgetsOrder(a, b);
    ValidIdsForgetsOrder(a, b);
    if x.Chosen? {
      var s := SortById(a);
      var i :| IsSelection(redact, s, choice, i, x.selection);
      var j :| IsSelection(redact, s, choice, j, y.selection);
      SelectionUnique(redact, s, choice, i, j, x.selection, y.selection);
    }
  }

  lemma SelectionUnique(
    redact: Redactor, s: seq<Tagged<Log>>, choice: Option<Choice>, i: int, j: int, x: Selection, y: Selection)
    requires IsSelection(redact, s, choice, i, x) && IsSelection(redact, s, choice, j, y)
    ensures x == y
  {
    TargetUnique(LogIds(s), LogLengths(s), choice, i, j);
    assert x.sources == y.sources;
  }

  lemma ValidIdsForgetsOrder<T>(a: seq<Tagged<T>>, b: seq<Tagged<T>>)
    requires multiset(a) == multiset(b)
    ensures ValidIds(a) <==> ValidIds(b)
  {
    SortForgetsOrder(a, b);
    assert |a| == |multiset(a)| == |multiset(b)| == |b|;
    SameElements(a, b);
    SameElements(b, a);
    assert forall i :: 0 <= i < |a| ==> a[i].id in Ids(b);
    assert forall i :: 0 <= i < |b| ==> b[i].id in Ids(a);
  }

  ghost predicate StandsFor(redact: Redactor, reviewed: bool, kept: LogEvent, given: LogEvent) {
    && kept.envelope == given.envelope
    && (kept == given || (reviewed && (kept.payload == redact(given.payload) || given.payload == redact(kept.payload))))
  }

  /** Nothing retained is lost: every event of every log is stood for at its own position. */
  lemma EverySourceRepresented(
    redact: Redactor, input: seq<Tagged<Log>>, choice: Option<Choice>, out: Outcome, source: Tagged<Log>, n: nat)
    requires LogOutcome(redact, input, choice, out) && out.Chosen?
    requires source in input && n < |source.value.events|
    ensures n < |out.selection.log.events|
    ensures StandsFor(redact, out.selection.reviewed, out.selection.log.events[n], source.value.events[n])
    ensures exists origin <- input :: origin.value == out.selection.log
  {
    SortKeepsIds(input);
    var s := SortById(input);
    var i :| IsSelection(redact, s, choice, i, out.selection);
    assert source in s && s[i] in s;
    var j :| 0 <= j < |s| && s[j] == source;
    AgreementStandsFor(redact, s[j].value.events, s[i].value.events, choice.Some?, n);
  }

  lemma AgreementStandsFor(redact: Redactor, given: seq<LogEvent>, kept: seq<LogEvent>, reviewed: bool, n: nat)
    requires Agrees(redact, given, kept) && (!reviewed ==> given <= kept) && n < |given|
    ensures StandsFor(redact, reviewed, kept[n], given[n])
  {
    assert Compare(redact, given[n], kept[n]) != Conflict;
  }

  /**
   * Without a reviewed choice the logs are accepted exactly when they have one kind
   * and all are literal prefixes of one of them.
   */
  lemma UnreviewedExactlyPrefixes(redact: Redactor, input: seq<Tagged<Log>>, out: Outcome)
    requires LogOutcome(redact, input, None, out) && ValidIds(input)
    ensures out.Chosen? <==> exists whole <- input :: forall x <- input ::
      x.value.kind == whole.value.kind && x.value.events <= whole.value.events
  {
    hide SortById, DistinctIds;
    SortKeepsIds(input);
    var s := SortById(input);
    if out.Chosen? {
      var i :| IsSelection(redact, s, None, i, out.selection);
      AcceptedArePrefixes(redact, s, i);
      assert s[i] in s && s[i] in input;
    }
    if whole :| whole in input && forall x <- input ::
      x.value.kind == whole.value.kind && x.value.events <= whole.value.events
    {
      PrefixesAreAccepted(redact, s, whole);
    }
  }

  lemma AcceptedArePrefixes(redact: Redactor, s: seq<Tagged<Log>>, i: int)
    requires Accepts(redact, s, None, i)
    ensures forall x <- s :: x.value.kind == s[i].value.kind && x.value.events <= s[i].value.events
  {
    forall x <- s ensures x.value.kind == s[i].value.kind && x.value.events <= s[i].value.events {
      var j :| 0 <= j < |s| && s[j] == x;
    }
  }

  lemma PrefixesAreAccepted(redact: Redactor, s: seq<Tagged<Log>>, whole: Tagged<Log>)
    requires whole in s
    requires forall x <- s :: x.value.kind == whole.value.kind && x.value.events <= whole.value.events
    ensures exists i :: Accepts(redact, s, None, i)
  {
    var i := FirstLongestExists(LogLengths(s));
    var w :| 0 <= w < |s| && s[w] == whole;
    assert LogLengths(s)[w] <= LogLengths(s)[i];
    assert s[i] in s;
    assert s[i].value.events == whole.value.events;
    forall j | 0 <= j < |s| ensures s[j].value.kind == s[i].value.kind && s[j].value.events <= s[i].value.events {
      assert s[j] in s;
    }
    assert Accepts(redact, s, None, i);
  }

  lemma {:induction false} FirstLongestExists(lengths: seq<nat>) returns (i: nat)
    requires lengths != []
    ensures IsFirstLongest(lengths, i)
  {
    var n := |lengths| - 1;
    if n == 0 {
      i := 0;
    } else {
      i := FirstLongestExists(lengths[..n]);
      if lengths[n] > lengths[i] { i := n; }
    }
  }

  // ------------------------------------------------------------ what a reviewed choice takes

  /** An identity and a hash for each log. */
  function Manifest(logs: seq<Tagged<Log>>): seq<Tagged<Text>> {
    seq(|logs|, i requires 0 <= i < |logs| => Tagged(logs[i].id, logs[i].value.sha256))
  }

  lemma {:induction false} InsertHash(x: Tagged<Log>, s: seq<Tagged<Log>>)
    ensures LogHashes(Insert(x, s)) == Insert(Tagged(x.id, x.value.sha256), LogHashes(s))
  {
    if s != [] && Before(s[0].id, x.id) {
      InsertHash(x, s[1..]);
      assert LogHashes(s)[1..] == LogHashes(s[1..]);
      assert LogHashes(Insert(x, s)) == [LogHashes(s)[0]] + LogHashes(Insert(x, s[1..]));
    }
  }

  lemma {:induction false} SortedHashes(s: seq<Tagged<Log>>)
    ensures LogHashes(SortById(s)) == SortById(Manifest(s))
  {
    if s != [] {
      SortedHashes(s[1..]);
      assert Manifest(s)[1..] == Manifest(s[1..]);
      InsertHash(s[0], SortById(s[1..]));
    }
  }

  lemma {:induction false} InsertKeepsCount<T>(x: Tagged<T>, s: seq<Tagged<T>>)
    ensures multiset(Insert(x, s)) == multiset(s) + multiset{x}
  {
    if s != [] && Before(s[0].id, x.id) {
      InsertKeepsCount(x, s[1..]);
      assert s == [s[0]] + s[1..];
    }
  }

  lemma {:induction false} SortKeepsCount<T>(s: seq<Tagged<T>>)
    ensures multiset(SortById(s)) == multiset(s)
  {
    if s != [] {
      SortKeepsCount(s[1..]);
      InsertKeepsCount(s[0], SortById(s[1..]));
      assert s == [s[0]] + s[1..];
    }
  }

  lemma SameManifest(sources: seq<Tagged<Text>>, input: seq<Tagged<Log>>)
    requires ValidIds(input)
    ensures SortById(sources) == LogHashes(SortById(input)) <==> multiset(sources) == multiset(Manifest(input))
  {
    var m := Manifest(input);
    SortedHashes(input);
    SortKeepsCount(sources);
    SortKeepsCount(m);
    assert Ids(m) == Ids(input) by {
      assert forall i :: 0 <= i < |input| ==> m[i].id == input[i].id;
    }
    if multiset(sources) == multiset(m) { SortForgetsOrder(m, sources); }
  }

  /** The log that a choice names starts with all the others, as far as kinds and redaction go. */
  ghost predicate NamedTarget(redact: Redactor, input: seq<Tagged<Log>>, name: Text, target: Tagged<Log>) {
    && target in input && target.id == name
    && forall x <- input :: x.value.kind == target.value.kind && Agrees(redact, x.value.events, target.value.events)
  }

  lemma AcceptsNamed(redact: Redactor, input: seq<Tagged<Log>>, c: Choice, i: int)
    requires ValidIds(input) && Accepts(redact, SortById(input), Some(c), i)
    ensures NamedTarget(redact, input, c.sourceId, SortById(input)[i])
  {
    hide Agrees, SortById, DistinctIds;
    SortKeepsIds(input);
    var s := SortById(input);
    forall x <- input ensures x.value.kind == s[i].value.kind && Agrees(redact, x.value.events, s[i].value.events) {
      assert x in s;
      var j :| 0 <= j < |s| && s[j] == x;
    }
    assert s[i] in s;
  }

  lemma NamedIsAccepted(redact: Redactor, input: seq<Tagged<Log>>, c: Choice, target: Tagged<Log>) returns (i: nat)
    requires ValidIds(input) && SortById(c.sources) == LogHashes(SortById(input))
    requires NamedTarget(redact, input, c.sourceId, target)
    ensures Accepts(redact, SortById(input), Some(c), i)
  {
    hide SortById, DistinctIds;
    SortKeepsIds(input);
    var s := SortById(input);
    assert target in s;
    i :| 0 <= i < |s| && s[i] == target;
    forall j | 0 <= j < |s|
      ensures s[j].value.kind == target.value.kind && Agrees(redact, s[j].value.events, target.value.events)
    {
      assert s[j] in s;
    }
    forall j | 0 <= j < i ensures s[j].id != c.sourceId { BeforeIsStrictTotal(s[j].id, s[i].id); }
  }

  /**
   * With a reviewed choice the logs are accepted exactly when it lists each of them with its hash, and
   * nothing else, and the log it names agrees with all the others and is no shorter.
   */
  lemma ReviewedExactlyListed(redact: Redactor, input: seq<Tagged<Log>>, c: Choice, out: Outcome)
    requires LogOutcome(redact, input, Some(c), out) && ValidIds(input)
    ensures out.Chosen? <==>
      && multiset(c.sources) == multiset(Manifest(input))
      && exists target :: NamedTarget(redact, input, c.sourceId, target)
  {
    hide SortById, DistinctIds, NamedTarget, IsTarget, AllAgree, Manifest;
    SameManifest(c.sources, input);
    if out.Chosen? {
      var i :| IsSelection(redact, SortById(input), Some(c), i, out.selection);
      AcceptsNamed(redact, input, c, i);
    }
    if target :| NamedTarget(redact, input, c.sourceId, target) && multiset(c.sources) == multiset(Manifest(input)) {
      var i := NamedIsAccepted(redact, input, c, target);
    }
  }
}
