/** What a selected representation says of the logs supplied, told from the result and the logs alone. */
module RepresentationOutcomes {
  import opened Options
  import opened Sequences
  import opened CodeUnits
  import opened Representation

  /** Where the kept log has another payload. */
  function Differing(given: seq<LogEvent>, kept: seq<LogEvent>): set<nat>
    requires |given| <= |kept|
  {
    set n: nat | n < |given| && given[n].payload != kept[n].payload
  }

  /** Where the kept payload is the redaction of another one. */
  function KeptRedacted(redact: Redactor, given: seq<LogEvent>, kept: seq<LogEvent>): set<nat>
    requires |given| <= |kept|
  {
    set n: nat | n < |given| && given[n].payload != kept[n].payload == redact(given[n].payload)
  }

  function PlacesOf(redact: Redactor, given: seq<LogEvent>, kept: seq<LogEvent>, n: nat, relation: Relation): set<nat>
    requires n <= |given| && n <= |kept|
  {
    set m: nat | m < n && Compare(redact, given[m], kept[m]) == relation
  }

  lemma {:induction false} TallyCounts(
    redact: Redactor, given: seq<LogEvent>, kept: seq<LogEvent>, n: nat, relation: Relation)
    requires n <= |given| && n <= |kept|
    ensures Tally(redact, given, kept, n, relation) == |PlacesOf(redact, given, kept, n, relation)|
  {
    hide Compare, PlacesOf;
    if n == 0 {
      NoPlaces(redact, given, kept, relation);
    } else {
      TallyCounts(redact, given, kept, n - 1, relation);
      OneMorePlace(redact, given, kept, n - 1, relation);
    }
  }

  lemma NoPlaces(redact: Redactor, given: seq<LogEvent>, kept: seq<LogEvent>, relation: Relation)
    ensures PlacesOf(redact, given, kept, 0, relation) == {}
  {
  }

  lemma OneMorePlace(redact: Redactor, given: seq<LogEvent>, kept: seq<LogEvent>, n: nat, relation: Relation)
    requires n < |given| && n < |kept|
    ensures |PlacesOf(redact, given, kept, n + 1, relation)| ==
      |PlacesOf(redact, given, kept, n, relation)| + if Compare(redact, given[n], kept[n]) == relation then 1 else 0
  {
    hide Compare;
    assert PlacesOf(redact, given, kept, n + 1, relation) == PlacesOf(redact, given, kept, n, relation)
      + if Compare(redact, given[n], kept[n]) == relation then {n} else {};
  }

  /** Of agreeing logs, every differing payload is a redaction of one side or the other. */
  lemma DifferencesCounted(redact: Redactor, given: seq<LogEvent>, kept: seq<LogEvent>)
    requires Agrees(redact, given, kept)
    ensures Tally(redact, given, kept, |given|, SelectedRedacted) == |KeptRedacted(redact, given, kept)|
    ensures Tally(redact, given, kept, |given|, SelectedUnredacted) ==
      |Differing(given, kept) - KeptRedacted(redact, given, kept)|
    ensures |Differing(given, kept)| ==
      |KeptRedacted(redact, given, kept)| + |Differing(given, kept) - KeptRedacted(redact, given, kept)|
  {
    var n := |given|;
    var redacted, unredacted := PlacesOf(redact, given, kept, n, SelectedRedacted),
      PlacesOf(redact, given, kept, n, SelectedUnredacted);
    TallyCounts(redact, given, kept, n, SelectedRedacted);
    TallyCounts(redact, given, kept, n, SelectedUnredacted);
    forall m | 0 <= m < n ensures Compare(redact, given[m], kept[m]) != Conflict {}
    assert redacted == KeptRedacted(redact, given, kept);
    assert unredacted == Differing(given, kept) - KeptRedacted(redact, given, kept);
    assert Differing(given, kept) == redacted + unredacted && redacted !! unredacted;
  }

  /** What the evidence on one log says of it. */
  ghost predicate Tells(redact: Redactor, e: Evidence, given: Tagged<Log>, kept: Log)
    requires |given.value.events| <= |kept.events|
  {
    var a, b := given.value.events, kept.events;
    var redacted := KeptRedacted(redact, a, b);
    && e.sourceId == given.id && e.sha256 == given.value.sha256 && e.records == |a|
    && (e.extent == EqualExtent <==> |a| == |b|)
    && e.differentPayloads == |Differing(a, b)|
    && (e.fidelity == SameFidelity <==> Differing(a, b) == {})
    && (e.fidelity == RedactedFidelity <==> Differing(a, b) == redacted != {})
    && (e.fidelity == UnredactedFidelity <==> Differing(a, b) != {} && redacted == {})
  }

  lemma EmptyExactly(s: set<nat>)
    ensures |s| == 0 <==> s == {}
  {
  }

  lemma EvidenceIsTold(redact: Redactor, given: Tagged<Log>, kept: Log)
    requires Agrees(redact, given.value.events, kept.events)
    ensures Tells(redact, EvidenceOf(redact, given, kept), given, kept)
  {
    hide Tally, Differing, KeptRedacted, Agrees;
    var a, b := given.value.events, kept.events;
    DifferencesCounted(redact, a, b);
    LongEnough(redact, a, b);
    EmptyExactly(KeptRedacted(redact, a, b));
    EmptyExactly(Differing(a, b));
    EmptyExactly(Differing(a, b) - KeptRedacted(redact, a, b));
    RedactedDiffers(redact, a, b);
  }

  lemma LongEnough(redact: Redactor, a: seq<LogEvent>, b: seq<LogEvent>)
    requires Agrees(redact, a, b)
    ensures |a| <= |b|
  {
  }

  lemma RedactedDiffers(redact: Redactor, a: seq<LogEvent>, b: seq<LogEvent>)
    requires |a| <= |b|
    ensures KeptRedacted(redact, a, b) <= Differing(a, b)
  {
  }

  /** The log kept: the one that was named, or else the first by identity of the longest. */
  ghost predicate IsKept(input: seq<Tagged<Log>>, choice: Option<Choice>, kept: Tagged<Log>) {
    && kept in input
    && match choice
       case Some(c) => kept.id == c.sourceId
       case None => forall s <- input :: s == kept || IsPreferred(kept, s)
  }

  predicate IsPreferred(a: Tagged<Log>, b: Tagged<Log>) {
    || |b.value.events| < |a.value.events|
    || (|b.value.events| == |a.value.events| && Before(a.id, b.id))
  }

  /** Evidence on every log, by identity. */
  ghost predicate TellsAll(redact: Redactor, input: seq<Tagged<Log>>, kept: Log, sources: seq<Evidence>) {
    && |sources| == |input|
    && (forall i, j :: 0 <= i < j < |sources| ==> Before(sources[i].sourceId, sources[j].sourceId))
    && forall s <- input :: |s.value.events| <= |kept.events| && exists e <- sources :: Tells(redact, e, s, kept)
  }

  lemma TargetIsKept(redact: Redactor, input: seq<Tagged<Log>>, choice: Option<Choice>, i: int)
    requires ValidIds(input) && Accepts(redact, SortById(input), choice, i)
    ensures IsKept(input, choice, SortById(input)[i])
  {
    hide SortById, DistinctIds, Before, AllAgree;
    SortKeepsIds(input);
    var s := SortById(input);
    assert s[i] in s;
    if choice.None? {
      forall x <- input ensures x == s[i] || IsPreferred(s[i], x) {
        assert x in s;
        var j :| 0 <= j < |s| && s[j] == x;
        assert LogLengths(s)[j] <= LogLengths(s)[i] && (j < i ==> LogLengths(s)[j] < LogLengths(s)[i]);
      }
    }
  }

  lemma {:induction false} SortKeepsLength<T>(s: seq<Tagged<T>>)
    ensures |SortById(s)| == |s|
  {
    SortKeepsCount(s);
    assert |multiset(SortById(s))| == |multiset(s)|;
  }

  /**
   * A selection keeps the log that was named, or else the first of the longest, and says of every log
   * how far it goes, how many payloads differ, and which side's redaction accounts for them.
   */
  lemma SelectionTells(redact: Redactor, input: seq<Tagged<Log>>, choice: Option<Choice>, r: Selection)
    requires LogOutcome(redact, input, choice, Chosen(r))
    ensures r.reviewed == choice.Some?
    ensures exists kept <- input :: kept == Tagged(r.sourceId, r.log) && IsKept(input, choice, kept)
    ensures TellsAll(redact, input, r.log, r.sources)
  {
    hide SortById, DistinctIds, IsKept, TellsAll, Accepts, EvidenceOf;
    var s := SortById(input);
    var i :| IsSelection(redact, s, choice, i, r);
    TargetIsKept(redact, input, choice, i);
    TargetInBounds(redact, s, choice, i);
    SortKeepsIds(input);
    assert s[i] in s && s[i] == Tagged(r.sourceId, r.log);
    forall j | 0 <= j < |s| ensures |s[j].value.events| <= |s[i].value.events| { LogAgrees(redact, s, choice, i, j); }
    AllTold(redact, input, choice, i, r.sources);
  }

  lemma TargetInBounds(redact: Redactor, s: seq<Tagged<Log>>, choice: Option<Choice>, i: int)
    requires Accepts(redact, s, choice, i)
    ensures 0 <= i < |s|
  {
  }

  lemma LogAgrees(redact: Redactor, s: seq<Tagged<Log>>, choice: Option<Choice>, i: int, j: nat)
    requires Accepts(redact, s, choice, i) && j < |s|
    ensures 0 <= i < |s| && Agrees(redact, s[j].value.events, s[i].value.events)
    ensures |s[j].value.events| <= |s[i].value.events|
  {
  }

  lemma AllTold(redact: Redactor, input: seq<Tagged<Log>>, choice: Option<Choice>, i: nat, sources: seq<Evidence>)
    requires ValidIds(input) && Accepts(redact, SortById(input), choice, i) && i < |SortById(input)|
    requires |sources| == |SortById(input)|
    requires forall j :: 0 <= j < |sources| ==>
      && |SortById(input)[j].value.events| <= |SortById(input)[i].value.events|
      && sources[j] == EvidenceOf(redact, SortById(input)[j], SortById(input)[i].value)
    ensures TellsAll(redact, input, SortById(input)[i].value, sources)
  {
    hide SortById, DistinctIds, EvidenceOf, Tells, Before, Agrees, Accepts;
    var s := SortById(input);
    var kept := s[i].value;
    SortKeepsIds(input);
    SortKeepsLength(input);
    forall x <- input ensures |x.value.events| <= |kept.events| && exists e <- sources :: Tells(redact, e, x, kept) {
      assert x in s;
      var j :| 0 <= j < |s| && s[j] == x;
      LogAgrees(redact, s, choice, i, j);
      EvidenceIsTold(redact, x, kept);
      assert sources[j] in sources;
    }
    forall j | 0 <= j < |sources| ensures sources[j].sourceId == s[j].id { NamesItsLog(redact, s[j], kept); }
  }

  lemma NamesItsLog(redact: Redactor, given: Tagged<Log>, kept: Log)
    requires |given.value.events| <= |kept.events|
    ensures EvidenceOf(redact, given, kept).sourceId == given.id
  {
  }
}
