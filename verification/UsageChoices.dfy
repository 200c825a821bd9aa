/**
 * How a reviewed choice for one key decides its record, and what each record says of the copies of its
 * key, told from the result, the ledgers and the choices alone.
 */
module UsageChoices {
  import opened Options
  import opened Sequences
  import opened CodeUnits
  import opened PrecedenceOrder
  import opened Representation
  import opened RepresentationOutcomes
  import opened UsageHistory
  import opened UsageSelection
  import opened UsageTheorems
  import opened UsageAccount
  import opened UsageOutcomes

  /** What a ledger has of a key, as it is compared. */
  function LogFor(p: Policy, s: Source, k: Key): seq<LogEvent> {
    Logs(EventsFor(p, s.value.events, k))
  }

  predicate Holds(p: Policy, s: Source, k: Key) {
    LogFor(p, s, k) != []
  }

  // ------------------------------------------------------------------------ the choices for a key

  ghost predicate IsFor(reviewed: seq<KeyedChoice>, i: int, k: Key) {
    0 <= i < |reviewed| && reviewed[i].key == k
  }

  /** No two choices are for the key. */
  ghost predicate ChosenOnce(reviewed: seq<KeyedChoice>, k: Key) {
    forall i, j :: IsFor(reviewed, i, k) && IsFor(reviewed, j, k) ==> i == j
  }

  /** No choice is for the key. */
  ghost predicate Unchosen(reviewed: seq<KeyedChoice>, k: Key) {
    forall c <- reviewed :: c.key != k
  }

  lemma UnchosenExactly(reviewed: seq<KeyedChoice>, k: Key)
    ensures Unchosen(reviewed, k) <==> forall i :: !IsFor(reviewed, i, k)
  {
    if i :| IsFor(reviewed, i, k) { assert reviewed[i] in reviewed; }
    if c :| c in reviewed && c.key == k {
      var i :| 0 <= i < |reviewed| && reviewed[i] == c;
      assert IsFor(reviewed, i, k);
    }
  }

  lemma OneMoreFor(reviewed: seq<KeyedChoice>, i: int, k: Key)
    requires reviewed != []
    ensures IsFor(reviewed, i, k) <==> if i == 0 then reviewed[0].key == k else IsFor(reviewed[1..], i - 1, k)
  {
  }

  lemma OneMoreChoice(reviewed: seq<KeyedChoice>, k: Key)
    requires reviewed != []
    ensures Unchosen(reviewed, k) <==> reviewed[0].key != k && Unchosen(reviewed[1..], k)
    ensures ChosenOnce(reviewed, k) <==>
      ChosenOnce(reviewed[1..], k) && (reviewed[0].key == k ==> Unchosen(reviewed[1..], k))
  {
    hide Unchosen, IsFor;
    var rest := reviewed[1..];
    UnchosenExactly(reviewed, k);
    UnchosenExactly(rest, k);
    OneMoreFor(reviewed, 0, k);
    forall i | IsFor(reviewed, i, k) ensures if i == 0 then reviewed[0].key == k else IsFor(rest, i - 1, k) {
      OneMoreFor(reviewed, i, k);
    }
    forall i | IsFor(rest, i, k) ensures i >= 0 && IsFor(reviewed, i + 1, k) { RestFor(reviewed, i, k); }
    if ChosenOnce(rest, k) && (reviewed[0].key == k ==> Unchosen(rest, k)) {
      forall i, j | IsFor(reviewed, i, k) && IsFor(reviewed, j, k) ensures i == j {
        if i != 0 { assert IsFor(rest, i - 1, k); }
        if j != 0 { assert IsFor(rest, j - 1, k); }
      }
    }
  }

  lemma RestFor(reviewed: seq<KeyedChoice>, i: int, k: Key)
    requires reviewed != []
    ensures IsFor(reviewed[1..], i, k) ==> IsFor(reviewed, i + 1, k) && i >= 0
  {
  }

  lemma {:induction false} ChoicesCounted(reviewed: seq<KeyedChoice>, k: Key)
    ensures ChoicesFor(reviewed, k) == [] <==> Unchosen(reviewed, k)
    ensures |ChoicesFor(reviewed, k)| <= 1 <==> ChosenOnce(reviewed, k)
  {
    if reviewed != [] {
      hide Unchosen, ChosenOnce;
      ChoicesCounted(reviewed[1..], k);
      OneMoreChoice(reviewed, k);
    }
  }

  lemma {:induction false} ChoiceFound(reviewed: seq<KeyedChoice>, c: KeyedChoice)
    requires c in reviewed && |ChoicesFor(reviewed, c.key)| <= 1
    ensures ChoicesFor(reviewed, c.key) == [c.choice]
  {
    if c != reviewed[0] {
      ChoiceFound(reviewed[1..], c);
    } else {
      ChoicesCounted(reviewed[1..], c.key);
    }
  }

  // ------------------------------------------------------------------------ the copies of a key

  lemma {:induction false} CopiesSorted(p: Policy, sources: seq<Source>, k: Key)
    requires StrictlySorted(sources)
    ensures forall i, j :: 0 <= i < j < |Copies(p, sources, k)| ==>
      Before(Copies(p, sources, k)[i].source.id, Copies(p, sources, k)[j].source.id)
  {
    hide Before, EventsFor;
    if sources != [] {
      var n := |sources| - 1;
      CopiesSorted(p, sources[..n], k);
      CopiesExactly(p, sources[..n], k);
      forall c <- Copies(p, sources[..n], k) ensures Before(c.source.id, sources[n].id) {
        var i :| 0 <= i < n && sources[..n][i] == c.source;
        assert sources[i] == c.source;
      }
    }
  }

  lemma CopiesAreHeld(p: Policy, sources: seq<Source>, k: Key)
    ensures forall s <- sources :: Holds(p, s, k) <==> Copy(s, EventsFor(p, s.value.events, k)) in Copies(p, sources, k)
    ensures forall c <- Copies(p, sources, k) ::
      c.source in sources && Holds(p, c.source, k) && c.events == EventsFor(p, c.source.value.events, k)
  {
    CopiesExactly(p, sources, k);
  }

  // ------------------------------------------------------------------------ what a choice must list

  /** A choice lists each ledger that has the key, with its hash, once and nothing else. */
  ghost predicate ListsHolders(p: Policy, sources: seq<Source>, k: Key, list: seq<Tagged<Text>>) {
    && Distinct(list)
    && forall t :: t in list <==> exists s <- sources :: Holds(p, s, k) && t == Tagged(s.id, s.value.sha256)
  }

  lemma {:induction false} OnceEach<T>(s: seq<T>)
    ensures Distinct(s) <==> forall x :: multiset(s)[x] <= 1
  {
    if s != [] {
      var front, last := s[..|s| - 1], s[|s| - 1];
      OnceEach(front);
      OnceMore(front, last);
      assert s == front + [last];
    }
  }

  lemma OnceMore<T>(front: seq<T>, last: T)
    ensures multiset(front + [last]) == multiset(front) + multiset{last}
    ensures Distinct(front + [last]) <==> Distinct(front) && last !in front
    ensures (forall x :: multiset(front + [last])[x] <= 1) <==>
      (forall x :: multiset(front)[x] <= 1) && last !in front
  {
    var s := front + [last];
    assert forall i :: 0 <= i < |front| ==> s[i] == front[i];
    assert s[|front|] == last;
    assert last in front <==> multiset(front)[last] > 0;
    forall x ensures multiset(s)[x] == multiset(front)[x] + if x == last then 1 else 0 {}
    if forall x :: multiset(s)[x] <= 1 {
      forall x ensures multiset(front)[x] <= 1 { assert multiset(s)[x] <= 1; }
      assert multiset(s)[last] <= 1;
    }
  }

  /** A list sorts to another one, sorted already, exactly when it has its elements, once each. */
  lemma SortsTo<T>(list: seq<Tagged<T>>, sorted: seq<Tagged<T>>)
    requires StrictlySorted(sorted) && DistinctIds(sorted)
    ensures SortById(list) == sorted <==> Distinct(list) && forall t :: t in list <==> t in sorted
  {
    hide SortById, DistinctIds;
    IdCount(sorted);
    SortByIdSorts(sorted);
    StrictlySortedUnique(SortById(sorted), sorted);
    SortKeepsCount(list);
    assert Distinct(sorted);
    if SortById(list) == sorted {
      OnceEach(list);
      OnceEach(sorted);
      forall t ensures t in list <==> t in sorted { assert t in multiset(list) <==> t in multiset(sorted); }
    }
    if Distinct(list) && forall t :: t in list <==> t in sorted {
      SameOnce(list, sorted);
      SortForgetsOrder(sorted, list);
    }
  }

  lemma SameOnce<T>(a: seq<T>, b: seq<T>)
    requires Distinct(a) && Distinct(b) && forall t :: t in a <==> t in b
    ensures multiset(a) == multiset(b)
  {
    hide Distinct;
    OnceEach(a);
    OnceEach(b);
    forall t ensures multiset(a)[t] == multiset(b)[t] {
      assert t in a <==> t in b;
      assert t in a <==> t in multiset(a);
      assert t in b <==> t in multiset(b);
    }
  }

  lemma {:induction false} SortedDistinct<T>(s: seq<Tagged<T>>)
    requires StrictlySorted(s)
    ensures DistinctIds(s)
  {
    if s != [] {
      var front, last := s[..|s| - 1], s[|s| - 1];
      SortedDistinct(front);
      if last.id in Ids(front) {
        var i :| 0 <= i < |front| && front[i].id == last.id;
        BeforeIsStrictTotal(s[i].id, last.id);
      }
      forall id ensures id in Ids(s) <==> id in Ids(front) || id == last.id {
        if i :| 0 <= i < |front| && front[i].id == id { assert s[i].id == id; }
        if id == last.id { assert s[|s| - 1].id == id; }
      }
      assert Ids(s) == Ids(front) + {last.id};
    }
  }

  lemma ListsExactly(p: Policy, sources: seq<Source>, k: Key, list: seq<Tagged<Text>>)
    requires StrictlySorted(sources)
    ensures SortById(list) == LogHashes(CopyLogs(Copies(p, sources, k))) <==> ListsHolders(p, sources, k, list)
  {
    hide SortById, DistinctIds, Copies, EventsFor, Before, Holds;
    var copies := Copies(p, sources, k);
    var hashes := LogHashes(CopyLogs(copies));
    CopiesSorted(p, sources, k);
    CopiesAreHeld(p, sources, k);
    assert forall i :: 0 <= i < |hashes| ==> hashes[i] == Tagged(copies[i].source.id, copies[i].source.value.sha256);
    SortedDistinct(hashes);
    SortsTo(list, hashes);
    forall t ensures t in hashes <==> exists s <- sources :: Holds(p, s, k) && t == Tagged(s.id, s.value.sha256) {
      HashOfHolder(p, sources, k, t);
    }
  }

  lemma HashOfHolder(p: Policy, sources: seq<Source>, k: Key, t: Tagged<Text>)
    ensures t in LogHashes(CopyLogs(Copies(p, sources, k))) <==>
      exists s <- sources :: Holds(p, s, k) && t == Tagged(s.id, s.value.sha256)
  {
    hide Copies, EventsFor, Holds;
    var copies := Copies(p, sources, k);
    var hashes := LogHashes(CopyLogs(copies));
    CopiesAreHeld(p, sources, k);
    if s :| s in sources && Holds(p, s, k) && t == Tagged(s.id, s.value.sha256) {
      var i :| 0 <= i < |copies| && copies[i] == Copy(s, EventsFor(p, s.value.events, k));
      assert hashes[i] == t;
    }
    if t in hashes {
      var i :| 0 <= i < |hashes| && hashes[i] == t;
      assert copies[i] in copies;
    }
  }

  // ------------------------------------------------------------------------ when a key has a record

  /** A ledger may stand for a key: what others have of it starts it, or agrees with it if it was chosen. */
  ghost predicate MayStand(p: Policy, sources: seq<Source>, reviewed: seq<KeyedChoice>, k: Key, kept: Source) {
    && kept in sources && Holds(p, kept, k)
    && (Unchosen(reviewed, k) ==> forall s <- sources :: LogFor(p, s, k) <= LogFor(p, kept, k))
    && (!Unchosen(reviewed, k) ==> forall s <- sources :: Agrees(p.redact, LogFor(p, s, k), LogFor(p, kept, k)))
    && forall c <- reviewed :: c.key == k ==>
      c.choice.sourceId == kept.id && ListsHolders(p, sources, k, c.choice.sources)
  }

  /** Of the ledgers that may stand for a key, a record is from the first. */
  ghost predicate StandsFirst(p: Policy, sources: seq<Source>, k: Key, kept: Source) {
    forall s <- sources :: s == kept
      || |LogFor(p, s, k)| < |LogFor(p, kept, k)|
      || (|LogFor(p, s, k)| == |LogFor(p, kept, k)| && Before(kept.id, s.id))
  }

  lemma AcceptsIsPick(p: Policy, sources: seq<Source>, reviewed: seq<KeyedChoice>, k: Key, i: int) returns (r: Pick)
    requires KeyAccepts(p, Copies(p, sources, k), ChoicesFor(reviewed, k), i)
    ensures HasPick(p, sources, reviewed, k, r) && r.source == Copies(p, sources, k)[i].source
  {
    hide Copies, EventsFor, ChoicesFor, Accepts, Tally;
    CopiesOfKnownKeys(p, sources, k);
    var copies, choices := Copies(p, sources, k), ChoicesFor(reviewed, k);
    AcceptedFits(p, copies, choices, i);
    var logs, target := CopyLogs(copies), copies[i];
    assert target in copies;
    var event := target.events[|target.events| - 1];
    var fidelity := seq(|copies|, j requires 0 <= j < |copies| => FidelityOf(p.redact, logs[j], logs[i].value));
    r := Pick(target.source, event,
      Record(k, target.source.id, event.ordinal, event.event.envelope.eventId, choices != [], fidelity));
    assert IsPick(p, k, copies, choices, i, r);
  }

  lemma AcceptedFits(p: Policy, copies: seq<Copy>, choices: seq<Choice>, i: int)
    requires KeyAccepts(p, copies, choices, i)
    ensures 0 <= i < |copies|
    ensures forall j :: 0 <= j < |copies| ==> |CopyLogs(copies)[j].value.events| <= |CopyLogs(copies)[i].value.events|
  {
    var logs := CopyLogs(copies);
    forall j | 0 <= j < |copies| ensures |logs[j].value.events| <= |logs[i].value.events| {
      assert Agrees(p.redact, logs[j].value.events, logs[i].value.events);
    }
  }

  /** Where the log of a ledger that has the key stands among those compared. */
  lemma LogAmong(p: Policy, sources: seq<Source>, k: Key, s: Source) returns (j: nat)
    requires s in sources && Holds(p, s, k)
    ensures j < |Copies(p, sources, k)| && Copies(p, sources, k)[j].source == s
    ensures CopyLogs(Copies(p, sources, k))[j] == Tagged(s.id, Log(UsageLog, s.value.sha256, LogFor(p, s, k)))
  {
    hide Copies, EventsFor;
    CopiesExactly(p, sources, k);
    var copies, own := Copies(p, sources, k), Copy(s, EventsFor(p, s.value.events, k));
    assert |LogFor(p, s, k)| == |own.events| && own in copies;
    j :| 0 <= j < |copies| && copies[j] == own;
  }

  /** Each of the logs compared is that of a ledger. */
  lemma LogOfCopy(p: Policy, sources: seq<Source>, k: Key, j: nat)
    requires j < |Copies(p, sources, k)|
    ensures var s := Copies(p, sources, k)[j].source;
      && s in sources && Holds(p, s, k)
      && CopyLogs(Copies(p, sources, k))[j] == Tagged(s.id, Log(UsageLog, s.value.sha256, LogFor(p, s, k)))
  {
    hide Copies, EventsFor;
    CopiesExactly(p, sources, k);
    assert Copies(p, sources, k)[j] in Copies(p, sources, k);
  }

  lemma AllOthersAgree(p: Policy, sources: seq<Source>, k: Key, choice: Option<Choice>, i: int, s: Source)
    requires Accepts(p.redact, CopyLogs(Copies(p, sources, k)), choice, i) && s in sources
    ensures 0 <= i < |Copies(p, sources, k)|
    ensures var kept := Copies(p, sources, k)[i].source;
      && Agrees(p.redact, LogFor(p, s, k), LogFor(p, kept, k))
      && (choice.None? ==> LogFor(p, s, k) <= LogFor(p, kept, k))
  {
    hide Copies, EventsFor, LogFor;
    LogOfCopy(p, sources, k, i);
    if Holds(p, s, k) {
      var j := LogAmong(p, sources, k, s);
      assert Agrees(p.redact, LogFor(p, s, k), LogFor(p, Copies(p, sources, k)[i].source, k));
    }
  }

  lemma AcceptedStands(p: Policy, sources: seq<Source>, reviewed: seq<KeyedChoice>, k: Key, i: int)
    requires StrictlySorted(sources) && KeyAccepts(p, Copies(p, sources, k), ChoicesFor(reviewed, k), i)
    ensures 0 <= i < |Copies(p, sources, k)| && MayStand(p, sources, reviewed, k, Copies(p, sources, k)[i].source)
  {
    hide Copies, EventsFor, ChoicesFor, Agrees, ListsHolders, SortById, LogHashes, LogFor, AllAgree;
    var choices := ChoicesFor(reviewed, k);
    ChoicesCounted(reviewed, k);
    LogOfCopy(p, sources, k, i);
    var kept := Copies(p, sources, k)[i].source;
    forall c <- reviewed | c.key == k
      ensures c.choice.sourceId == kept.id && ListsHolders(p, sources, k, c.choice.sources)
    {
      ChoiceFound(reviewed, c);
      ListsExactly(p, sources, k, c.choice.sources);
    }
    forall s <- sources
      ensures Agrees(p.redact, LogFor(p, s, k), LogFor(p, kept, k))
      ensures choices == [] ==> LogFor(p, s, k) <= LogFor(p, kept, k)
    {
      AllOthersAgree(p, sources, k, FirstChoice(choices), i, s);
    }
  }

  lemma StandingIsAccepted(p: Policy, sources: seq<Source>, reviewed: seq<KeyedChoice>, k: Key, kept: Source)
    returns (i: int)
    requires StrictlySorted(sources) && ChosenOnce(reviewed, k) && MayStand(p, sources, reviewed, k, kept)
    ensures KeyAccepts(p, Copies(p, sources, k), ChoicesFor(reviewed, k), i)
  {
    hide Copies, EventsFor, ChoicesFor, Agrees, ListsHolders, SortById, LogHashes, LogFor, StrictlySorted, ChosenOnce;
    var logs := CopyLogs(Copies(p, sources, k));
    ChoicesCounted(reviewed, k);
    i := LogAmong(p, sources, k, kept);
    if Unchosen(reviewed, k) {
      forall x <- logs ensures x.value.kind == logs[i].value.kind && x.value.events <= logs[i].value.events {
        var j :| 0 <= j < |logs| && logs[j] == x;
        LogOfCopy(p, sources, k, j);
      }
      PrefixesAreAccepted(p.redact, logs, logs[i]);
      i :| Accepts(p.redact, logs, None, i);
    } else {
      var c :| c in reviewed && c.key == k;
      ChoiceFound(reviewed, c);
      ListsExactly(p, sources, k, c.choice.sources);
      ChosenIsAccepted(p, sources, k, c.choice, i);
    }
  }

  lemma ChosenIsAccepted(p: Policy, sources: seq<Source>, k: Key, c: Choice, i: nat)
    requires StrictlySorted(sources) && i < |Copies(p, sources, k)| && Copies(p, sources, k)[i].source.id == c.sourceId
    requires SortById(c.sources) == LogHashes(CopyLogs(Copies(p, sources, k)))
    requires forall s <- sources ::
      Agrees(p.redact, LogFor(p, s, k), LogFor(p, Copies(p, sources, k)[i].source, k))
    ensures Accepts(p.redact, CopyLogs(Copies(p, sources, k)), Some(c), i)
  {
    hide Copies, EventsFor, SortById, LogHashes, LogFor, Before;
    var copies := Copies(p, sources, k);
    var logs := CopyLogs(copies);
    CopiesSorted(p, sources, k);
    LogOfCopy(p, sources, k, i);
    forall j | 0 <= j < |logs|
      ensures logs[j].value.kind == logs[i].value.kind && Agrees(p.redact, logs[j].value.events, logs[i].value.events)
      ensures |logs[j].value.events| <= |logs[i].value.events|
    {
      LogOfCopy(p, sources, k, j);
      LongEnough(p.redact, logs[j].value.events, logs[i].value.events);
    }
    forall j | 0 <= j < i ensures copies[j].source.id != copies[i].source.id {
      BeforeIsStrictTotal(copies[j].source.id, copies[i].source.id);
    }
  }

  /**
   * A key has a record exactly when at most one choice is for it, and some ledger may stand for it: all
   * others literally start it, or, if there is a choice, it names that ledger, lists exactly those that
   * have the key, and each of them agrees with it as far as redaction goes.
   */
  lemma KeyPickedExactlyWhen(p: Policy, sources: seq<Source>, reviewed: seq<KeyedChoice>, k: Key)
    requires StrictlySorted(sources)
    ensures (exists r :: HasPick(p, sources, reviewed, k, r)) <==>
      ChosenOnce(reviewed, k) && exists kept :: MayStand(p, sources, reviewed, k, kept)
  {
    hide Copies, ChoicesFor, MayStand, ChosenOnce, Accepts, StrictlySorted;
    ChoicesCounted(reviewed, k);
    if r :| HasPick(p, sources, reviewed, k, r) {
      var i :| IsPick(p, k, Copies(p, sources, k), ChoicesFor(reviewed, k), i, r);
      AcceptedStands(p, sources, reviewed, k, i);
    }
    if kept :| ChosenOnce(reviewed, k) && MayStand(p, sources, reviewed, k, kept) {
      var i := StandingIsAccepted(p, sources, reviewed, k, kept);
      var r := AcceptsIsPick(p, sources, reviewed, k, i);
    }
  }

  // ------------------------------------------------------------------------ what a record says

  /** What an entry of a record says of the copy in one ledger, against the one kept. */
  ghost predicate EntryTells(p: Policy, e: FidelityEntry, s: Source, kept: Source, k: Key)
    requires |LogFor(p, s, k)| <= |LogFor(p, kept, k)|
  {
    var a, b := LogFor(p, s, k), LogFor(p, kept, k);
    && e.sourceId == s.id && e.sha256 == s.value.sha256 && e.records == |a|
    && e.selectedRedacted == |KeptRedacted(p.redact, a, b)|
    && e.selectedUnredacted == |Differing(a, b) - KeptRedacted(p.redact, a, b)|
  }

  /** The entries are those of the ledgers that have the key, by identity. */
  ghost predicate EntriesTell(p: Policy, sources: seq<Source>, kept: Source, k: Key, entries: seq<FidelityEntry>) {
    && (forall i, j :: 0 <= i < j < |entries| ==> Before(entries[i].sourceId, entries[j].sourceId))
    && (forall s <- sources :: |LogFor(p, s, k)| <= |LogFor(p, kept, k)|)
    && (forall s <- sources :: Holds(p, s, k) ==> exists e <- entries :: EntryTells(p, e, s, kept, k))
    && forall e <- entries :: exists s <- sources :: Holds(p, s, k) && EntryTells(p, e, s, kept, k)
  }

  /** A record tells whether it was chosen, from which ledger it is, and how each copy of its key fared. */
  ghost predicate RecordTells(p: Policy, sources: seq<Source>, reviewed: seq<KeyedChoice>, kept: Source, r: Record) {
    && r.sourceId == kept.id && (r.reviewed <==> !Unchosen(reviewed, r.key))
    && MayStand(p, sources, reviewed, r.key, kept)
    && (Unchosen(reviewed, r.key) ==> StandsFirst(p, sources, r.key, kept))
    && EntriesTell(p, sources, kept, r.key, r.fidelity)
  }

  lemma FidelityIsTold(p: Policy, s: Source, kept: Source, k: Key)
    requires Agrees(p.redact, LogFor(p, s, k), LogFor(p, kept, k))
    ensures |LogFor(p, s, k)| <= |LogFor(p, kept, k)|
    ensures EntryTells(p, FidelityOf(p.redact, Tagged(s.id, Log(UsageLog, s.value.sha256, LogFor(p, s, k))),
                                     Log(UsageLog, kept.value.sha256, LogFor(p, kept, k))), s, kept, k)
  {
    hide LogFor, Tally, Differing, KeptRedacted;
    DifferencesCounted(p.redact, LogFor(p, s, k), LogFor(p, kept, k));
  }

  lemma TargetStandsFirst(p: Policy, sources: seq<Source>, k: Key, i: int)
    requires StrictlySorted(sources) && Accepts(p.redact, CopyLogs(Copies(p, sources, k)), None, i)
    ensures 0 <= i < |Copies(p, sources, k)| && StandsFirst(p, sources, k, Copies(p, sources, k)[i].source)
  {
    hide Copies, EventsFor, Before, LogFor, AllAgree;
    var copies := Copies(p, sources, k);
    var lengths := LogLengths(CopyLogs(copies));
    CopiesSorted(p, sources, k);
    LogOfCopy(p, sources, k, i);
    var kept := copies[i].source;
    assert lengths[i] == |LogFor(p, kept, k)| > 0;
    forall s <- sources | s != kept
      ensures |LogFor(p, s, k)| < |LogFor(p, kept, k)|
        || (|LogFor(p, s, k)| == |LogFor(p, kept, k)| && Before(kept.id, s.id))
    {
      if Holds(p, s, k) {
        var j := LogAmong(p, sources, k, s);
        assert lengths[j] == |LogFor(p, s, k)|;
      }
    }
  }

  /** What is counted of copy j, against copy i. */
  ghost predicate CountedOf(p: Policy, sources: seq<Source>, k: Key, i: nat, j: nat, e: FidelityEntry) {
    var logs := CopyLogs(Copies(p, sources, k));
    && i < |logs| && j < |logs| && |logs[j].value.events| <= |logs[i].value.events|
    && e == FidelityOf(p.redact, logs[j], logs[i].value)
  }

  lemma EntryIsTold(
    p: Policy, sources: seq<Source>, k: Key, choice: Option<Choice>, i: nat, j: nat, e: FidelityEntry)
    requires Accepts(p.redact, CopyLogs(Copies(p, sources, k)), choice, i) && CountedOf(p, sources, k, i, j, e)
    ensures i < |Copies(p, sources, k)| && j < |Copies(p, sources, k)|
    ensures var s, kept := Copies(p, sources, k)[j].source, Copies(p, sources, k)[i].source;
      && s in sources && Holds(p, s, k) && e.sourceId == s.id
      && |LogFor(p, s, k)| <= |LogFor(p, kept, k)| && EntryTells(p, e, s, kept, k)
  {
    hide Copies, Before, LogFor, Accepts, Agrees, Tally, EntryTells;
    LogOfCopy(p, sources, k, i);
    LogOfCopy(p, sources, k, j);
    var s, kept := Copies(p, sources, k)[j].source, Copies(p, sources, k)[i].source;
    AllOthersAgree(p, sources, k, choice, i, s);
    FidelityIsTold(p, s, kept, k);
  }

  lemma EntriesAreTold(
    p: Policy, sources: seq<Source>, k: Key, choice: Option<Choice>, i: nat, entries: seq<FidelityEntry>)
    requires StrictlySorted(sources) && Accepts(p.redact, CopyLogs(Copies(p, sources, k)), choice, i)
    requires i < |Copies(p, sources, k)| == |entries|
    requires forall j: nat :: j < |entries| ==> CountedOf(p, sources, k, i, j, entries[j])
    ensures EntriesTell(p, sources, Copies(p, sources, k)[i].source, k, entries)
  {
    hide Copies, Before, LogFor, Accepts, Agrees, EntryTells, CountedOf, Holds, StrictlySorted;
    var copies := Copies(p, sources, k);
    CopiesSorted(p, sources, k);
    var kept := copies[i].source;
    forall s <- sources ensures |LogFor(p, s, k)| <= |LogFor(p, kept, k)| {
      AllOthersAgree(p, sources, k, choice, i, s);
      LongEnough(p.redact, LogFor(p, s, k), LogFor(p, kept, k));
    }
    forall j: nat | j < |entries|
      ensures entries[j].sourceId == copies[j].source.id
    {
      EntryIsTold(p, sources, k, choice, i, j, entries[j]);
    }
    forall s <- sources | Holds(p, s, k) ensures exists e <- entries :: EntryTells(p, e, s, kept, k) {
      var j := LogAmong(p, sources, k, s);
      EntryIsTold(p, sources, k, choice, i, j, entries[j]);
      assert entries[j] in entries;
    }
    forall e <- entries ensures exists s <- sources :: Holds(p, s, k) && EntryTells(p, e, s, kept, k) {
      var j :| 0 <= j < |entries| && entries[j] == e;
      EntryIsTold(p, sources, k, choice, i, j, entries[j]);
    }
  }

  lemma PickTells(p: Policy, sources: seq<Source>, reviewed: seq<KeyedChoice>, k: Key, r: Pick)
    requires StrictlySorted(sources) && HasPick(p, sources, reviewed, k, r)
    ensures r.record.key == k && r.source in sources && ChosenOnce(reviewed, k)
    ensures RecordTells(p, sources, reviewed, r.source, r.record)
  {
    hide Copies, ChoicesFor, StrictlySorted, Accepts, MayStand, StandsFirst, EntriesTell, ChosenOnce, Unchosen, Tally;
    var copies, choices := Copies(p, sources, k), ChoicesFor(reviewed, k);
    var i :| IsPick(p, k, copies, choices, i, r);
    ChoicesCounted(reviewed, k);
    AcceptedFits(p, copies, choices, i);
    AcceptedStands(p, sources, reviewed, k, i);
    LogOfCopy(p, sources, k, i);
    if choices == [] { TargetStandsFirst(p, sources, k, i); }
    EntriesAreTold(p, sources, k, FirstChoice(choices), i, r.record.fidelity);
  }

  /** A record of the merge, told from one of its ledgers. */
  ghost predicate Told(p: Policy, reviewed: seq<KeyedChoice>, r: MergedUsage, n: nat) {
    && n < |r.records| && ChosenOnce(reviewed, r.records[n].key)
    && exists kept <- r.sources :: RecordTells(p, r.sources, reviewed, kept, r.records[n])
  }

  /**
   * In a merge every choice is for a key that is there, and the only one for it. Its record is from the
   * ledger it names, which agrees with all others, and it lists exactly the ledgers that have the key.
   * Without a choice, a record is from the first of the ledgers that have most of the key, and all
   * others literally start what that one has. Each record counts, for every ledger that has its key,
   * the events, and those where one side is the redaction of the other.
   */
  lemma RecordsTell(p: Policy, input: seq<Source>, reviewed: seq<KeyedChoice>, r: MergedUsage, n: nat)
    requires AllDecoded(input) && IsOutcome(p, input, reviewed, UsageSelected(r)) && n < |r.records|
    ensures Told(p, reviewed, r, n)
    ensures forall c <- reviewed :: c.key in KeysOf(r.records)
  {
    hide SortById, DistinctIds, StrictlySorted, HasPick, AllKeys, KeysOf, Settled, RecordTells, ChosenOnce, RecordKeys;
    hide Assemble, UniqueTerminals, Exhausted, PrecedenceGraph;
    var sources := SortById(input);
    var picks, ordered :| Merges(p, sources, reviewed, picks, ordered, r);
    SortKeepsIds(input);
    SortedSourcesDecoded(input);
    MergeIsSettled(p, sources, reviewed, picks, ordered, r);
    RecordKeysOf(p, sources, reviewed, picks, ordered, r);
    KeysAndRecords(r);
    SettledRecord(p, sources, reviewed, picks, ordered, r, n);
    var k := RecordKeys(ordered, picks)[n];
    PickTells(p, sources, reviewed, k, picks[k]);
  }

  lemma KeysAndRecords(r: MergedUsage)
    ensures |KeysOf(r.records)| == |r.records|
  {
  }
}
