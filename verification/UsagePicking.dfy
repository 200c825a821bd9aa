/** Grouping retained usage events by key, and picking the copy that represents each key. */
module UsagePicking {
  import opened Options
  import opened CodeUnits
  import opened PrecedenceOrder
  import opened Representation
  import opened UsageHistory

  // --------------------------------------------------------------------- grouping

  lemma KeysOfPrefix(p: Policy, events: seq<UsageEvent>, n: nat)
    requires n < |events|
    ensures KeysIn(p, events[..n + 1]) == KeysIn(p, events[..n]) + {KeyOf(p, events[n])}
    ensures forall k :: EventsFor(p, events[..n + 1], k) ==
                        EventsFor(p, events[..n], k) + (if KeyOf(p, events[n]) == k then [events[n]] else [])
  {
    assert events[..n + 1][..n] == events[..n];
  }

  method GroupEvents(p: Policy, events: seq<UsageEvent>) returns (m: map<Key, seq<UsageEvent>>)
    ensures m.Keys == KeysIn(p, events)
    ensures forall k <- m :: m[k] == EventsFor(p, events, k)
  {
    m := map[];
    for n := 0 to |events|
      invariant m.Keys == KeysIn(p, events[..n])
      invariant forall k <- m :: m[k] == EventsFor(p, events[..n], k)
    {
      KeysOfPrefix(p, events, n);
      var key := KeyOf(p, events[n]);
      var sequence := if key in m then m[key] else [];
      EventsForKnownKeys(p, events[..n], key);
      m := m[key := sequence + [events[n]]];
    }
    assert events[..|events|] == events;
  }

  lemma KeysOfSources(p: Policy, sources: seq<Source>, n: nat)
    requires n < |sources|
    ensures AllKeys(p, sources[..n + 1]) == AllKeys(p, sources[..n]) + KeysIn(p, sources[n].value.events)
  {
    assert sources[..n + 1][..n] == sources[..n];
  }

  lemma CopiesOfPrefix(p: Policy, sources: seq<Source>, n: nat, k: Key)
    requires n < |sources|
    ensures Copies(p, sources[..n + 1], k) == Copies(p, sources[..n], k) +
      (var own := EventsFor(p, sources[n].value.events, k); if own == [] then [] else [Copy(sources[n], own)])
  {
    assert sources[..n + 1][..n] == sources[..n];
  }

  method GroupByKey(p: Policy, sources: seq<Source>) returns (byKey: map<Key, seq<Copy>>)
    ensures byKey.Keys == AllKeys(p, sources)
    ensures forall k <- byKey :: byKey[k] == Copies(p, sources, k)
  {
    byKey := map[];
    for n := 0 to |sources|
      invariant byKey.Keys == AllKeys(p, sources[..n])
      invariant forall k <- byKey :: byKey[k] == Copies(p, sources[..n], k)
    {
      var events := GroupEvents(p, sources[n].value.events);
      KeysOfSources(p, sources, n);
      ghost var before := byKey;
      byKey := AddCopies(sources[n], byKey, events);
      forall k <- byKey ensures byKey[k] == Copies(p, sources[..n + 1], k) {
        CopiesOfPrefix(p, sources, n, k);
        CopiesOfKnownKeys(p, sources[..n], k);
        EventsForKnownKeys(p, sources[n].value.events, k);
      }
    }
    assert sources[..|sources|] == sources;
  }

  function CopiesSoFar(byKey: map<Key, seq<Copy>>, k: Key): seq<Copy> {
    if k in byKey then byKey[k] else []
  }

  /** One ledger's groups join the copies already collected, in any order of keys. */
  method AddCopies(source: Source, before: map<Key, seq<Copy>>, events: map<Key, seq<UsageEvent>>)
    returns (byKey: map<Key, seq<Copy>>)
    ensures byKey.Keys == before.Keys + events.Keys
    ensures forall k <- byKey ::
      byKey[k] == CopiesSoFar(before, k) + (if k in events then [Copy(source, events[k])] else [])
  {
    byKey := before;
    var rest := events.Keys;
    while rest != {}
      invariant rest <= events.Keys
      invariant byKey.Keys == before.Keys + (events.Keys - rest)
      invariant forall k <- byKey ::
        byKey[k] == CopiesSoFar(before, k) + (if k in events && k !in rest then [Copy(source, events[k])] else [])
    {
      var key :| key in rest;
      rest := rest - {key};
      byKey := byKey[key := CopiesSoFar(byKey, key) + [Copy(source, events[key])]];
    }
  }

  // ---------------------------------------------------------------------- picking

  method Fidelity(redact: Redactor, copy: Tagged<Log>, target: Log) returns (entry: Option<FidelityEntry>)
    requires |copy.value.events| <= |target.events|
    ensures match entry
      case None => !Agrees(redact, copy.value.events, target.events)
      case Some(e) => Agrees(redact, copy.value.events, target.events) && e == FidelityOf(redact, copy, target)
  {
    var events := copy.value.events;
    var selectedRedacted, selectedUnredacted := 0, 0;
    for n := 0 to |events|
      invariant forall m :: 0 <= m < n ==> Compare(redact, events[m], target.events[m]) != Conflict
      invariant selectedRedacted == Tally(redact, events, target.events, n, SelectedRedacted)
      invariant selectedUnredacted == Tally(redact, events, target.events, n, SelectedUnredacted)
    {
      var relation := Compare(redact, events[n], target.events[n]);
      if relation == Conflict { return None; }
      if relation == SelectedRedacted { selectedRedacted := selectedRedacted + 1; }
      if relation == SelectedUnredacted { selectedUnredacted := selectedUnredacted + 1; }
    }
    entry := Some(FidelityEntry(copy.id, copy.value.sha256, |events|, selectedRedacted, selectedUnredacted));
  }

  ghost predicate Fits(redact: Redactor, log: Log, target: Log, reviewed: bool) {
    Agrees(redact, log.events, target.events) && (reviewed || log.events <= target.events)
  }

  method FidelityWithin(redact: Redactor, copy: Tagged<Log>, target: Log, reviewed: bool)
    returns (entry: Option<FidelityEntry>)
    requires |copy.value.events| <= |target.events|
    ensures entry.Some? <==> Fits(redact, copy.value, target, reviewed)
    ensures entry.Some? ==> entry.value == FidelityOf(redact, copy, target)
  {
    entry := Fidelity(redact, copy, target);
    if entry.Some? {
      NoDifferenceIsPrefix(redact, copy.value.events, target.events, |copy.value.events|);
      assert copy.value.events[..|copy.value.events|] == copy.value.events;
      if (entry.value.selectedRedacted > 0 || entry.value.selectedUnredacted > 0) && !reviewed { return None; }
    }
  }

  method AllFidelity(redact: Redactor, logs: seq<Tagged<Log>>, i: nat, reviewed: bool)
    returns (entries: Option<seq<FidelityEntry>>)
    requires i < |logs| && forall j :: 0 <= j < |logs| ==> |logs[j].value.events| <= |logs[i].value.events|
    ensures entries.Some? <==> forall j :: 0 <= j < |logs| ==> Fits(redact, logs[j].value, logs[i].value, reviewed)
    ensures entries.Some? ==> |entries.value| == |logs|
    ensures entries.Some? ==>
      forall j :: 0 <= j < |logs| ==> entries.value[j] == FidelityOf(redact, logs[j], logs[i].value)
  {
    var fidelity: seq<FidelityEntry> := [];
    for j := 0 to |logs|
      invariant |fidelity| == j
      invariant forall m :: 0 <= m < j ==> Fits(redact, logs[m].value, logs[i].value, reviewed)
      invariant forall m :: 0 <= m < j ==> fidelity[m] == FidelityOf(redact, logs[m], logs[i].value)
    {
      var e := FidelityWithin(redact, logs[j], logs[i].value, reviewed);
      if e.None? { return None; }
      fidelity := fidelity + [e.value];
    }
    entries := Some(fidelity);
  }

  method PickRecord(p: Policy, key: Key, copies: seq<Copy>, choices: seq<Choice>) returns (pick: Option<Pick>)
    requires copies != [] && forall c <- copies :: c.events != []
    ensures match pick
      case Some(r) => exists i :: IsPick(p, key, copies, choices, i, r)
      case None => forall i :: !KeyAccepts(p, copies, choices, i)
  {
    if |choices| > 1 { return None; }
    var choice, logs := FirstChoice(choices), CopyLogs(copies);
    if choice.Some? && SortById(choice.value.sources) != LogHashes(logs) { return None; }
    var found := FindTarget(LogIds(logs), LogLengths(logs), choice);
    if found.None? { return None; }
    var i := found.value;
    forall m | KeyAccepts(p, copies, choices, m) ensures m == i {
      TargetUnique(LogIds(logs), LogLengths(logs), choice, m, i);
    }
    forall j | 0 <= j < |logs| ensures |logs[j].value.events| <= |logs[i].value.events| {
      assert LogLengths(logs)[j] <= LogLengths(logs)[i];
    }
    var fidelity := AllFidelity(p.redact, logs, i, choice.Some?);
    if fidelity.None? { return None; }
    var event := copies[i].events[|copies[i].events| - 1];
    var record := Record(key, copies[i].source.id, event.ordinal, event.event.envelope.eventId,
                         choice.Some?, fidelity.value);
    pick := Some(Pick(copies[i].source, event, record));
    assert IsPick(p, key, copies, choices, i, pick.value);
  }

  lemma NoPick(p: Policy, sources: seq<Source>, reviewed: seq<KeyedChoice>, k: Key)
    requires k in AllKeys(p, sources)
    requires forall i :: !KeyAccepts(p, Copies(p, sources, k), ChoicesFor(reviewed, k), i)
    ensures forall m :: !ArePicks(p, sources, reviewed, m)
  {
    forall m ensures !ArePicks(p, sources, reviewed, m) {
      if ArePicks(p, sources, reviewed, m) { PicksAccept(p, sources, reviewed, m, k); }
    }
  }

  lemma PicksAccept(p: Policy, sources: seq<Source>, reviewed: seq<KeyedChoice>, m: Picks, k: Key)
    requires ArePicks(p, sources, reviewed, m) && k in AllKeys(p, sources)
    ensures exists i :: KeyAccepts(p, Copies(p, sources, k), ChoicesFor(reviewed, k), i)
  {
    assert HasPick(p, sources, reviewed, k, m[k]);
  }

  method PickKey(p: Policy, sources: seq<Source>, reviewed: seq<KeyedChoice>, k: Key, copies: seq<Copy>)
    returns (pick: Option<Pick>)
    requires k in AllKeys(p, sources) && copies == Copies(p, sources, k)
    ensures pick.Some? ==> HasPick(p, sources, reviewed, k, pick.value)
    ensures pick.None? ==> forall m :: !ArePicks(p, sources, reviewed, m)
  {
    CopiesOfKnownKeys(p, sources, k);
    pick := PickRecord(p, k, copies, ChoicesFor(reviewed, k));
    if pick.None? { NoPick(p, sources, reviewed, k); }
  }

  method PickAll(p: Policy, sources: seq<Source>, byKey: map<Key, seq<Copy>>, reviewed: seq<KeyedChoice>)
    returns (picks: Option<Picks>)
    requires byKey.Keys == AllKeys(p, sources)
    requires forall k <- byKey :: byKey[k] == Copies(p, sources, k)
    ensures match picks
      case Some(m) => ArePicks(p, sources, reviewed, m)
      case None => forall m :: !ArePicks(p, sources, reviewed, m)
  {
    var selected: Picks := map[];
    var rest := byKey.Keys;
    while rest != {}
      invariant rest <= byKey.Keys && selected.Keys == byKey.Keys - rest
      invariant forall k <- selected :: HasPick(p, sources, reviewed, k, selected[k])
    {
      var key :| key in rest;
      rest := rest - {key};
      var pick := PickKey(p, sources, reviewed, key, byKey[key]);
      if pick.None? { return None; }
      selected := selected[key := pick.value];
    }
    picks := Some(selected);
  }
}
