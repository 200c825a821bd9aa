/**
 * Dispatching one evaluator: consent first, then the filter, then the engine of its kind.
 * The engines keep a log of their calls, so that what was not called can be told.
 */
module EvaluatorDispatch {
  import opened CodeUnits
  import opened Options

  datatype Capability = CommandEvaluatorsPresent | LlmEvaluatorsPresent | FileReadingLlmEvaluatorPresent

  datatype Provider = Claude | Codex

  datatype Engine = CommandEngine | LlmEngine(provider: Option<Provider>, commandFiltered: bool)

  datatype Decision = Trusted(capabilities: set<Capability>) | Distrusted

  datatype Evaluator = Evaluator(ref: Text, packageId: Text, engine: Engine)

  datatype Availability = Availability(provider: Provider, available: bool)

  /** The batch: its evaluators, the trust decisions, and what the filter and the client answer. */
  datatype Job = Job(
    evaluators: seq<Evaluator>, trust: map<Text, Decision>, defaultProvider: Option<Provider>,
    available: Provider -> bool, skips: (Evaluator, Option<Availability>) -> bool)

  datatype EngineCall = CommandCall(index: nat) | LlmCall(index: nat)

  /** How far one evaluator got: refused at the gate, filtered out, or into an engine. */
  datatype Entry = RefusedEntry | SkippedEntry | CalledEntry(call: EngineCall)

  // --------------------------------------------------------------------- consent

  function EffectiveProvider(e: Engine, defaultProvider: Option<Provider>): Option<Provider> {
    if e.LlmEngine? && e.provider.Some? then e.provider else defaultProvider
  }

  /** An engine whose files can be read needs the grant that says so. */
  predicate ReadsFiles(e: Engine, defaultProvider: Option<Provider>) {
    e.LlmEngine? && (e.commandFiltered || EffectiveProvider(e, defaultProvider) == Some(Codex))
  }

  /** The decision is a grant, and it covers all that the engine can do. */
  predicate Consents(e: Engine, decision: Option<Decision>, defaultProvider: Option<Provider>) {
    && decision.Some? && decision.value.Trusted?
    && var granted := decision.value.capabilities;
       && (e.CommandEngine? ==> CommandEvaluatorsPresent in granted)
       && (e.LlmEngine? ==> LlmEvaluatorsPresent in granted)
       && (ReadsFiles(e, defaultProvider) ==> FileReadingLlmEvaluatorPresent in granted)
  }

  predicate Needs(e: Engine, defaultProvider: Option<Provider>, c: Capability) {
    match c
    case CommandEvaluatorsPresent => e.CommandEngine?
    case LlmEvaluatorsPresent => e.LlmEngine?
    case FileReadingLlmEvaluatorPresent => ReadsFiles(e, defaultProvider)
  }

  function ProviderFloor(provider: Option<Provider>): set<Capability> {
    if provider == Some(Codex) then {FileReadingLlmEvaluatorPresent} else {}
  }

  method RequiredTrustCapabilities(e: Engine, defaultProvider: Option<Provider>) returns (required: set<Capability>)
    ensures forall c :: c in required <==> Needs(e, defaultProvider, c)
  {
    if e.CommandEngine? { return {CommandEvaluatorsPresent}; }
    required := {LlmEvaluatorsPresent} + ProviderFloor(EffectiveProvider(e, defaultProvider));
    if e.commandFiltered { required := required + {FileReadingLlmEvaluatorPresent}; }
  }

  /** A grant covers what an engine needs exactly when nothing needed is missing from it. */
  lemma NoneMissing(e: Engine, defaultProvider: Option<Provider>, required: set<Capability>, granted: set<Capability>)
    requires forall c :: c in required <==> Needs(e, defaultProvider, c)
    ensures required != {}
    ensures required - granted == {} <==> Consents(e, Some(Trusted(granted)), defaultProvider)
  {
    assert (if e.CommandEngine? then CommandEvaluatorsPresent else LlmEvaluatorsPresent) in required;
    if required - granted == {} {
      forall c | Needs(e, defaultProvider, c) ensures c in granted { assert c in required && c !in required - granted; }
    } else {
      var c :| c in required - granted;
      assert Needs(e, defaultProvider, c);
    }
  }

  /** The gate opens exactly on a grant that covers the engine; without a decision it stays closed. */
  method EvaluateConsentGate(e: Engine, decision: Option<Decision>, defaultProvider: Option<Provider>)
    returns (allowed: bool)
    ensures allowed <==> Consents(e, decision, defaultProvider)
  {
    var required := RequiredTrustCapabilities(e, defaultProvider);
    if decision.Some? && decision.value.Trusted? {
      NoneMissing(e, defaultProvider, required, decision.value.capabilities);
    } else {
      NoneMissing(e, defaultProvider, required, {});
    }
    if required == {} { return true; }
    if decision.None? || decision.value.Distrusted? { return false; }
    var missing := required - decision.value.capabilities;
    allowed := missing == {};
  }

  // ------------------------------------------------------------------- one evaluator

  predicate Allowed(job: Job, i: nat)
    requires i < |job.evaluators|
  {
    var ev := job.evaluators[i];
    Consents(ev.engine, if ev.packageId in job.trust then Some(job.trust[ev.packageId]) else None, job.defaultProvider)
  }

  /** The filter sees the evaluator's effective provider, and whether that is available. */
  predicate Filtered(job: Job, i: nat)
    requires i < |job.evaluators|
  {
    var ev := job.evaluators[i];
    match EffectiveProvider(ev.engine, job.defaultProvider)
    case None => job.skips(ev, None)
    case Some(p) => job.skips(ev, Some(Availability(p, job.available(p))))
  }

  /** A filter by command, Codex as the evaluator's own provider, or as the default where it has none. */
  predicate MayReadFiles(e: Engine, defaultProvider: Option<Provider>)
    requires e.LlmEngine?
  {
    || e.commandFiltered
    || match e.provider
       case Some(own) => own == Codex
       case None => defaultProvider == Some(Codex)
  }

  /** The providers that the filter is asked about: an evaluator's own, or the default, or none. */
  predicate AskedAbout(e: Engine, defaultProvider: Option<Provider>, p: Provider) {
    if e == LlmEngine(Some(p), true) || e == LlmEngine(Some(p), false) then true
    else (e.CommandEngine? || e.provider.None?) && defaultProvider == Some(p)
  }

  /** Who is allowed, and who is filtered out, in terms of the evaluator, its package's decision and the default. */
  lemma GateExactlyWhen(job: Job, i: nat)
    requires i < |job.evaluators|
    ensures var ev := job.evaluators[i];
      Allowed(job, i) <==>
        && ev.packageId in job.trust && job.trust[ev.packageId].Trusted?
        && var granted := job.trust[ev.packageId].capabilities;
           match ev.engine
           case CommandEngine => CommandEvaluatorsPresent in granted
           case LlmEngine(_, _) =>
             && LlmEvaluatorsPresent in granted
             && (MayReadFiles(ev.engine, job.defaultProvider) ==> FileReadingLlmEvaluatorPresent in granted)
    ensures var ev := job.evaluators[i];
      Filtered(job, i) <==>
        && (forall p :: AskedAbout(ev.engine, job.defaultProvider, p) ==>
          job.skips(ev, Some(Availability(p, job.available(p)))))
        && ((forall p :: !AskedAbout(ev.engine, job.defaultProvider, p)) ==> job.skips(ev, None))
  {
    var ev := job.evaluators[i];
    var p := EffectiveProvider(ev.engine, job.defaultProvider);
    if p.Some? { assert AskedAbout(ev.engine, job.defaultProvider, p.value); }
  }

  function CallOf(job: Job, i: nat): EngineCall
    requires i < |job.evaluators|
  {
    if job.evaluators[i].engine.CommandEngine? then CommandCall(i) else LlmCall(i)
  }

  function EntryOf(job: Job, i: nat): Entry
    requires i < |job.evaluators|
  {
    if !Allowed(job, i) then RefusedEntry
    else if Filtered(job, i) then SkippedEntry
    else CalledEntry(CallOf(job, i))
  }

  lemma CallsItself(job: Job, i: nat)
    requires i < |job.evaluators|
    ensures EntryOf(job, i).CalledEntry? ==> EntryOf(job, i).call.index == i
  {
  }

  function CallsOf(entry: Entry): seq<EngineCall> {
    if entry.CalledEntry? then [entry.call] else []
  }

  class Engines {
    var calls: seq<EngineCall>

    constructor ()
      ensures calls == []
    {
      calls := [];
    }

    method RunCommandEngine(i: nat) returns (entry: Entry)
      modifies this
      ensures entry == CalledEntry(CommandCall(i)) && calls == old(calls) + [CommandCall(i)]
    {
      calls := calls + [CommandCall(i)];
      entry := CalledEntry(CommandCall(i));
    }

    method RunLlmEngine(i: nat) returns (entry: Entry)
      modifies this
      ensures entry == CalledEntry(LlmCall(i)) && calls == old(calls) + [LlmCall(i)]
    {
      calls := calls + [LlmCall(i)];
      entry := CalledEntry(LlmCall(i));
    }

    /**
     * Up to the first await. A refusal is reported even where the filter would have skipped;
     * neither calls an engine; whoever is allowed and not skipped calls the engine of its kind, once.
     */
    method DispatchOne(job: Job, i: nat) returns (entry: Entry)
      requires i < |job.evaluators|
      modifies this
      ensures entry == EntryOf(job, i)
      ensures !Allowed(job, i) ==> entry == RefusedEntry && calls == old(calls)
      ensures Allowed(job, i) && Filtered(job, i) ==> entry == SkippedEntry && calls == old(calls)
      ensures Allowed(job, i) && !Filtered(job, i) ==> entry.CalledEntry? && calls == old(calls) + [CallOf(job, i)]
    {
      var evaluator := job.evaluators[i];
      var decision := if evaluator.packageId in job.trust then Some(job.trust[evaluator.packageId]) else None;
      var allowed := EvaluateConsentGate(evaluator.engine, decision, job.defaultProvider);
      if !allowed { return RefusedEntry; }
      var provider := EffectiveProvider(evaluator.engine, job.defaultProvider);
      var availability :=
        if provider.Some? then Some(Availability(provider.value, job.available(provider.value))) else None;
      if job.skips(evaluator, availability) { return SkippedEntry; }
      if evaluator.engine.CommandEngine? {
        entry := RunCommandEngine(i);
        return;
      }
      entry := RunLlmEngine(i);
    }
  }
}
