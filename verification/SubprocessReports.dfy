/**
 * What the result of a bounded subprocess says, told from the events of its run: whose exit it
 * reports, for which reason it was killed, and which signals were tried before it gave up.
 */
module SubprocessReports {
  import opened Options
  import opened SubprocessLifecycle

  // ----------------------------------------------------------------- the events, looked back on

  ghost predicate HasSpawned(past: seq<Event>) {
    past != [] && (HasSpawned(past[..|past| - 1]) || past[|past| - 1].Spawned?)
  }

  function ReasonOf(e: Event): Option<KillReason> {
    match e
    case Aborted(_) => Some(Canceled)
    case Overflowed(_) => Some(OutputTooLarge)
    case TimeoutFires(_) => Some(TimedOut)
    case _ => None
  }

  /** The reason of the first event that asks for a kill. */
  function FirstRequest(past: seq<Event>): Option<KillReason> {
    if past == [] then None else
      var earlier := FirstRequest(past[..|past| - 1]);
      if earlier.Some? then earlier else ReasonOf(past[|past| - 1])
  }

  /** With what the leader first exited. */
  function FirstExit(past: seq<Event>): Option<Exit> {
    if past == [] then None else
      var earlier := FirstExit(past[..|past| - 1]);
      if earlier.None? && past[|past| - 1].Exited? then Some(past[|past| - 1].exit) else earlier
  }

  /** The exit noted last: of a close, of the first exit once its streams had time, or of a failed spawn. */
  ghost function LastFinalized(past: seq<Event>): Exit {
    if past == [] then NO_EXIT else
      var before := past[..|past| - 1];
      match past[|past| - 1]
      case Closed(exit, _) => exit
      case DrainFires(_) => if FirstExit(before).Some? then FirstExit(before).value else LastFinalized(before)
      case SpawnFailed => if HasSpawned(before) then LastFinalized(before) else NO_EXIT
      case _ => LastFinalized(before)
  }

  function Elapsed(past: seq<Event>): nat {
    if past == [] then 0 else
      var last := past[|past| - 1];
      Elapsed(past[..|past| - 1]) + (if last.Advance? then last.ms else 0)
  }

  /** How many events sent a SIGTERM: a spawn that found a kill requested, and every request from then on. */
  ghost function TermsDue(past: seq<Event>): nat {
    if past == [] then 0 else
      var before, last := past[..|past| - 1], past[|past| - 1];
      var sends := (last.Spawned? && FirstRequest(before).Some?) || (ReasonOf(last).Some? && HasSpawned(before));
      TermsDue(before) + (if sends then 1 else 0)
  }

  function Terms(signals: seq<Sent>): nat {
    if signals == [] then 0 else
      Terms(signals[..|signals| - 1]) + (if signals[|signals| - 1].signal == SIGTERM then 1 else 0)
  }

  // ------------------------------------------------------------------------- the account kept

  /** What the variables of an unsettled run are, told from its events. */
  ghost predicate Accounted(now: nat, past: seq<Event>, s: State) {
    && !s.settled && s.reports == []
    && s.now == now + Elapsed(past)
    && (s.spawnedAt.Some? <==> HasSpawned(past))
    && s.killedReason == (if HasSpawned(past) then FirstRequest(past) else None)
    && s.pendingKillReason == (if HasSpawned(past) then None else FirstRequest(past))
    && s.lastExit == LastFinalized(past)
    && (s.drainTimer.NoDrain? <==> FirstExit(past).None?)
    && (s.drainTimer.DrainDue? ==> FirstExit(past) == Some(s.drainTimer.exit))
    && Terms(s.signals) == TermsDue(past)
  }

  /** Why a run that settles at an event says it was killed. */
  ghost function ReportedReason(past: seq<Event>, last: Event): Option<KillReason> {
    if last.SpawnFailed? then Some(SpawnError) else if HasSpawned(past) then FirstRequest(past) else None
  }

  ghost predicate Reported(now: nat, past: seq<Event>, last: Event, s: State) {
    && s.settled && |s.reports| == 1
    && s.reports[0].exit == LastFinalized(past + [last])
    && s.reports[0].killedReason == ReportedReason(past, last)
    && s.reports[0].at == now + Elapsed(past)
    && Terms(s.signals) == TermsDue(past + [last])
  }

  /** What one more event adds. */
  lemma OneMore(past: seq<Event>, e: Event)
    ensures HasSpawned(past + [e]) <==> HasSpawned(past) || e.Spawned?
    ensures FirstRequest(past + [e]) == if FirstRequest(past).Some? then FirstRequest(past) else ReasonOf(e)
    ensures FirstExit(past + [e]) == if FirstExit(past).None? && e.Exited? then Some(e.exit) else FirstExit(past)
    ensures Elapsed(past + [e]) == Elapsed(past) + (if e.Advance? then e.ms else 0)
  {
    assert (past + [e])[..|past|] == past;
  }

  lemma OneMoreFinal(past: seq<Event>, e: Event)
    ensures LastFinalized(past + [e]) ==
      match e
      case Closed(exit, _) => exit
      case DrainFires(_) => if FirstExit(past).Some? then FirstExit(past).value else LastFinalized(past)
      case SpawnFailed => if HasSpawned(past) then LastFinalized(past) else NO_EXIT
      case _ => LastFinalized(past)
    ensures TermsDue(past + [e]) == TermsDue(past) +
      if (e.Spawned? && FirstRequest(past).Some?) || (ReasonOf(e).Some? && HasSpawned(past)) then 1 else 0
  {
    assert (past + [e])[..|past|] == past;
  }

  lemma OneMoreTerm(signals: seq<Sent>, sent: Sent)
    ensures Terms(signals + [sent]) == Terms(signals) + (if sent.signal == SIGTERM then 1 else 0)
  {
    assert (signals + [sent])[..|signals|] == signals;
  }

  ghost predicate Continued(now: nat, past: seq<Event>, e: Event, t: State) {
    if t.settled then Reported(now, past, e, t) else Accounted(now, past + [e], t)
  }

  lemma StartIsAccounted(cfg: Config, now: nat)
    ensures Accounted(now, [], Start(cfg, now))
  {
  }

  lemma QuietAccounts(cfg: Config, now: nat, past: seq<Event>, s: State, e: Event)
    requires Accounted(now, past, s) && (e.Exited? || e.Advance?)
    ensures Continued(now, past, e, Step(cfg, s, e))
  {
    hide HasSpawned, FirstRequest, FirstExit, LastFinalized, Elapsed, TermsDue, Terms, Killed, HonestReport;
    OneMore(past, e);
    OneMoreFinal(past, e);
  }

  lemma OneMoreRequest(past: seq<Event>, e: Event, reason: KillReason)
    requires ReasonOf(e) == Some(reason)
    ensures HasSpawned(past + [e]) == HasSpawned(past) && FirstExit(past + [e]) == FirstExit(past)
    ensures LastFinalized(past + [e]) == LastFinalized(past) && Elapsed(past + [e]) == Elapsed(past)
    ensures FirstRequest(past + [e]) == if FirstRequest(past).Some? then FirstRequest(past) else Some(reason)
    ensures TermsDue(past + [e]) == TermsDue(past) + if HasSpawned(past) then 1 else 0
  {
    hide HasSpawned, FirstRequest, FirstExit, LastFinalized, Elapsed, TermsDue;
    OneMore(past, e);
    OneMoreFinal(past, e);
  }

  lemma RequestAccounts(
    cfg: Config, now: nat, past: seq<Event>, s: State, e: Event, reason: KillReason, delivered: bool
  )
    requires Accounted(now, past, s) && ReasonOf(e) == Some(reason)
    ensures Continued(now, past, e, RequestEscalation(cfg, s, reason, delivered))
  {
    hide HasSpawned, FirstRequest, FirstExit, LastFinalized, Elapsed, TermsDue, Terms, Reported, ReasonOf;
    OneMoreRequest(past, e, reason);
    OneMoreTerm(s.signals, Sent(SIGTERM, s.now, delivered));
  }

  lemma SpawnAccounts(cfg: Config, now: nat, past: seq<Event>, s: State, e: Event)
    requires Accounted(now, past, s) && Enabled(s, e) && e.Spawned?
    ensures Continued(now, past, e, Step(cfg, s, e))
  {
    hide HasSpawned, FirstRequest, FirstExit, LastFinalized, Elapsed, TermsDue, Terms, Killed, HonestReport;
    OneMore(past, e);
    OneMoreFinal(past, e);
    OneMoreTerm(s.signals, Sent(SIGTERM, s.now, e.delivered));
  }

  lemma SpawnFailureAccounts(cfg: Config, now: nat, past: seq<Event>, s: State, e: Event)
    requires Accounted(now, past, s) && e.SpawnFailed?
    ensures Continued(now, past, e, Step(cfg, s, e))
  {
    hide HasSpawned, FirstRequest, FirstExit, LastFinalized, Elapsed, TermsDue, Terms, Killed, HonestReport;
    OneMore(past, e);
    OneMoreFinal(past, e);
  }

  /** A handler that may settle, with the exit noted last, and otherwise leaves the account as it was. */
  ghost predicate Answers(s: State, t: State) {
    && t.killedReason == s.killedReason && t.now == s.now && Terms(t.signals) == Terms(s.signals)
    && (t.settled ==>
      && |t.reports| == 1 && t.reports[0].exit == s.lastExit
      && t.reports[0].killedReason == s.killedReason && t.reports[0].at == s.now)
    && (!t.settled ==>
      && t.reports == [] && t.spawnedAt == s.spawnedAt && t.pendingKillReason == s.pendingKillReason
      && t.lastExit == s.lastExit && t.drainTimer == s.drainTimer)
  }

  lemma SettleAnswers(s: State)
    requires !s.settled && s.reports == []
    ensures Answers(s, Settle(s, s.lastExit))
  {
    hide Terms;
  }

  lemma TriedAnswers(s: State, delivered: bool)
    requires !s.settled && s.reports == []
    ensures Answers(s, TryKill(s, delivered)) && !TryKill(s, delivered).settled
  {
    hide Terms;
    OneMoreTerm(s.signals, Sent(SIGKILL, s.now, delivered));
  }

  lemma AnswersOn(s: State, t: State, u: State)
    requires Answers(s, t) && !t.settled && Answers(t, u)
    ensures Answers(s, u)
  {
    hide Terms;
  }

  lemma PollAnswers(s: State, probe: Probe)
    requires !s.settled && s.reports == []
    ensures Answers(s, Poll(s, probe))
  {
    hide Terms, Settle, TryKill, HardDeadline;
    var seen, tried := s.(terminationConfirmed := true, drained := true), TryKill(s, probe.delivered);
    SettleAnswers(seen);
    TriedAnswers(s, probe.delivered);
    SettleAnswers(tried);
    AnswersOn(s, tried, Settle(tried, tried.lastExit));
  }

  lemma AwaitAnswers(s: State, probe: Probe)
    requires !s.settled && s.reports == []
    ensures Answers(s, AwaitTermination(s, probe))
  {
    hide Terms, Poll;
    if !s.waiting {
      PollAnswers(s.(waiting := true, terminationConfirmed := false, killTimer := Off, confirmDeadline := 0), probe);
    }
  }

  lemma FinalizeAnswers(s: State, exit: Exit, probe: Probe)
    requires !s.settled && s.reports == []
    ensures Answers(s.(lastExit := exit), Finalize(s, exit, probe))
    ensures !KillInFlight(s) ==> Finalize(s, exit, probe).settled
  {
    hide Terms, AwaitTermination;
    AwaitAnswers(s.(lastExit := exit), probe);
  }

  lemma ClosedAccounts(cfg: Config, now: nat, past: seq<Event>, s: State, e: Event)
    requires Accounted(now, past, s) && Enabled(s, e) && (e.Closed? || e.DrainFires?)
    ensures Continued(now, past, e, Step(cfg, s, e))
  {
    hide HasSpawned, FirstRequest, FirstExit, LastFinalized, Elapsed, TermsDue, Terms, Finalize;
    OneMore(past, e);
    OneMoreFinal(past, e);
    if e.Closed? {
      FinalizeAnswers(s, e.exit, e.probe);
    } else {
      FinalizeAnswers(s.(drainTimer := DrainFired), s.drainTimer.exit, e.probe);
    }
  }

  lemma WaitAccounts(cfg: Config, now: nat, past: seq<Event>, s: State, e: Event)
    requires Accounted(now, past, s) && Enabled(s, e) && (e.KillFires? || e.PollFires?)
    ensures Continued(now, past, e, Step(cfg, s, e))
  {
    hide HasSpawned, FirstRequest, FirstExit, LastFinalized, Elapsed, TermsDue, Terms, AwaitTermination, Poll;
    OneMore(past, e);
    OneMoreFinal(past, e);
    if e.KillFires? {
      AwaitAnswers(s.(killTimer := Off), e.probe);
    } else {
      PollAnswers(s.(pollTimer := Off), e.probe);
    }
  }

  lemma TimeoutAccounts(cfg: Config, now: nat, past: seq<Event>, s: State, e: Event, delivered: bool)
    requires Accounted(now, past, s) && ReasonOf(e) == Some(TimedOut)
    ensures Continued(now, past, e, RequestEscalation(cfg, s.(timeoutTimer := Off), TimedOut, delivered))
  {
    hide RequestEscalation, Continued;
    RequestAccounts(cfg, now, past, s.(timeoutTimer := Off), e, TimedOut, delivered);
  }

  lemma StepAccounts(cfg: Config, now: nat, past: seq<Event>, s: State, e: Event)
    requires Accounted(now, past, s) && Enabled(s, e)
    ensures Continued(now, past, e, Step(cfg, s, e))
  {
    hide Accounted, Continued;
    hide OnSpawn, OnSpawnError, RequestEscalation, OnExit, Finalize, AwaitTermination, Poll;
    match e
    case Spawned(_) => SpawnAccounts(cfg, now, past, s, e);
    case SpawnFailed => SpawnFailureAccounts(cfg, now, past, s, e);
    case Aborted(delivered) => RequestAccounts(cfg, now, past, s, e, Canceled, delivered);
    case Overflowed(delivered) => RequestAccounts(cfg, now, past, s, e, OutputTooLarge, delivered);
    case TimeoutFires(delivered) => TimeoutAccounts(cfg, now, past, s, e, delivered);
    case Exited(_) => QuietAccounts(cfg, now, past, s, e);
    case Advance(_) => QuietAccounts(cfg, now, past, s, e);
    case Closed(_, _) => ClosedAccounts(cfg, now, past, s, e);
    case DrainFires(_) => ClosedAccounts(cfg, now, past, s, e);
    case _ => WaitAccounts(cfg, now, past, s, e);
  }

  lemma {:induction false} RunAccounts(cfg: Config, now: nat, past: seq<Event>, s: State, events: seq<Event>)
    requires Accounted(now, past, s) && Safe(cfg, s) && IsRun(cfg, s, events) && !Run(cfg, s, events).settled
    ensures Accounted(now, past + events, Run(cfg, s, events))
    decreases events
  {
    hide Accounted, Safe, Step, Enabled;
    if events == [] {
      assert past + [] == past;
    } else {
      var e, rest := events[0], events[1..];
      StepIsSafe(cfg, s, e);
      StepAccounts(cfg, now, past, s, e);
      StaysSettled(cfg, Step(cfg, s, e), rest);
      RunAccounts(cfg, now, past + [e], Step(cfg, s, e), rest);
      assert past + [e] + rest == past + events;
    }
  }

  lemma StaysSettled(cfg: Config, s: State, events: seq<Event>)
    requires Safe(cfg, s) && IsRun(cfg, s, events) && !Run(cfg, s, events).settled
    ensures !s.settled
  {
    RunKeeps(cfg, s, events);
  }

  // ------------------------------------------------------------------------------ what is reported

  /**
   * The result of a run, from its events: the exit finalized last, or none; the first request made of
   * a child that was spawned, or that it never was; and the moment of the event that settled it. Each
   * request made of the child has sent it a SIGTERM.
   */
  lemma ReportTellsTheRun(cfg: Config, now: nat, before: seq<Event>, last: Event)
    requires IsRun(cfg, Start(cfg, now), before) && Enabled(Run(cfg, Start(cfg, now), before), last)
    requires !Run(cfg, Start(cfg, now), before).settled
    requires Step(cfg, Run(cfg, Start(cfg, now), before), last).settled
    ensures Reported(now, before, last, Step(cfg, Run(cfg, Start(cfg, now), before), last))
  {
    hide Accounted, Safe, Step, Enabled, Reported;
    StartIsSafe(cfg, now);
    StartIsAccounted(cfg, now);
    RunAccounts(cfg, now, [], Start(cfg, now), before);
    assert [] + before == before;
    StepAccounts(cfg, now, before, Run(cfg, Start(cfg, now), before), last);
  }

  /** With no kill requested, a run reports the exit it was closed with, or the first exit of its leader. */
  lemma OwnExitIsReported(cfg: Config, now: nat, before: seq<Event>, last: Event)
    requires IsRun(cfg, Start(cfg, now), before) && Enabled(Run(cfg, Start(cfg, now), before), last)
    requires !Run(cfg, Start(cfg, now), before).settled && forall e <- before :: !RequestsKill(e)
    requires last.Closed? || last.DrainFires?
    ensures var t := Step(cfg, Run(cfg, Start(cfg, now), before), last);
      && t.settled && |t.reports| == 1 && t.reports[0].killedReason.None?
      && Some(t.reports[0].exit) == if last.Closed? then Some(last.exit) else FirstExit(before)
  {
    hide Safe, Finalize, FirstRequest, FirstExit, LastFinalized, Elapsed, TermsDue, Terms, HasSpawned, Run, IsRun;
    StartIsSafe(cfg, now);
    StartIsAccounted(cfg, now);
    RunAccounts(cfg, now, [], Start(cfg, now), before);
    assert [] + before == before;
    NoRequest(before);
    OwnExit(cfg, now, before, Run(cfg, Start(cfg, now), before), last);
  }

  lemma OwnExit(cfg: Config, now: nat, past: seq<Event>, s: State, e: Event)
    requires Accounted(now, past, s) && Enabled(s, e) && FirstRequest(past).None? && (e.Closed? || e.DrainFires?)
    ensures var t := Step(cfg, s, e);
      && t.settled && |t.reports| == 1 && t.reports[0].killedReason.None?
      && Some(t.reports[0].exit) == if e.Closed? then Some(e.exit) else FirstExit(past)
  {
    hide Finalize, FirstRequest, FirstExit, LastFinalized, Elapsed, TermsDue, Terms, HasSpawned;
    if e.Closed? {
      FinalizeAnswers(s, e.exit, e.probe);
    } else {
      FinalizeAnswers(s.(drainTimer := DrainFired), s.drainTimer.exit, e.probe);
    }
  }

  /** The first event of a kind is the one that counts. */
  lemma {:induction false} FirstRequestAt(past: seq<Event>, i: nat)
    requires i < |past| && ReasonOf(past[i]).Some? && forall j :: 0 <= j < i ==> ReasonOf(past[j]).None?
    ensures FirstRequest(past) == ReasonOf(past[i])
  {
    if i < |past| - 1 { FirstRequestAt(past[..|past| - 1], i); } else { NoRequest(past[..i]); }
  }

  lemma {:induction false} NoRequest(past: seq<Event>)
    requires forall e <- past :: ReasonOf(e).None?
    ensures FirstRequest(past).None?
  {
    if past != [] {
      assert past[|past| - 1] in past;
      NoRequest(past[..|past| - 1]);
    }
  }

  // -------------------------------------------------------------------- what was tried before giving up

  /** A SIGKILL that landed long enough ago, or one that just failed when the deadline was as long ago. */
  ghost predicate TriedBy(x: Sent, at: nat, deadline: nat) {
    && x.signal == SIGKILL
    && if x.delivered then x.at + KILL_CONFIRM_MS <= at else x.at == at >= deadline + KILL_CONFIRM_MS
  }

  ghost predicate GaveUpAfterKilling(s: State) {
    s.settled && KillInFlight(s) && s.reports != [] && !s.reports[0].terminationConfirmed ==>
      exists x <- s.signals :: TriedBy(x, s.reports[0].at, s.killDeadline)
  }

  /** A SIGKILL that landed opened the confirmation window; none is sent after it. */
  ghost predicate KilledOnce(s: State) {
    && (s.confirmDeadline != 0 ==> exists x <- s.signals :: Landed(x) && x.at + KILL_CONFIRM_MS == s.confirmDeadline)
    && forall i, j :: 0 <= i < j < |s.signals| && Landed(s.signals[i]) ==> s.signals[j].signal != SIGKILL
  }

  ghost predicate Landed(x: Sent) {
    x.signal == SIGKILL && x.delivered
  }

  ghost predicate Chased(s: State) {
    KilledOnce(s) && GaveUpAfterKilling(s)
  }

  /** A handler that sends no SIGKILL, and settles nothing it has not settled before. */
  lemma MoreSignals(s: State, t: State, sent: Sent)
    requires Chased(s) && t.signals == s.signals + [sent] && sent.signal == SIGTERM
    requires t.confirmDeadline == s.confirmDeadline && !t.settled
    ensures Chased(t)
  {
    assert forall x <- s.signals :: x in t.signals;
  }

  /** What Safe says of kills, as far as it is needed here. */
  ghost predicate KillsKnown(s: State) {
    (s.hardKilled <==> Killed(s.signals)) && (s.hardKilled <==> s.confirmDeadline != 0)
  }

  lemma TryChases(s: State, delivered: bool)
    requires KilledOnce(s) && !s.settled && KillsKnown(s)
    ensures var t := TryKill(s, delivered);
      && KilledOnce(t) && t.now == s.now && t.killDeadline == s.killDeadline && t.killedReason == s.killedReason
      && (t.now >= HardDeadline(t) ==> exists x <- t.signals :: TriedBy(x, s.now, s.killDeadline))
  {
    var t := TryKill(s, delivered);
    if s.now >= s.killDeadline && s.confirmDeadline == 0 {
      var sent := Sent(SIGKILL, s.now, delivered);
      assert t.signals[|s.signals|] == sent && sent in t.signals;
      NoneLanded(s.signals);
    } else if s.confirmDeadline != 0 {
      var x :| x in s.signals && Landed(x) && x.at + KILL_CONFIRM_MS == s.confirmDeadline;
      assert x in t.signals;
      if s.now >= HardDeadline(t) { assert TriedBy(x, s.now, s.killDeadline); }
    }
  }

  lemma NoneLanded(signals: seq<Sent>)
    requires !Killed(signals)
    ensures forall x <- signals :: !Landed(x)
  {
  }

  lemma SameKills(s: State, t: State)
    requires t.signals == s.signals && t.confirmDeadline == s.confirmDeadline
    ensures KilledOnce(t) == KilledOnce(s)
  {
  }

  /** Nothing that is told of kills changes, or nothing is settled. */
  lemma SameChases(s: State, t: State)
    requires Chased(s) && t.signals == s.signals && t.confirmDeadline == s.confirmDeadline
    requires t.settled ==>
      s.settled && t.killedReason == s.killedReason && t.reports == s.reports && t.killDeadline == s.killDeadline
    ensures Chased(t)
  {
    hide KilledOnce;
    SameKills(s, t);
  }

  lemma PollChases(s: State, probe: Probe)
    requires KilledOnce(s) && !s.settled && KillsKnown(s) && s.reports == []
    ensures Chased(Poll(s, probe))
  {
    hide TryKill, KilledOnce, HardDeadline;
    TryChases(s, probe.delivered);
    TriedAnswers(s, probe.delivered);
    SameKills(if probe.empty then s else TryKill(s, probe.delivered), Poll(s, probe));
  }

  lemma AwaitChases(s: State, probe: Probe)
    requires Chased(s) && KillsKnown(s) && !s.settled && s.reports == [] && (!s.waiting ==> s.confirmDeadline == 0)
    ensures Chased(AwaitTermination(s, probe))
  {
    hide Poll;
    var w := s.(waiting := true, terminationConfirmed := false, killTimer := Off, confirmDeadline := 0);
    if !s.waiting { PollChases(w, probe); }
  }

  lemma FinalizeChases(s: State, exit: Exit, probe: Probe)
    requires Chased(s) && KillsKnown(s) && (!s.settled ==> s.reports == [] && (!s.waiting ==> s.confirmDeadline == 0))
    ensures Chased(Finalize(s, exit, probe))
  {
    hide AwaitTermination, KilledOnce;
    SameKills(s, s.(lastExit := exit));
    if !s.settled {
      AwaitChases(s.(lastExit := exit), probe);
      SameKills(s, Settle(s.(lastExit := exit), exit));
    }
  }

  /** What a request, or a spawn that finds one pending, does besides sending a SIGTERM. */
  ghost predicate Escalated(s: State, t: State, sends: bool, delivered: bool) {
    && t.confirmDeadline == s.confirmDeadline && t.settled == s.settled
    && t.signals == s.signals + (if sends then [Sent(SIGTERM, s.now, delivered)] else [])
    && (s.settled ==> t.killedReason == s.killedReason && t.reports == s.reports && t.killDeadline == s.killDeadline)
  }

  lemma EscalatedChases(s: State, t: State, sends: bool, delivered: bool)
    requires Chased(s) && Escalated(s, t, sends, delivered) && (sends ==> !s.settled)
    ensures Chased(t)
  {
    hide Chased;
    if sends {
      MoreSignals(s, t, Sent(SIGTERM, s.now, delivered));
    } else {
      SameChases(s, t);
    }
  }

  lemma RequestChases(cfg: Config, s: State, reason: KillReason, delivered: bool)
    requires Chased(s)
    ensures Chased(RequestEscalation(cfg, s, reason, delivered))
  {
    hide Chased;
    EscalatedChases(s, RequestEscalation(cfg, s, reason, delivered), s.spawnedAt.Some? && !s.settled, delivered);
  }

  lemma SpawnChases(cfg: Config, s: State, delivered: bool)
    requires Chased(s)
    ensures Chased(OnSpawn(cfg, s, delivered))
  {
    hide Chased;
    EscalatedChases(s, OnSpawn(cfg, s, delivered), s.pendingKillReason.Some? && !s.settled, delivered);
  }

  lemma QuietChases(cfg: Config, s: State, e: Event)
    requires Safe(cfg, s) && Chased(s) && (e.SpawnFailed? || e.Exited? || e.Advance?)
    ensures Chased(Step(cfg, s, e))
  {
    hide KilledOnce;
    SameKills(s, Step(cfg, s, e));
  }

  lemma EndChases(cfg: Config, s: State, e: Event)
    requires Safe(cfg, s) && Chased(s) && Enabled(s, e) && (e.Closed? || e.DrainFires? || e.KillFires? || e.PollFires?)
    ensures Chased(Step(cfg, s, e))
  {
    hide Finalize, AwaitTermination, Poll, KilledOnce, HonestReport;
    match e
    case Closed(exit, probe) => FinalizeChases(s, exit, probe);
    case DrainFires(probe) =>
      SameKills(s, s.(drainTimer := DrainFired));
      FinalizeChases(s.(drainTimer := DrainFired), s.drainTimer.exit, probe);
    case KillFires(probe) =>
      SameKills(s, s.(killTimer := Off));
      AwaitChases(s.(killTimer := Off), probe);
    case PollFires(probe) =>
      SameKills(s, s.(pollTimer := Off));
      PollChases(s.(pollTimer := Off), probe);
  }

  lemma StepChases(cfg: Config, s: State, e: Event)
    requires Safe(cfg, s) && Chased(s) && Enabled(s, e)
    ensures Chased(Step(cfg, s, e))
  {
    hide Safe, KilledOnce, OnSpawn, RequestEscalation, Finalize, AwaitTermination, Poll, OnSpawnError, OnExit;
    match e
    case Spawned(delivered) => SpawnChases(cfg, s, delivered);
    case Aborted(delivered) => RequestChases(cfg, s, Canceled, delivered);
    case Overflowed(delivered) => RequestChases(cfg, s, OutputTooLarge, delivered);
    case TimeoutFires(delivered) =>
      SameKills(s, s.(timeoutTimer := Off));
      RequestChases(cfg, s.(timeoutTimer := Off), TimedOut, delivered);
    case SpawnFailed => QuietChases(cfg, s, e);
    case Exited(_) => QuietChases(cfg, s, e);
    case Advance(_) => QuietChases(cfg, s, e);
    case _ => EndChases(cfg, s, e);
  }

  lemma {:induction false} RunChases(cfg: Config, s: State, events: seq<Event>)
    requires Safe(cfg, s) && Chased(s) && IsRun(cfg, s, events)
    ensures Chased(Run(cfg, s, events))
    decreases events
  {
    hide Safe, Chased, Step, Enabled;
    if events != [] {
      StepIsSafe(cfg, s, events[0]);
      StepChases(cfg, s, events[0]);
      RunChases(cfg, Step(cfg, s, events[0]), events[1..]);
    }
  }

  /**
   * A killed run that never saw its group empty gives up only after a SIGKILL: one that landed half a
   * second before, or one that it tried and failed to send just then, half a second after the
   * deadline. Once a SIGKILL has landed no other is sent.
   */
  lemma GivesUpOnlyAfterKilling(cfg: Config, now: nat, events: seq<Event>)
    requires IsRun(cfg, Start(cfg, now), events)
    ensures var s := Run(cfg, Start(cfg, now), events);
      && GaveUpAfterKilling(s)
      && forall i, j :: 0 <= i < j < |s.signals| && Landed(s.signals[i]) ==> s.signals[j].signal != SIGKILL
  {
    StartIsSafe(cfg, now);
    RunChases(cfg, Start(cfg, now), events);
  }

  /** From the kill deadline on every poll that finds the group alive tries a SIGKILL, until one lands. */
  lemma EveryPollTries(cfg: Config, now: nat, before: seq<Event>, probe: Probe)
    requires IsRun(cfg, Start(cfg, now), before) && Enabled(Run(cfg, Start(cfg, now), before), PollFires(probe))
    requires !probe.empty && Run(cfg, Start(cfg, now), before).now >= Run(cfg, Start(cfg, now), before).killDeadline
    ensures var s := Run(cfg, Start(cfg, now), before); var t := Step(cfg, s, PollFires(probe));
      if Killed(s.signals) then t.signals == s.signals
      else t.signals == s.signals + [Sent(SIGKILL, s.now, probe.delivered)]
  {
    StartIsSafe(cfg, now);
    RunIsSafe(cfg, Start(cfg, now), before);
  }
}
