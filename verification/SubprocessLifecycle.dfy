/**
 * The lifecycle of one bounded subprocess as a timed state machine.
 *
 * A state holds the closure variables of the original plus what an observer would
 * record: the clock, the signals sent and the results resolved. Whether a signal is
 * delivered and whether a group looks empty are inputs of each event, so a run may
 * have them behave in any way. One handler runs at one reading of the clock.
 */
module SubprocessLifecycle {
  import opened Options

  const STREAM_DRAIN_GRACE_MS: nat := 200
  const GROUP_DRAIN_POLL_MS: nat := 25
  const KILL_CONFIRM_MS: nat := 500

  datatype KillReason = TimedOut | OutputTooLarge | Canceled | SpawnError

  datatype Exit = Exit(code: Option<int>, signal: Option<int>)

  const NO_EXIT := Exit(None, None)

  datatype Signal = SIGTERM | SIGKILL

  datatype Sent = Sent(signal: Signal, at: nat, delivered: bool)

  datatype Report = Report(
    exit: Exit, killedReason: Option<KillReason>, hardKilled: bool, terminationConfirmed: bool, at: nat)

  datatype Config = Config(timeoutMs: nat, killGraceMs: nat)

  datatype Timer = Off | Due(at: nat)

  datatype DrainTimer = NoDrain | DrainDue(at: nat, exit: Exit) | DrainFired

  datatype State = State(
    now: nat,
    startedAt: nat,
    spawnedAt: Option<nat>,
    pendingKillReason: Option<KillReason>,
    killedReason: Option<KillReason>,
    killDeadline: nat,
    confirmDeadline: nat,
    hardKilled: bool,
    settled: bool,
    waiting: bool,
    lastExit: Exit,
    terminationConfirmed: bool,
    timeoutTimer: Timer,
    killTimer: Timer,
    drainTimer: DrainTimer,
    pollTimer: Timer,
    drained: bool,           // observer: the group was once seen empty
    signals: seq<Sent>,      // observer: every signal attempted
    reports: seq<Report>)    // observer: every resolution

  /** What a poll meets: whether the group looks empty, and whether a SIGKILL would land. */
  datatype Probe = Probe(empty: bool, delivered: bool)

  datatype Event =
    | Spawned(delivered: bool)
    | SpawnFailed
    | Aborted(delivered: bool)
    | Overflowed(delivered: bool)
    | TimeoutFires(delivered: bool)
    | Exited(exit: Exit)
    | Closed(exit: Exit, probe: Probe)
    | DrainFires(probe: Probe)
    | KillFires(probe: Probe)
    | PollFires(probe: Probe)
    | Advance(ms: nat)

  ghost function Start(cfg: Config, now: nat): State {
    State(now, now, None, None, None, 0, 0, false, false, false, NO_EXIT, true,
          Due(now + cfg.timeoutMs), Off, NoDrain, Off, false, [], [])
  }

  // ------------------------------------------------------------------- the handlers

  ghost function WithoutTimers(s: State): State {
    s.(timeoutTimer := Off, killTimer := Off, pollTimer := Off,
       drainTimer := if s.drainTimer.NoDrain? then NoDrain else DrainFired)
  }

  ghost function Resolve(s: State, exit: Exit): State {
    s.(settled := true,
       reports := s.reports + [Report(exit, s.killedReason, s.hardKilled, s.terminationConfirmed, s.now)])
  }

  ghost function Settle(s: State, exit: Exit): State {
    if s.settled then s else Resolve(WithoutTimers(s), exit)
  }

  ghost function SendSignal(s: State, signal: Signal, delivered: bool): State {
    s.(signals := s.signals + [Sent(signal, s.now, delivered)])
  }

  ghost function TryKill(s: State, delivered: bool): State {
    if s.now >= s.killDeadline && s.confirmDeadline == 0 then
      var sent := SendSignal(s, SIGKILL, delivered);
      if delivered then sent.(hardKilled := true, confirmDeadline := s.now + KILL_CONFIRM_MS) else sent
    else s
  }

  ghost function HardDeadline(s: State): nat {
    if s.confirmDeadline != 0 then s.confirmDeadline else s.killDeadline + KILL_CONFIRM_MS
  }

  ghost function Poll(s: State, probe: Probe): State {
    if s.settled then s
    else if probe.empty then Settle(s.(terminationConfirmed := true, drained := true), s.lastExit)
    else
      var tried := TryKill(s, probe.delivered);
      if s.now >= HardDeadline(tried) then Settle(tried, s.lastExit)
      else tried.(pollTimer := Due(s.now + GROUP_DRAIN_POLL_MS))
  }

  ghost function AwaitTermination(s: State, probe: Probe): State {
    if s.settled || s.waiting then s
    else Poll(s.(waiting := true, terminationConfirmed := false, killTimer := Off, confirmDeadline := 0), probe)
  }

  ghost function Finalize(s: State, exit: Exit, probe: Probe): State {
    if s.settled then s else
      var noted := s.(lastExit := exit);
      if !KillInFlight(s) then Settle(noted, exit) else AwaitTermination(noted, probe)
  }

  ghost predicate KillInFlight(s: State) {
    s.killedReason.Some? && s.killedReason != Some(SpawnError)
  }

  ghost function Escalate(cfg: Config, s: State, reason: KillReason, delivered: bool): State {
    if s.settled then s
    else if s.killedReason.Some? then SendSignal(s, SIGTERM, delivered)
    else SendSignal(s, SIGTERM, delivered).(
      killedReason := Some(reason), killDeadline := s.now + cfg.killGraceMs,
      killTimer := Due(s.now + cfg.killGraceMs))
  }

  ghost function RequestEscalation(cfg: Config, s: State, reason: KillReason, delivered: bool): State {
    if s.spawnedAt.Some? then Escalate(cfg, s, reason, delivered)
    else if s.pendingKillReason.None? then s.(pendingKillReason := Some(reason))
    else s
  }

  ghost function OnSpawn(cfg: Config, s: State, delivered: bool): State {
    var spawned := s.(spawnedAt := Some(s.now));
    match s.pendingKillReason
    case None => spawned
    case Some(reason) => Escalate(cfg, spawned.(pendingKillReason := None), reason, delivered)
  }

  ghost function OnSpawnError(s: State): State {
    if s.settled || s.spawnedAt.Some? then s
    else Finalize(s.(killedReason := Some(SpawnError)), NO_EXIT, Probe(false, false))
  }

  ghost function OnExit(s: State, exit: Exit): State {
    if s.settled || !s.drainTimer.NoDrain? then s
    else s.(drainTimer := DrainDue(s.now + STREAM_DRAIN_GRACE_MS, exit))
  }

  // ---------------------------------------------------------------------- the runs

  ghost predicate Enabled(s: State, e: Event) {
    match e
    case Spawned(_) => s.spawnedAt.None?
    case TimeoutFires(_) => s.timeoutTimer.Due? && s.timeoutTimer.at <= s.now
    case KillFires(_) => s.killTimer.Due? && s.killTimer.at <= s.now
    case DrainFires(_) => s.drainTimer.DrainDue? && s.drainTimer.at <= s.now
    case PollFires(_) => s.pollTimer.Due? && s.pollTimer.at <= s.now
    case _ => true
  }

  ghost function Step(cfg: Config, s: State, e: Event): State
    requires Enabled(s, e)
  {
    match e
    case Spawned(delivered) => OnSpawn(cfg, s, delivered)
    case SpawnFailed => OnSpawnError(s)
    case Aborted(delivered) => RequestEscalation(cfg, s, Canceled, delivered)
    case Overflowed(delivered) => RequestEscalation(cfg, s, OutputTooLarge, delivered)
    case TimeoutFires(delivered) => RequestEscalation(cfg, s.(timeoutTimer := Off), TimedOut, delivered)
    case Exited(exit) => OnExit(s, exit)
    case Closed(exit, probe) => Finalize(s, exit, probe)
    case DrainFires(probe) => Finalize(s.(drainTimer := DrainFired), s.drainTimer.exit, probe)
    case KillFires(probe) => AwaitTermination(s.(killTimer := Off), probe)
    case PollFires(probe) => Poll(s.(pollTimer := Off), probe)
    case Advance(ms) => s.(now := s.now + ms)
  }

  /** A run: any enabled events, in any order, at any times. */
  ghost predicate IsRun(cfg: Config, s: State, events: seq<Event>)
    decreases events
  {
    events == [] || (Enabled(s, events[0]) && IsRun(cfg, Step(cfg, s, events[0]), events[1..]))
  }

  ghost function Run(cfg: Config, s: State, events: seq<Event>): State
    requires IsRun(cfg, s, events)
    decreases events
  {
    if events == [] then s else Run(cfg, Step(cfg, s, events[0]), events[1..])
  }

  // ------------------------------------------------------- safety, whatever the timing

  ghost predicate Killed(signals: seq<Sent>) {
    exists i :: 0 <= i < |signals| && signals[i].signal == SIGKILL && signals[i].delivered
  }

  /** The resolved result says what was known and done when it was resolved. */
  ghost predicate HonestReport(s: State) {
    |s.reports| == 1 &&
    var r := s.reports[0];
    && r.killedReason == s.killedReason && r.hardKilled == s.hardKilled && r.at <= s.now
    && (r.hardKilled <==> Killed(s.signals))
    && (if KillInFlight(s) then r.terminationConfirmed <==> s.drained else r.terminationConfirmed)
  }

  ghost predicate Safe(cfg: Config, s: State) {
    && (if s.settled then HonestReport(s) else s.reports == [])
    && (s.hardKilled <==> Killed(s.signals))
    && (KillInFlight(s) ==> s.spawnedAt.Some? && s.signals != [] && s.signals[0].signal == SIGTERM
                            && s.killDeadline == s.signals[0].at + cfg.killGraceMs)
    && (!KillInFlight(s) ==> s.signals == [])
    && (s.killedReason == Some(SpawnError) ==> s.settled)
    && (s.pendingKillReason.Some? ==> s.spawnedAt.None? && s.pendingKillReason != Some(SpawnError))
    && (forall i :: 0 <= i < |s.signals| && s.signals[i].signal == SIGKILL ==> s.signals[i].at >= s.killDeadline)
    && (!s.settled ==> !s.drained && (s.waiting ==> KillInFlight(s)) && (s.terminationConfirmed <==> !s.waiting))
    && (s.confirmDeadline != 0 ==> s.hardKilled)
    && (s.pollTimer.Due? ==> s.waiting && !s.settled)
    && (s.killTimer.Due? ==> KillInFlight(s) && !s.waiting && !s.settled)
    && (s.hardKilled ==> s.confirmDeadline != 0)
    && (s.hardKilled ==> s.waiting)
  }

  lemma StartIsSafe(cfg: Config, now: nat)
    ensures Safe(cfg, Start(cfg, now))
  {
  }

  lemma SendKeepsKilled(signals: seq<Sent>, sent: Sent)
    ensures Killed(signals + [sent]) <==> Killed(signals) || (sent.signal == SIGKILL && sent.delivered)
  {
    var after := signals + [sent];
    if sent.signal == SIGKILL && sent.delivered { assert after[|signals|] == sent; }
    if Killed(signals) {
      var i :| 0 <= i < |signals| && signals[i].signal == SIGKILL && signals[i].delivered;
      assert after[i] == signals[i];
    }
  }

  lemma EscalateIsSafe(cfg: Config, s: State, reason: KillReason, delivered: bool)
    requires Safe(cfg, s) && s.spawnedAt.Some? && reason != SpawnError
    ensures Safe(cfg, Escalate(cfg, s, reason, delivered))
  {
    SendKeepsKilled(s.signals, Sent(SIGTERM, s.now, delivered));
  }

  lemma PollIsSafe(cfg: Config, s: State, probe: Probe)
    requires Safe(cfg, s) && !s.settled && s.waiting
    ensures Safe(cfg, Poll(s, probe))
  {
    SendKeepsKilled(s.signals, Sent(SIGKILL, s.now, probe.delivered));
  }

  lemma StepIsSafe(cfg: Config, s: State, e: Event)
    requires Safe(cfg, s) && Enabled(s, e)
    ensures Safe(cfg, Step(cfg, s, e))
  {
    hide Safe, OnSpawn, OnSpawnError, RequestEscalation, AwaitTermination, Finalize, Poll;
    match e
    case Spawned(delivered) => SpawnIsSafe(cfg, s, delivered);
    case SpawnFailed => SpawnErrorIsSafe(cfg, s);
    case Aborted(delivered) => RequestIsSafe(cfg, s, Canceled, delivered);
    case Overflowed(delivered) => RequestIsSafe(cfg, s, OutputTooLarge, delivered);
    case TimeoutFires(delivered) => TimeoutIsSafe(cfg, s, delivered);
    case Closed(exit, probe) => FinalizeIsSafe(cfg, s, exit, probe);
    case DrainFires(probe) => DrainIsSafe(cfg, s, probe);
    case KillFires(probe) => KillFiresIsSafe(cfg, s, probe);
    case PollFires(probe) => PollFiresIsSafe(cfg, s, probe);
    case _ => QuietIsSafe(cfg, s, e);
  }

  lemma TimeoutIsSafe(cfg: Config, s: State, delivered: bool)
    requires Safe(cfg, s)
    ensures Safe(cfg, RequestEscalation(cfg, s.(timeoutTimer := Off), TimedOut, delivered))
  {
    RequestIsSafe(cfg, s.(timeoutTimer := Off), TimedOut, delivered);
  }

  lemma DrainIsSafe(cfg: Config, s: State, probe: Probe)
    requires Safe(cfg, s) && s.drainTimer.DrainDue?
    ensures Safe(cfg, Finalize(s.(drainTimer := DrainFired), s.drainTimer.exit, probe))
  {
    FinalizeIsSafe(cfg, s.(drainTimer := DrainFired), s.drainTimer.exit, probe);
  }

  lemma KillFiresIsSafe(cfg: Config, s: State, probe: Probe)
    requires Safe(cfg, s) && s.killTimer.Due?
    ensures Safe(cfg, AwaitTermination(s.(killTimer := Off), probe))
  {
    AwaitIsSafe(cfg, s.(killTimer := Off), probe);
  }

  lemma PollFiresIsSafe(cfg: Config, s: State, probe: Probe)
    requires Safe(cfg, s) && s.pollTimer.Due?
    ensures Safe(cfg, Poll(s.(pollTimer := Off), probe))
  {
    PollIsSafe(cfg, s.(pollTimer := Off), probe);
  }

  lemma QuietIsSafe(cfg: Config, s: State, e: Event)
    requires Safe(cfg, s) && (e.Exited? || e.Advance?)
    ensures Safe(cfg, Step(cfg, s, e))
  {
  }

  lemma SpawnErrorIsSafe(cfg: Config, s: State)
    requires Safe(cfg, s)
    ensures Safe(cfg, OnSpawnError(s))
  {
  }

  lemma SpawnIsSafe(cfg: Config, s: State, delivered: bool)
    requires Safe(cfg, s) && s.spawnedAt.None?
    ensures Safe(cfg, OnSpawn(cfg, s, delivered))
  {
    if s.pendingKillReason.Some? {
      var spawned := s.(spawnedAt := Some(s.now), pendingKillReason := None);
      EscalateIsSafe(cfg, spawned, s.pendingKillReason.value, delivered);
    }
  }

  lemma RequestIsSafe(cfg: Config, s: State, reason: KillReason, delivered: bool)
    requires Safe(cfg, s) && reason != SpawnError
    ensures Safe(cfg, RequestEscalation(cfg, s, reason, delivered))
  {
    if s.spawnedAt.Some? { EscalateIsSafe(cfg, s, reason, delivered); }
  }

  lemma AwaitIsSafe(cfg: Config, s: State, probe: Probe)
    requires Safe(cfg, s) && KillInFlight(s)
    ensures Safe(cfg, AwaitTermination(s, probe))
  {
    if !s.settled && !s.waiting {
      var waiting := s.(waiting := true, terminationConfirmed := false, killTimer := Off, confirmDeadline := 0);
      PollIsSafe(cfg, waiting, probe);
    }
  }

  lemma FinalizeIsSafe(cfg: Config, s: State, exit: Exit, probe: Probe)
    requires Safe(cfg, s)
    ensures Safe(cfg, Finalize(s, exit, probe))
  {
    if KillInFlight(s) { AwaitIsSafe(cfg, s.(lastExit := exit), probe); }
  }

  /** In every run: at most one resolution, and it is honest. */
  lemma {:induction false} RunIsSafe(cfg: Config, s: State, events: seq<Event>)
    requires Safe(cfg, s) && IsRun(cfg, s, events)
    ensures Safe(cfg, Run(cfg, s, events))
    decreases events
  {
    if events != [] {
      StepIsSafe(cfg, s, events[0]);
      RunIsSafe(cfg, Step(cfg, s, events[0]), events[1..]);
    }
  }

  /** What a step may never undo: the first reason, the first deadline, a settled state. */
  ghost predicate Keeps(s: State, t: State) {
    && (s.killedReason.Some? ==> t.killedReason == s.killedReason)
    && (KillInFlight(s) ==> t.killDeadline == s.killDeadline)
    && (s.settled ==> t.settled && t.reports == s.reports && t.signals == s.signals && t.killedReason == s.killedReason)
    && s.signals <= t.signals && s.reports <= t.reports
    && s.now <= t.now
  }

  lemma StepKeeps(cfg: Config, s: State, e: Event)
    requires Safe(cfg, s) && Enabled(s, e)
    ensures Keeps(s, Step(cfg, s, e))
  {
    hide OnSpawn, RequestEscalation, Finalize, AwaitTermination, Poll, OnSpawnError, OnExit, Killed, HonestReport;
    match e
    case Spawned(delivered) => SpawnKeeps(cfg, s, delivered);
    case Aborted(delivered) => RequestKeeps(cfg, s, Canceled, delivered);
    case Overflowed(delivered) => RequestKeeps(cfg, s, OutputTooLarge, delivered);
    case TimeoutFires(delivered) => TimeoutKeeps(cfg, s, delivered);
    case Closed(exit, probe) => FinalizeKeeps(s, exit, probe);
    case DrainFires(probe) => FinalizeKeeps(s.(drainTimer := DrainFired), s.drainTimer.exit, probe);
    case KillFires(probe) => AwaitKeeps(s.(killTimer := Off), probe);
    case PollFires(probe) => PollKeeps(s.(pollTimer := Off), probe);
    case _ => QuietKeeps(cfg, s, e);
  }

  lemma QuietKeeps(cfg: Config, s: State, e: Event)
    requires Safe(cfg, s) && (e.SpawnFailed? || e.Exited? || e.Advance?)
    ensures Keeps(s, Step(cfg, s, e))
  {
  }

  lemma EscalateKeeps(cfg: Config, s: State, reason: KillReason, delivered: bool)
    requires reason != SpawnError && (s.killedReason == Some(SpawnError) ==> s.settled)
    ensures Keeps(s, Escalate(cfg, s, reason, delivered))
  {
  }

  lemma RequestKeeps(cfg: Config, s: State, reason: KillReason, delivered: bool)
    requires Safe(cfg, s) && reason != SpawnError
    ensures Keeps(s, RequestEscalation(cfg, s, reason, delivered))
  {
    hide Escalate;
    if s.spawnedAt.Some? { EscalateKeeps(cfg, s, reason, delivered); }
  }

  lemma TimeoutKeeps(cfg: Config, s: State, delivered: bool)
    requires Safe(cfg, s)
    ensures Keeps(s, RequestEscalation(cfg, s.(timeoutTimer := Off), TimedOut, delivered))
  {
    RequestKeeps(cfg, s.(timeoutTimer := Off), TimedOut, delivered);
  }

  lemma SpawnKeeps(cfg: Config, s: State, delivered: bool)
    requires Safe(cfg, s) && s.spawnedAt.None?
    ensures Keeps(s, OnSpawn(cfg, s, delivered))
  {
    hide Escalate;
    if s.pendingKillReason.Some? {
      EscalateKeeps(cfg, s.(spawnedAt := Some(s.now), pendingKillReason := None), s.pendingKillReason.value, delivered);
    }
  }

  lemma KeepsOn(s: State, t: State, u: State)
    requires Keeps(s, t) && Keeps(t, u)
    ensures Keeps(s, u)
  {
  }

  lemma TriedKeeps(s: State, delivered: bool)
    requires !s.settled
    ensures Keeps(s, TryKill(s, delivered))
  {
    assert s.signals <= s.signals + [Sent(SIGKILL, s.now, delivered)];
  }

  lemma PollKeeps(s: State, probe: Probe)
    ensures Keeps(s, Poll(s, probe))
  {
    hide Settle, HardDeadline, TryKill;
    var seen, tried := s.(terminationConfirmed := true, drained := true), TryKill(s, probe.delivered);
    if probe.empty {
      SettleKeeps(seen, s.lastExit);
      assert !s.settled ==> Keeps(s, seen);
      if !s.settled { KeepsOn(s, seen, Settle(seen, s.lastExit)); }
    } else if !s.settled {
      TriedKeeps(s, probe.delivered);
      SettleKeeps(tried, s.lastExit);
      KeepsOn(s, tried, Settle(tried, s.lastExit));
    }
  }

  lemma SettleKeeps(s: State, exit: Exit)
    ensures Keeps(s, Settle(s, exit))
  {
  }

  lemma AwaitKeeps(s: State, probe: Probe)
    ensures Keeps(s, AwaitTermination(s, probe))
  {
    hide Poll;
    PollKeeps(s.(waiting := true, terminationConfirmed := false, killTimer := Off, confirmDeadline := 0), probe);
  }

  lemma FinalizeKeeps(s: State, exit: Exit, probe: Probe)
    ensures Keeps(s, Finalize(s, exit, probe))
  {
    hide AwaitTermination;
    AwaitKeeps(s.(lastExit := exit), probe);
  }

  lemma {:induction false} RunKeeps(cfg: Config, s: State, events: seq<Event>)
    requires Safe(cfg, s) && IsRun(cfg, s, events)
    ensures Keeps(s, Run(cfg, s, events))
    decreases events
  {
    if events != [] {
      StepIsSafe(cfg, s, events[0]);
      StepKeeps(cfg, s, events[0]);
      RunKeeps(cfg, Step(cfg, s, events[0]), events[1..]);
    }
  }

  ghost predicate RequestsKill(e: Event) {
    e.Aborted? || e.Overflowed? || e.TimeoutFires?
  }

  /** A child that settles before any kill is requested is never signalled, then or later. */
  lemma {:induction false} NeverSignalledUnlessRequested(cfg: Config, s: State, before: seq<Event>, after: seq<Event>)
    requires Safe(cfg, s) && s.killedReason.None? && s.pendingKillReason.None? && !s.settled
    requires IsRun(cfg, s, before) && forall e <- before :: !RequestsKill(e)
    requires Run(cfg, s, before).settled && IsRun(cfg, Run(cfg, s, before), after)
    ensures Run(cfg, Run(cfg, s, before), after).signals == []
    ensures |Run(cfg, s, before).reports| == 1
    ensures Run(cfg, s, before).reports[0].killedReason in {None, Some(SpawnError)}
  {
    UnrequestedRun(cfg, s, before);
    RunIsSafe(cfg, s, before);
    RunKeeps(cfg, Run(cfg, s, before), after);
  }

  lemma {:induction false} UnrequestedRun(cfg: Config, s: State, events: seq<Event>)
    requires Safe(cfg, s) && !KillInFlight(s) && s.pendingKillReason.None?
    requires IsRun(cfg, s, events) && forall e <- events :: !RequestsKill(e)
    ensures !KillInFlight(Run(cfg, s, events))
    decreases events
  {
    if events != [] {
      assert events[0] in events;
      StepIsSafe(cfg, s, events[0]);
      UnrequestedRun(cfg, Step(cfg, s, events[0]), events[1..]);
    }
  }

  /** A request outlives everything but settlement: at once, or from the spawn on. */
  lemma {:induction false} RequestSticks(cfg: Config, s: State, events: seq<Event>)
    requires Safe(cfg, s) && IsRun(cfg, s, events) && !Run(cfg, s, events).settled
    requires KillInFlight(s) || s.pendingKillReason.Some? || exists e <- events :: RequestsKill(e)
    ensures KillInFlight(Run(cfg, s, events)) || Run(cfg, s, events).pendingKillReason.Some?
    decreases events
  {
    if events != [] {
      var e, rest := events[0], events[1..];
      assert events == [e] + rest;
      StepIsSafe(cfg, s, e);
      RunKeeps(cfg, Step(cfg, s, e), rest);
      assert !Step(cfg, s, e).settled;
      RequestTaken(cfg, s, e);
      RequestSticks(cfg, Step(cfg, s, e), rest);
    }
  }

  lemma RequestTaken(cfg: Config, s: State, e: Event)
    requires Safe(cfg, s) && Enabled(s, e) && !Step(cfg, s, e).settled
    ensures KillInFlight(s) || s.pendingKillReason.Some? || RequestsKill(e) ==>
      KillInFlight(Step(cfg, s, e)) || Step(cfg, s, e).pendingKillReason.Some?
  {
    StepKeeps(cfg, s, e);
  }

  /** While a spawned child is unsettled, it is being killed exactly if someone asked. */
  lemma KilledExactlyWhenRequested(cfg: Config, now: nat, events: seq<Event>)
    requires IsRun(cfg, Start(cfg, now), events)
    requires var s := Run(cfg, Start(cfg, now), events); !s.settled && s.spawnedAt.Some?
    ensures KillInFlight(Run(cfg, Start(cfg, now), events)) <==> exists e <- events :: RequestsKill(e)
  {
    StartIsSafe(cfg, now);
    RunIsSafe(cfg, Start(cfg, now), events);
    if exists e <- events :: RequestsKill(e) {
      RequestSticks(cfg, Start(cfg, now), events);
    } else {
      UnrequestedRun(cfg, Start(cfg, now), events);
    }
  }

  /**
   * What the result says of a spawned child: no reason exactly when nothing had asked for a
   * kill by the time it settled, whether or not the child had already exited by itself.
   */
  lemma ReasonReportedExactlyWhenRequested(cfg: Config, now: nat, before: seq<Event>, last: Event)
    requires IsRun(cfg, Start(cfg, now), before) && Enabled(Run(cfg, Start(cfg, now), before), last)
    requires var s := Run(cfg, Start(cfg, now), before);
      !s.settled && s.spawnedAt.Some? && Step(cfg, s, last).settled
    ensures |Step(cfg, Run(cfg, Start(cfg, now), before), last).reports| == 1
    ensures Step(cfg, Run(cfg, Start(cfg, now), before), last).reports[0].killedReason.Some? <==>
      exists e <- before :: RequestsKill(e)
  {
    var s := Run(cfg, Start(cfg, now), before);
    StartIsSafe(cfg, now);
    RunIsSafe(cfg, Start(cfg, now), before);
    KilledExactlyWhenRequested(cfg, now, before);
    StepIsSafe(cfg, s, last);
    StepKeeps(cfg, s, last);
    if !KillInFlight(s) { UnkilledSettles(cfg, s, last); }
  }

  lemma UnkilledSettles(cfg: Config, s: State, e: Event)
    requires Safe(cfg, s) && Enabled(s, e) && !s.settled && s.spawnedAt.Some? && !KillInFlight(s)
    requires Step(cfg, s, e).settled
    ensures Step(cfg, s, e).killedReason.None?
  {
  }

  /** A leader that has just exited by itself, its streams still draining, at the timeout. */
  ghost function InDrainWindow(cfg: Config, now: nat): State {
    Start(cfg, now).(now := now + 100, spawnedAt := Some(now),
      drainTimer := DrainDue(now + STREAM_DRAIN_GRACE_MS, Exit(Some(0), None)))
  }

  lemma TimedOutInDrainWindow(cfg: Config, now: nat) returns (events: seq<Event>)
    requires cfg == Config(100, 1000)
    ensures var s := InDrainWindow(cfg, now); IsExactRun(cfg, s, events) && IsRun(cfg, s, events)
    ensures var s := Run(cfg, InDrainWindow(cfg, now), events);
      && s.settled && s.signals != []
      && s.reports == [Report(Exit(Some(0), None), Some(TimedOut), false, true, now + STREAM_DRAIN_GRACE_MS)]
  {
    var d := InDrainWindow(cfg, now);
    var e := Step(cfg, d, TimeoutFires(true));
    var f := Step(cfg, e, Advance(100));
    events := Prepend(cfg, f, DrainFires(Probe(true, false)), []);
    events := Prepend(cfg, e, Advance(100), events);
    events := Prepend(cfg, d, TimeoutFires(true), events);
  }

  /**
   * The drain window: a leader that exited by itself, with the timeout falling within
   * the stream drain grace, is signalled and reported as timed out, with its own exit.
   */
  lemma ExitedButReportedAsTimedOut(now: nat) returns (cfg: Config, events: seq<Event>)
    ensures IsExactRun(cfg, Start(cfg, now), events) && IsRun(cfg, Start(cfg, now), events)
    ensures var s := Run(cfg, Start(cfg, now), events);
      && s.settled && s.signals != []
      && s.reports == [Report(Exit(Some(0), None), Some(TimedOut), false, true, now + STREAM_DRAIN_GRACE_MS)]
  {
    cfg := Config(100, 1000);
    var a := Start(cfg, now);
    var b := Step(cfg, a, Spawned(true));
    var c := Step(cfg, b, Exited(Exit(Some(0), None)));
    events := TimedOutInDrainWindow(cfg, now);
    assert Step(cfg, c, Advance(100)) == InDrainWindow(cfg, now);
    events := Prepend(cfg, c, Advance(100), events);
    events := Prepend(cfg, b, Exited(Exit(Some(0), None)), events);
    events := Prepend(cfg, a, Spawned(true), events);
  }

  lemma Prepend(cfg: Config, s: State, e: Event, rest: seq<Event>) returns (events: seq<Event>)
    requires Enabled(s, e) && Exact(s, e) && IsExactRun(cfg, Step(cfg, s, e), rest)
    ensures events == [e] + rest && IsExactRun(cfg, s, events)
    ensures IsRun(cfg, s, events) && IsRun(cfg, Step(cfg, s, e), rest)
    ensures Run(cfg, s, events) == Run(cfg, Step(cfg, s, e), rest)
  {
    events := [e] + rest;
    assert events[1..] == rest;
    ExactRunIsRun(cfg, s, events);
  }

  // ---------------------------------------------------------- bounds, with exact timers

  /** Time does not pass a timer that is due. */
  ghost predicate Exact(s: State, e: Event) {
    e.Advance? ==>
      && (s.timeoutTimer.Due? ==> s.now + e.ms <= s.timeoutTimer.at)
      && (s.killTimer.Due? ==> s.now + e.ms <= s.killTimer.at)
      && (s.drainTimer.DrainDue? ==> s.now + e.ms <= s.drainTimer.at)
      && (s.pollTimer.Due? ==> s.now + e.ms <= s.pollTimer.at)
  }

  ghost predicate IsExactRun(cfg: Config, s: State, events: seq<Event>)
    decreases events
  {
    events == [] ||
    (Enabled(s, events[0]) && Exact(s, events[0]) && IsExactRun(cfg, Step(cfg, s, events[0]), events[1..]))
  }

  lemma {:induction false} ExactRunIsRun(cfg: Config, s: State, events: seq<Event>)
    requires IsExactRun(cfg, s, events)
    ensures IsRun(cfg, s, events)
    decreases events
  {
    if events != [] { ExactRunIsRun(cfg, Step(cfg, s, events[0]), events[1..]); }
  }

  /** The last moment at which a kill whose deadline is d may settle. */
  ghost function SettleBound(d: nat): nat {
    d + 2 * KILL_CONFIRM_MS + GROUP_DRAIN_POLL_MS
  }

  ghost function Latest(cfg: Config, s: State): nat
    requires s.spawnedAt.Some?
  {
    if s.spawnedAt.value > s.startedAt + cfg.timeoutMs then s.spawnedAt.value else s.startedAt + cfg.timeoutMs
  }

  /** While the wait goes on, the next poll is in reach and inside the bound. */
  ghost predicate Polling(s: State) {
    && s.pollTimer.Due? && s.now <= s.pollTimer.at
    && if s.confirmDeadline == 0
       then s.pollTimer.at < s.killDeadline + KILL_CONFIRM_MS + GROUP_DRAIN_POLL_MS
       else s.pollTimer.at <= s.confirmDeadline < SettleBound(s.killDeadline)
            && (s.confirmDeadline - s.pollTimer.at) % GROUP_DRAIN_POLL_MS == 0
  }

  ghost predicate Timely(cfg: Config, s: State) {
    && Safe(cfg, s)
    && s.startedAt <= s.now
    && (s.timeoutTimer.Due? ==> s.timeoutTimer.at == s.startedAt + cfg.timeoutMs && s.now <= s.timeoutTimer.at)
    && (s.spawnedAt.Some? ==> s.spawnedAt.value <= s.now)
    && (!s.settled && s.drainTimer.DrainDue? ==> s.now <= s.drainTimer.at <= s.now + STREAM_DRAIN_GRACE_MS)
    && (!s.settled && s.drainTimer.DrainFired? ==> KillInFlight(s))
    && (!s.settled && s.killedReason.None? && s.timeoutTimer.Off? ==> s.spawnedAt.None? && s.pendingKillReason.Some?)
    && (KillInFlight(s) ==> s.killDeadline <= Latest(cfg, s) + cfg.killGraceMs)
    && (s.settled && KillInFlight(s) ==> s.reports[0].at < SettleBound(s.killDeadline))
  }

  ghost predicate OnTime(cfg: Config, s: State) {
    && Timely(cfg, s)
    && (!s.settled && KillInFlight(s) && !s.waiting ==> s.killTimer == Due(s.killDeadline) && s.now <= s.killDeadline)
    && (!s.settled && s.waiting ==> Polling(s))
  }

  lemma StartIsOnTime(cfg: Config, now: nat)
    ensures OnTime(cfg, Start(cfg, now))
  {
  }

  /** A first kill request comes no later than the timeout, or the spawn if that is later. */
  lemma EscalateIsOnTime(cfg: Config, s: State, reason: KillReason, delivered: bool)
    requires Timely(cfg, s.(timeoutTimer := Due(s.startedAt + cfg.timeoutMs))) || OnTime(cfg, s)
    requires s.timeoutTimer.Due? ==> s.timeoutTimer.at == s.startedAt + cfg.timeoutMs && s.now <= s.timeoutTimer.at
    requires s.spawnedAt.Some? && reason != SpawnError
    requires !s.settled && s.killedReason.None? ==> s.now <= Latest(cfg, s)
    requires !s.settled && s.killedReason.Some? ==> OnTime(cfg, s)
    ensures OnTime(cfg, Escalate(cfg, s, reason, delivered))
  {
    hide Killed;
    EscalateIsSafe(cfg, s, reason, delivered);
  }

  /** A poll that happens when it is due, or the first one, at or before the kill deadline. */
  lemma PollIsOnTime(cfg: Config, s: State, t: State, probe: Probe)
    requires Safe(cfg, s) && !s.settled && s.waiting && KillInFlight(s)
    requires s.confirmDeadline == 0 ==> s.now < s.killDeadline + KILL_CONFIRM_MS + GROUP_DRAIN_POLL_MS
    requires s.confirmDeadline != 0 ==> s.now <= s.confirmDeadline < SettleBound(s.killDeadline)
    requires s.confirmDeadline != 0 ==> (s.confirmDeadline - s.now) % GROUP_DRAIN_POLL_MS == 0
    requires t == Poll(s, probe)
    ensures t.settled ==> t.reports[0].at == s.now < SettleBound(s.killDeadline)
    ensures !t.settled ==> Polling(t)
    ensures t.killDeadline == s.killDeadline && t.killedReason == s.killedReason && t.waiting
    ensures t.spawnedAt == s.spawnedAt && t.startedAt == s.startedAt && t.now == s.now
    ensures t.pendingKillReason == s.pendingKillReason
    ensures t.settled || (t.timeoutTimer == s.timeoutTimer && t.drainTimer == s.drainTimer)
  {
  }

  lemma AwaitIsOnTime(cfg: Config, s: State, probe: Probe)
    requires Timely(cfg, s) && !s.settled && !s.waiting && KillInFlight(s) && s.now <= s.killDeadline
    ensures OnTime(cfg, AwaitTermination(s, probe))
  {
    hide Killed;
    var w := s.(waiting := true, terminationConfirmed := false, killTimer := Off, confirmDeadline := 0);
    AwaitIsSafe(cfg, s, probe);
    PollIsOnTime(cfg, w, Poll(w, probe), probe);
  }

  lemma FinalizeIsOnTime(cfg: Config, s: State, exit: Exit, probe: Probe)
    requires OnTime(cfg, s)
    ensures OnTime(cfg, Finalize(s, exit, probe))
  {
    FinalizeIsSafe(cfg, s, exit, probe);
    if !s.settled && KillInFlight(s) && !s.waiting { AwaitIsOnTime(cfg, s.(lastExit := exit), probe); }
  }

  lemma DrainIsOnTime(cfg: Config, s: State, probe: Probe)
    requires OnTime(cfg, s) && s.drainTimer.DrainDue? && s.drainTimer.at <= s.now
    ensures OnTime(cfg, Finalize(s.(drainTimer := DrainFired), s.drainTimer.exit, probe))
  {
    var t := s.(drainTimer := DrainFired);
    FinalizeIsSafe(cfg, t, s.drainTimer.exit, probe);
    if KillInFlight(s) { FinalizeIsOnTime(cfg, t, s.drainTimer.exit, probe); }
  }

  lemma PollFiresOnTime(cfg: Config, s: State, probe: Probe)
    requires OnTime(cfg, s) && s.pollTimer.Due? && s.pollTimer.at <= s.now
    ensures OnTime(cfg, Poll(s.(pollTimer := Off), probe))
  {
    var t := s.(pollTimer := Off);
    PollIsSafe(cfg, t, probe);
    PollIsOnTime(cfg, t, Poll(t, probe), probe);
  }

  lemma KillFiresOnTime(cfg: Config, s: State, probe: Probe)
    requires OnTime(cfg, s) && s.killTimer.Due? && s.killTimer.at <= s.now
    ensures OnTime(cfg, AwaitTermination(s.(killTimer := Off), probe))
  {
    AwaitIsOnTime(cfg, s.(killTimer := Off), probe);
  }

  lemma StepIsOnTime(cfg: Config, s: State, e: Event)
    requires OnTime(cfg, s) && Enabled(s, e) && Exact(s, e)
    ensures OnTime(cfg, Step(cfg, s, e))
  {
    hide OnSpawn, RequestEscalation, Finalize, Poll, Safe, Polling, Latest;
    match e
    case Spawned(delivered) => SpawnIsOnTime(cfg, s, delivered);
    case Aborted(delivered) => RequestIsOnTime(cfg, s, Canceled, delivered);
    case Overflowed(delivered) => RequestIsOnTime(cfg, s, OutputTooLarge, delivered);
    case TimeoutFires(delivered) => TimeoutIsOnTime(cfg, s, delivered);
    case Closed(exit, probe) => FinalizeIsOnTime(cfg, s, exit, probe);
    case DrainFires(probe) => DrainIsOnTime(cfg, s, probe);
    case KillFires(probe) => KillFiresOnTime(cfg, s, probe);
    case PollFires(probe) => PollFiresOnTime(cfg, s, probe);
    case _ => QuietIsOnTime(cfg, s, e);
  }

  lemma QuietIsOnTime(cfg: Config, s: State, e: Event)
    requires OnTime(cfg, s) && Exact(s, e) && (e.SpawnFailed? || e.Exited? || e.Advance?)
    ensures OnTime(cfg, Step(cfg, s, e))
  {
    StepIsSafe(cfg, s, e);
  }

  lemma RequestIsOnTime(cfg: Config, s: State, reason: KillReason, delivered: bool)
    requires OnTime(cfg, s) && reason != SpawnError
    ensures OnTime(cfg, RequestEscalation(cfg, s, reason, delivered))
  {
    if s.spawnedAt.Some? { EscalateIsOnTime(cfg, s, reason, delivered); }
  }

  lemma SpawnIsOnTime(cfg: Config, s: State, delivered: bool)
    requires OnTime(cfg, s) && s.spawnedAt.None?
    ensures OnTime(cfg, OnSpawn(cfg, s, delivered))
  {
    hide Killed;
    SpawnIsSafe(cfg, s, delivered);
  }

  lemma TimeoutIsOnTime(cfg: Config, s: State, delivered: bool)
    requires OnTime(cfg, s) && s.timeoutTimer.Due? && s.timeoutTimer.at <= s.now
    ensures OnTime(cfg, RequestEscalation(cfg, s.(timeoutTimer := Off), TimedOut, delivered))
  {
    hide Killed;
    RequestIsSafe(cfg, s.(timeoutTimer := Off), TimedOut, delivered);
  }

  lemma {:induction false} ExactRunIsOnTime(cfg: Config, s: State, events: seq<Event>)
    requires OnTime(cfg, s) && IsExactRun(cfg, s, events)
    ensures IsRun(cfg, s, events) && OnTime(cfg, Run(cfg, s, events))
    decreases events
  {
    if events != [] {
      StepIsOnTime(cfg, s, events[0]);
      ExactRunIsOnTime(cfg, Step(cfg, s, events[0]), events[1..]);
    }
  }

  /**
   * However signals fail, once a kill is in flight the run has settled by the bound,
   * and no SIGKILL was tried before the kill deadline.
   */
  lemma KillSettlesInTime(cfg: Config, now: nat, events: seq<Event>)
    requires IsExactRun(cfg, Start(cfg, now), events)
    ensures IsRun(cfg, Start(cfg, now), events)
    ensures var s := Run(cfg, Start(cfg, now), events);
      KillInFlight(s) ==>
        && (s.now >= SettleBound(s.killDeadline) ==> s.settled)
        && (s.settled ==> |s.reports| == 1 && s.reports[0].at < SettleBound(s.killDeadline))
        && s.signals != [] && s.killDeadline == s.signals[0].at + cfg.killGraceMs
        && forall x <- s.signals :: x.signal == SIGKILL ==> x.at >= s.killDeadline
  {
    StartIsOnTime(cfg, now);
    ExactRunIsOnTime(cfg, Start(cfg, now), events);
  }

  /** Once spawned, the helper always answers: within the timeout, the grace and the bound. */
  lemma AlwaysAnswers(cfg: Config, now: nat, events: seq<Event>)
    requires IsExactRun(cfg, Start(cfg, now), events)
    ensures IsRun(cfg, Start(cfg, now), events)
    ensures var s := Run(cfg, Start(cfg, now), events);
      s.spawnedAt.Some? && s.now >= SettleBound(Latest(cfg, s) + cfg.killGraceMs) ==> s.settled
  {
    StartIsOnTime(cfg, now);
    ExactRunIsOnTime(cfg, Start(cfg, now), events);
  }

  /** By the given moment: answered for, being killed, or due to be answered for. */
  ghost predicate AnsweredBy(s: State, limit: nat) {
    KillInFlight(s) ||
    if s.settled then |s.reports| == 1 && s.reports[0].at <= limit
    else s.drainTimer.DrainDue? && s.drainTimer.at <= limit
  }

  ghost predicate Answering(cfg: Config, s: State, limit: nat) {
    OnTime(cfg, s) && s.spawnedAt.Some? && AnsweredBy(s, limit)
  }

  lemma StepAnswers(cfg: Config, s: State, e: Event, limit: nat)
    requires Answering(cfg, s, limit) && Enabled(s, e) && Exact(s, e)
    ensures Answering(cfg, Step(cfg, s, e), limit)
  {
    StepIsOnTime(cfg, s, e);
    StepKeeps(cfg, s, e);
  }

  lemma {:induction false} RunAnswers(cfg: Config, s: State, events: seq<Event>, limit: nat)
    requires Answering(cfg, s, limit) && IsExactRun(cfg, s, events)
    ensures IsRun(cfg, s, events) && Answering(cfg, Run(cfg, s, events), limit)
    decreases events
  {
    if events != [] {
      StepAnswers(cfg, s, events[0], limit);
      RunAnswers(cfg, Step(cfg, s, events[0]), events[1..], limit);
    }
  }

  lemma ExitIsNoted(cfg: Config, s: State, exit: Exit)
    requires OnTime(cfg, s) && s.spawnedAt.Some?
    ensures AnsweredBy(Step(cfg, s, Exited(exit)), s.now + STREAM_DRAIN_GRACE_MS)
  {
  }

  /**
   * A child whose leader exits, at whatever point of an exact run, is answered for within the
   * drain grace of that exit unless it is being killed: from then on the run has settled by
   * exit + 200 ms, or the drain timer is due at that very moment, or a kill is in flight.
   */
  lemma ExitAnsweredWithinGrace(cfg: Config, now: nat, before: seq<Event>, exit: Exit, after: seq<Event>)
    requires IsExactRun(cfg, Start(cfg, now), before) && IsRun(cfg, Start(cfg, now), before)
    requires Run(cfg, Start(cfg, now), before).spawnedAt.Some?
    requires IsExactRun(cfg, Step(cfg, Run(cfg, Start(cfg, now), before), Exited(exit)), after)
    ensures var s := Run(cfg, Start(cfg, now), before); var u := Step(cfg, s, Exited(exit));
      && IsRun(cfg, u, after)
      && var t := Run(cfg, u, after);
         && (t.now > s.now + STREAM_DRAIN_GRACE_MS ==> t.settled || KillInFlight(t))
         && (t.now == s.now + STREAM_DRAIN_GRACE_MS && !t.settled && !KillInFlight(t) ==>
               && t.drainTimer.DrainDue? && t.drainTimer.at == t.now
               && forall probe :: Enabled(t, DrainFires(probe)) && Step(cfg, t, DrainFires(probe)).settled)
         && (t.settled && !KillInFlight(t) ==>
               |t.reports| == 1 && t.reports[0].at <= s.now + STREAM_DRAIN_GRACE_MS)
  {
    var s := Run(cfg, Start(cfg, now), before);
    StartIsOnTime(cfg, now);
    ExactRunIsOnTime(cfg, Start(cfg, now), before);
    ExitIsNoted(cfg, s, exit);
    StepIsOnTime(cfg, s, Exited(exit));
    StepKeeps(cfg, s, Exited(exit));
    RunAnswers(cfg, Step(cfg, s, Exited(exit)), after, s.now + STREAM_DRAIN_GRACE_MS);
  }

  // --------------------------------------------------- settling without any help at all

  /** Time and timers only, with every signal failing and the group never seen empty. */
  ghost predicate Unaided(e: Event) {
    || e.Advance?
    || (e.TimeoutFires? && !e.delivered)
    || ((e.KillFires? || e.DrainFires? || e.PollFires?) && e.probe == Probe(false, false))
  }

  ghost function DueNow(s: State): nat {
    (if s.timeoutTimer.Due? && s.timeoutTimer.at <= s.now then 1 else 0) +
    (if s.killTimer.Due? && s.killTimer.at <= s.now then 1 else 0) +
    (if s.drainTimer.DrainDue? && s.drainTimer.at <= s.now then 1 else 0) +
    (if s.pollTimer.Due? && s.pollTimer.at <= s.now then 1 else 0)
  }

  /** The next thing to happen when nothing but time and timers act. */
  ghost function NextUnaided(s: State): (e: Event)
    ensures Unaided(e) && Enabled(s, e) && Exact(s, e)
  {
    if s.timeoutTimer.Due? && s.timeoutTimer.at <= s.now then TimeoutFires(false)
    else if s.killTimer.Due? && s.killTimer.at <= s.now then KillFires(Probe(false, false))
    else if s.drainTimer.DrainDue? && s.drainTimer.at <= s.now then DrainFires(Probe(false, false))
    else if s.pollTimer.Due? && s.pollTimer.at <= s.now then PollFires(Probe(false, false))
    else Advance(1)
  }

  /** The same timers are set, but for the poll timer, which is not due yet. */
  ghost predicate PollsLater(s: State, t: State) {
    && t.now == s.now && t.timeoutTimer == s.timeoutTimer && t.killTimer == s.killTimer
    && t.drainTimer == s.drainTimer && t.pollTimer == Due(s.now + GROUP_DRAIN_POLL_MS)
  }

  lemma PollTimers(s: State)
    requires !s.settled
    ensures var t := Poll(s, Probe(false, false));
      t.settled || PollsLater(s, t)
  {
  }

  lemma AwaitTimers(s: State)
    requires !s.settled && !s.waiting
    ensures var t := AwaitTermination(s, Probe(false, false));
      t.settled || PollsLater(s.(killTimer := Off), t)
  {
    hide Poll;
    PollTimers(s.(waiting := true, terminationConfirmed := false, killTimer := Off, confirmDeadline := 0));
  }

  lemma DrainTimers(s: State)
    requires !s.settled && KillInFlight(s) && s.drainTimer.DrainDue?
    ensures var drained := s.(drainTimer := DrainFired);
      var t := Finalize(drained, s.drainTimer.exit, Probe(false, false));
      if s.waiting then t == drained.(lastExit := s.drainTimer.exit)
      else t.settled || PollsLater(drained.(killTimer := Off), t)
  {
    hide Poll;
    if !s.waiting { AwaitTimers(s.(drainTimer := DrainFired, lastExit := s.drainTimer.exit)); }
  }

  /** One timer fewer is due, if time stands still. */
  lemma TimersRunDown(cfg: Config, s: State)
    requires KillInFlight(s) && !s.settled && s.spawnedAt.Some? && (s.killTimer.Due? ==> !s.waiting)
    requires s.pollTimer.Due? ==> s.waiting
    ensures var t := Step(cfg, s, NextUnaided(s));
      t.settled || t.now > s.now || (t.now == s.now && DueNow(t) < DueNow(s))
  {
    hide Poll, AwaitTermination, Finalize, OnSpawn, OnSpawnError, OnExit;
    match NextUnaided(s)
    case KillFires(_) => AwaitTimers(s.(killTimer := Off));
    case DrainFires(_) => DrainTimers(s);
    case PollFires(_) => PollTimers(s.(pollTimer := Off));
    case _ =>
  }

  lemma UnaidedProgress(cfg: Config, s: State)
    requires OnTime(cfg, s) && KillInFlight(s) && !s.settled
    ensures var t := Step(cfg, s, NextUnaided(s));
      && OnTime(cfg, t) && KillInFlight(t) && t.killDeadline == s.killDeadline
      && (t.settled || t.now > s.now || (t.now == s.now && DueNow(t) < DueNow(s)))
  {
    TimersRunDown(cfg, s);
    StepIsOnTime(cfg, s, NextUnaided(s));
    StepKeeps(cfg, s, NextUnaided(s));
  }

  lemma StillShortOfBound(cfg: Config, s: State)
    requires OnTime(cfg, s) && KillInFlight(s) && !s.settled
    ensures s.now < SettleBound(s.killDeadline)
  {
  }

  /**
   * A kill in flight settles with no exit, no close, no delivered signal and no drained
   * group: from every timely state, time and timers alone lead there.
   */
  lemma {:induction false} SettlesUnaided(cfg: Config, s: State) returns (events: seq<Event>)
    requires OnTime(cfg, s) && KillInFlight(s)
    ensures IsExactRun(cfg, s, events) && forall e <- events :: Unaided(e)
    ensures IsRun(cfg, s, events) && Run(cfg, s, events).settled
    decreases if s.settled then 0 else 1 + SettleBound(s.killDeadline) - s.now, DueNow(s)
  {
    events := [];
    if !s.settled {
      StillShortOfBound(cfg, s);
      UnaidedProgress(cfg, s);
      var e := NextUnaided(s);
      var t := Step(cfg, s, e);
      if !t.settled { StillShortOfBound(cfg, t); }
      var rest := SettlesUnaided(cfg, t);
      events := [e] + rest;
      assert events[1..] == rest;
    }
  }
}
