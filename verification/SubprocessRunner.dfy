/** The runner itself: closure variables changed by event handlers and timers. */
module SubprocessRunner {
  import opened Options
  import opened SubprocessLifecycle

  class BoundedRun {
    const cfg: Config
    const startedAt: nat
    var now: nat
    var spawnedAt: Option<nat>
    var pendingKillReason: Option<KillReason>
    var killedReason: Option<KillReason>
    var killDeadline: nat
    var confirmDeadline: nat
    var hardKilled: bool
    var settled: bool
    var waiting: bool
    var lastExit: Exit
    var terminationConfirmed: bool
    var timeoutTimer: Timer
    var killTimer: Timer
    var drainTimer: DrainTimer
    var pollTimer: Timer
    ghost var drained: bool
    ghost var signals: seq<Sent>
    var reports: seq<Report>

    ghost function View(): State
      reads this
    {
      State(now, startedAt, spawnedAt, pendingKillReason, killedReason, killDeadline, confirmDeadline, hardKilled,
            settled, waiting, lastExit, terminationConfirmed, timeoutTimer, killTimer, drainTimer, pollTimer,
            drained, signals, reports)
    }

    constructor (cfg: Config, now: nat)
      ensures View() == Start(cfg, now) && this.cfg == cfg
    {
      this.cfg := cfg;
      startedAt := now;
      this.now := now;
      spawnedAt, pendingKillReason, killedReason := None, None, None;
      killDeadline, confirmDeadline := 0, 0;
      hardKilled, settled, waiting := false, false, false;
      lastExit, terminationConfirmed := NO_EXIT, true;
      timeoutTimer, killTimer, drainTimer, pollTimer := Due(now + cfg.timeoutMs), Off, NoDrain, Off;
      drained, signals, reports := false, [], [];
    }

    method ClearTimers()
      modifies this
      ensures View() == WithoutTimers(old(View()))
    {
      timeoutTimer, killTimer, pollTimer := Off, Off, Off;
      if !drainTimer.NoDrain? { drainTimer := DrainFired; }
    }

    method SettleWith(exit: Exit)
      modifies this
      ensures View() == Settle(old(View()), exit)
    {
      if settled { return; }
      ClearTimers();
      settled := true;
      reports := reports + [Report(exit, killedReason, hardKilled, terminationConfirmed, now)];
    }

    method Send(signal: Signal, delivered: bool)
      modifies this
      ensures View() == SendSignal(old(View()), signal, delivered)
    {
      signals := signals + [Sent(signal, now, delivered)];
    }

    /** Delivery is retried on every poll until it lands. */
    method RetryKill(delivered: bool)
      modifies this
      ensures View() == TryKill(old(View()), delivered)
    {
      if now >= killDeadline && confirmDeadline == 0 {
        Send(SIGKILL, delivered);
        if delivered {
          hardKilled := true;
          confirmDeadline := now + KILL_CONFIRM_MS;
        }
      }
    }

    method PollGroup(probe: Probe)
      modifies this
      ensures View() == Poll(old(View()), probe)
    {
      hide Settle;
      if settled { return; }
      if probe.empty {
        terminationConfirmed, drained := true, true;
        SettleWith(lastExit);
        return;
      }
      RetryKill(probe.delivered);
      var hardDeadline := if confirmDeadline != 0 then confirmDeadline else killDeadline + KILL_CONFIRM_MS;
      if now >= hardDeadline {
        SettleWith(lastExit);
        return;
      }
      pollTimer := Due(now + GROUP_DRAIN_POLL_MS);
    }

    method Await(probe: Probe)
      modifies this
      ensures View() == AwaitTermination(old(View()), probe)
    {
      hide Poll;
      if settled || waiting { return; }
      waiting := true;
      terminationConfirmed := false;
      killTimer := Off;
      confirmDeadline := 0;
      PollGroup(probe);
    }

    method FinalizeWith(exit: Exit, probe: Probe)
      modifies this
      ensures View() == Finalize(old(View()), exit, probe)
    {
      hide AwaitTermination, Settle;
      if settled { return; }
      lastExit := exit;
      if killedReason.None? || killedReason == Some(SpawnError) {
        SettleWith(exit);
        return;
      }
      Await(probe);
    }

    method ArmKill()
      modifies this
      ensures View() == old(View()).(
        killDeadline := now + cfg.killGraceMs, killTimer := Due(now + cfg.killGraceMs))
    {
      killDeadline := now + cfg.killGraceMs;
      killTimer := Due(now + cfg.killGraceMs);
    }

    method EscalateFor(reason: KillReason, delivered: bool)
      modifies this
      ensures View() == Escalate(cfg, old(View()), reason, delivered)
    {
      if settled { return; }
      var first := killedReason.None?;
      if first { killedReason := Some(reason); }
      Send(SIGTERM, delivered);
      if first { ArmKill(); }
    }

    method Request(reason: KillReason, delivered: bool)
      modifies this
      ensures View() == RequestEscalation(cfg, old(View()), reason, delivered)
    {
      hide Escalate;
      if spawnedAt.Some? {
        EscalateFor(reason, delivered);
      } else if pendingKillReason.None? {
        pendingKillReason := Some(reason);
      }
    }

    method HandleSpawn(delivered: bool)
      modifies this
      ensures View() == OnSpawn(cfg, old(View()), delivered)
    {
      hide Escalate;
      spawnedAt := Some(now);
      if pendingKillReason.Some? {
        var reason := pendingKillReason.value;
        pendingKillReason := None;
        EscalateFor(reason, delivered);
      }
    }

    method HandleSpawnError()
      modifies this
      ensures View() == OnSpawnError(old(View()))
    {
      if settled || spawnedAt.Some? { return; }
      killedReason := Some(SpawnError);
      FinalizeWith(NO_EXIT, Probe(false, false));
    }

    method HandleExit(exit: Exit)
      modifies this
      ensures View() == OnExit(old(View()), exit)
    {
      if settled || !drainTimer.NoDrain? { return; }
      drainTimer := DrainDue(now + STREAM_DRAIN_GRACE_MS, exit);
    }

    method HandleTimeout(delivered: bool)
      modifies this
      ensures View() == RequestEscalation(cfg, old(View()).(timeoutTimer := Off), TimedOut, delivered)
    {
      timeoutTimer := Off;
      Request(TimedOut, delivered);
    }

    method HandleDrain(probe: Probe)
      requires drainTimer.DrainDue?
      modifies this
      ensures View() == Finalize(old(View()).(drainTimer := DrainFired), old(drainTimer.exit), probe)
    {
      var exit := drainTimer.exit;
      drainTimer := DrainFired;
      FinalizeWith(exit, probe);
    }

    method HandleKillTimer(probe: Probe)
      modifies this
      ensures View() == AwaitTermination(old(View()).(killTimer := Off), probe)
    {
      killTimer := Off;
      Await(probe);
    }

    method HandlePollTimer(probe: Probe)
      modifies this
      ensures View() == Poll(old(View()).(pollTimer := Off), probe)
    {
      pollTimer := Off;
      PollGroup(probe);
    }

    /** One event of the run: a process event, an abort, or a timer that is due. */
    method Handle(e: Event)
      requires Enabled(View(), e)
      modifies this
      ensures View() == Step(cfg, old(View()), e)
    {
      hide OnSpawn, OnSpawnError, RequestEscalation, OnExit, Finalize, AwaitTermination, Poll;
      match e
      case Spawned(delivered) => HandleSpawn(delivered);
      case SpawnFailed => HandleSpawnError();
      case Aborted(delivered) => Request(Canceled, delivered);
      case Overflowed(delivered) => Request(OutputTooLarge, delivered);
      case TimeoutFires(delivered) => HandleTimeout(delivered);
      case Exited(exit) => HandleExit(exit);
      case Closed(exit, probe) => FinalizeWith(exit, probe);
      case DrainFires(probe) => HandleDrain(probe);
      case KillFires(probe) => HandleKillTimer(probe);
      case PollFires(probe) => HandlePollTimer(probe);
      case Advance(ms) => now := now + ms;
    }

    /** A whole run of the object is a run of the state machine. */
    method HandleAll(events: seq<Event>)
      requires IsRun(cfg, View(), events)
      modifies this
      ensures View() == Run(cfg, old(View()), events)
    {
      hide Step;
      ghost var whole := Run(cfg, View(), events);
      assert events[0..] == events;
      for n := 0 to |events|
        invariant IsRun(cfg, View(), events[n..]) && Run(cfg, View(), events[n..]) == whole
      {
        assert events[n..][0] == events[n] && events[n..][1..] == events[n + 1..];
        Handle(events[n]);
      }
      assert events[|events|..] == [];
    }
  }
}
