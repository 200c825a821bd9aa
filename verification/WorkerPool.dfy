/**
 * Bounded-parallel dispatch: workers that share one next index and fill result slots.
 * A worker runs without interruption from one await to the next, so an interleaving is
 * a sequence of such stretches: taking an index and dispatching it, or finishing.
 */
module WorkerPool {
  import opened EvaluatorDispatch
  import opened Options

  datatype Run<O> = RefusedRun(of: Evaluator) | SkippedRun(of: Evaluator) | EngineRun(of: Evaluator, output: O)

  /** What an evaluator that got so far reports, once its engine, if any, has answered. */
  function Reported<O>(ev: Evaluator, entry: Entry, output: O): Run<O> {
    match entry
    case RefusedEntry => RefusedRun(ev)
    case SkippedEntry => SkippedRun(ev)
    case CalledEntry(_) => EngineRun(ev, output)
  }

  function RunOf<O>(job: Job, i: nat, output: O): Run<O>
    requires i < |job.evaluators|
  {
    Reported(job.evaluators[i], EntryOf(job, i), output)
  }

  datatype Worker = Idle | InFlight(index: nat, entry: Entry) | Done

  datatype Pool<O> = Pool(
    nextIdx: nat,
    workers: seq<Worker>,
    results: seq<Option<Run<O>>>,
    calls: seq<EngineCall>,  // observer: the engine calls made, in order
    taken: seq<nat>)         // observer: the indices taken, in order

  /** One stretch of one worker; a finishing engine brings its output. */
  datatype Step<O> = Take(worker: nat) | Finish(worker: nat, output: O)

  function Concurrency(maxConcurrent: int, n: nat): nat {
    var least := if maxConcurrent < n then maxConcurrent else n;
    if least < 1 then 1 else least
  }

  function Fresh<O(!new)>(job: Job, concurrency: nat): (p: Pool<O>)
    ensures Sound(job, p)
  {
    Pool(0, seq(concurrency, _ => Idle), seq(|job.evaluators|, _ => None), [], [])
  }

  predicate Enabled<O>(p: Pool<O>, s: Step<O>) {
    && s.worker < |p.workers|
    && match s
       case Take(w) => p.workers[w].Idle?
       case Finish(w, _) => p.workers[w].InFlight?
  }

  function Next<O(!new)>(job: Job, p: Pool<O>, s: Step<O>): Pool<O>
    requires Enabled(p, s) && Sound(job, p)
  {
    match s
    case Take(w) =>
      if p.nextIdx >= |job.evaluators| then p.(workers := p.workers[w := Done])
      else
        var entry := EntryOf(job, p.nextIdx);
        p.(nextIdx := p.nextIdx + 1,
           workers := p.workers[w := InFlight(p.nextIdx, entry)],
           calls := p.calls + CallsOf(entry),
           taken := p.taken + [p.nextIdx])
    case Finish(w, output) =>
      var i, entry := p.workers[w].index, p.workers[w].entry;
      p.(workers := p.workers[w := Idle], results := p.results[i := Some(Reported(job.evaluators[i], entry, output))])
  }

  /** The engine calls of the first n evaluators, taken in order. */
  function CallsUpTo(job: Job, n: nat): seq<EngineCall>
    requires n <= |job.evaluators|
  {
    if n == 0 then [] else CallsUpTo(job, n - 1) + CallsOf(EntryOf(job, n - 1))
  }

  /** Slot i is empty, being filled by exactly one worker, or holds the run of evaluator i. */
  predicate Sound<O(!new)>(job: Job, p: Pool<O>) {
    && |p.results| == |job.evaluators| && p.nextIdx <= |job.evaluators|
    && |p.taken| == p.nextIdx && (forall i :: 0 <= i < p.nextIdx ==> p.taken[i] == i)
    && p.calls == CallsUpTo(job, p.nextIdx)
    && (forall w :: 0 <= w < |p.workers| && p.workers[w].InFlight? ==> HoldsSlot(job, p, p.workers[w]))
    && (forall v, w :: 0 <= v < w < |p.workers| && p.workers[v].InFlight? && p.workers[w].InFlight? ==>
          p.workers[v].index != p.workers[w].index)
    && (forall w :: 0 <= w < |p.workers| && p.workers[w].Done? ==> p.nextIdx == |job.evaluators|)
    && (forall i :: p.nextIdx <= i < |p.results| ==> p.results[i].None?)
    && (forall i :: 0 <= i < |p.results| && p.results[i].Some? ==> IsRunOf(job, i, p.results[i].value))
    && (forall i :: 0 <= i < p.nextIdx && p.results[i].None? ==> InFlight(i, EntryOf(job, i)) in p.workers)
  }

  predicate HoldsSlot<O>(job: Job, p: Pool<O>, w: Worker)
    requires |p.results| == |job.evaluators| && p.nextIdx <= |job.evaluators| && w.InFlight?
  {
    w.index < p.nextIdx && p.results[w.index].None? && w.entry == EntryOf(job, w.index)
  }

  /** The run of evaluator i: refused, skipped or with an engine's output, as its gates decide. */
  predicate IsRunOf<O>(job: Job, i: nat, r: Run<O>)
    requires i < |job.evaluators|
  {
    && r.of == job.evaluators[i]
    && (r.RefusedRun? <==> !Allowed(job, i))
    && (r.EngineRun? <==> Allowed(job, i) && !Filtered(job, i))
  }

  lemma TakeIsSound<O(!new)>(job: Job, p: Pool<O>, w: nat)
    requires Sound(job, p) && Enabled(p, Take(w))
    ensures Sound(job, Next(job, p, Take(w)))
  {
    hide EntryOf, CallsOf, IsRunOf;
    var q := Next(job, p, Take(w));
    if p.nextIdx < |job.evaluators| { assert q.workers[w] == InFlight(p.nextIdx, EntryOf(job, p.nextIdx)); }
    forall i | 0 <= i < q.nextIdx && q.results[i].None? ensures InFlight(i, EntryOf(job, i)) in q.workers {
      if i < p.nextIdx { StillHeld(p.workers, q.workers, w, InFlight(i, EntryOf(job, i))); }
    }
  }

  lemma StillHeld(workers: seq<Worker>, after: seq<Worker>, w: nat, held: Worker)
    requires w < |workers| == |after| && held in workers && held != workers[w]
    requires forall v :: 0 <= v < |workers| && v != w ==> after[v] == workers[v]
    ensures held in after
  {
    var v :| 0 <= v < |workers| && workers[v] == held;
    assert after[v] == held;
  }

  lemma FinishIsSound<O(!new)>(job: Job, p: Pool<O>, w: nat, output: O)
    requires Sound(job, p) && Enabled(p, Finish(w, output))
    ensures Sound(job, Next(job, p, Finish(w, output)))
  {
    hide CallsUpTo;
    var q := Next(job, p, Finish(w, output));
    assert HoldsSlot(job, p, p.workers[w]);
    forall i | 0 <= i < q.nextIdx && q.results[i].None? ensures InFlight(i, EntryOf(job, i)) in q.workers {
      StillHeld(p.workers, q.workers, w, InFlight(i, EntryOf(job, i)));
    }
  }

  lemma NextIsSound<O(!new)>(job: Job, p: Pool<O>, s: Step<O>)
    requires Sound(job, p) && Enabled(p, s)
    ensures Sound(job, Next(job, p, s))
  {
    match s
    case Take(w) => TakeIsSound(job, p, w);
    case Finish(w, output) => FinishIsSound(job, p, w, output);
  }

  // ------------------------------------------------------------- every interleaving

  ghost predicate IsInterleaving<O(!new)>(job: Job, p: Pool<O>, steps: seq<Step<O>>)
    requires Sound(job, p)
    decreases steps
  {
    steps == [] || (Enabled(p, steps[0]) &&
                    (NextIsSound(job, p, steps[0]); IsInterleaving(job, Next(job, p, steps[0]), steps[1..])))
  }

  ghost function After<O(!new)>(job: Job, p: Pool<O>, steps: seq<Step<O>>): (q: Pool<O>)
    requires Sound(job, p) && IsInterleaving(job, p, steps)
    ensures Sound(job, q) && |q.workers| == |p.workers|
    decreases steps
  {
    if steps == [] then p else
      NextIsSound(job, p, steps[0]);
      After(job, Next(job, p, steps[0]), steps[1..])
  }

  predicate Complete<O>(p: Pool<O>) {
    forall w :: 0 <= w < |p.workers| ==> p.workers[w].Done?
  }

  function Weight(w: Worker): nat {
    match w
    case Idle => 1
    case InFlight(_, _) => 2
    case Done => 0
  }

  function Weights(workers: seq<Worker>): nat {
    if workers == [] then 0 else Weights(workers[..|workers| - 1]) + Weight(workers[|workers| - 1])
  }

  /** How many stretches are left to run, whoever runs them. */
  function Left<O>(job: Job, p: Pool<O>): int {
    2 * (|job.evaluators| - p.nextIdx) + Weights(p.workers)
  }

  lemma {:induction false} WeightsUpdate(workers: seq<Worker>, w: nat, x: Worker)
    requires w < |workers|
    ensures Weights(workers[w := x]) == Weights(workers) - Weight(workers[w]) + Weight(x)
  {
    var n := |workers| - 1;
    if w < n {
      WeightsUpdate(workers[..n], w, x);
      assert workers[w := x][..n] == workers[..n][w := x];
    } else {
      assert workers[w := x][..n] == workers[..n];
    }
  }

  lemma {:induction false} WeightsDone(workers: seq<Worker>)
    ensures Weights(workers) == 0 <==> forall w :: 0 <= w < |workers| ==> workers[w].Done?
  {
    if workers != [] {
      var n := |workers| - 1;
      WeightsDone(workers[..n]);
      assert forall w :: 0 <= w < n ==> workers[..n][w] == workers[w];
    }
  }

  lemma {:induction false} WeightsIdle(n: nat)
    ensures Weights(seq(n, _ => Idle)) == n
  {
    if n > 0 {
      WeightsIdle(n - 1);
      assert seq(n, _ => Idle)[..n - 1] == seq(n - 1, _ => Idle);
    }
  }

  lemma {:induction false} StretchesSpent<O(!new)>(job: Job, p: Pool<O>, steps: seq<Step<O>>)
    requires Sound(job, p) && IsInterleaving(job, p, steps)
    ensures Left(job, After(job, p, steps)) == Left(job, p) - |steps|
    decreases steps
  {
    if steps != [] {
      var s := steps[0];
      NextIsSound(job, p, s);
      var q := Next(job, p, s);
      WeightsUpdate(p.workers, s.worker, q.workers[s.worker]);
      StretchesSpent(job, q, steps[1..]);
    }
  }

  /** When every worker has stopped, every index was taken once and every slot is its own. */
  lemma CompletionFills<O(!new)>(job: Job, p: Pool<O>)
    requires Sound(job, p) && Complete(p) && p.workers != []
    ensures p.taken == seq(|job.evaluators|, i => i)
    ensures forall i :: 0 <= i < |job.evaluators| ==> p.results[i].Some? && IsRunOf(job, i, p.results[i].value)
  {
    assert p.workers[0].Done?;
  }

  /** Some worker of an unfinished pool can run its next stretch, whatever its engine brings. */
  ghost predicate CanGoOn<O(!new)>(p: Pool<O>) {
    exists w :: 0 <= w < |p.workers| &&
      (Enabled(p, Take(w)) || forall output: O :: Enabled(p, Finish(w, output)))
  }

  lemma UnfinishedGoesOn<O(!new)>(p: Pool<O>) returns (w: nat)
    requires !Complete(p)
    ensures CanGoOn(p) && w < |p.workers| && !p.workers[w].Done?
  {
    w :| 0 <= w < |p.workers| && !p.workers[w].Done?;
    assert Enabled(p, Take(w)) || forall output: O :: Enabled(p, Finish(w, output));
  }

  /**
   * Every interleaving of the pool, complete or not: results are sound, no more evaluators
   * are in flight than there are workers, and it takes exactly 2n + concurrency stretches
   * to finish. None can be longer, and an unfinished one can go on.
   */
  lemma EveryInterleaving<O(!new)>(job: Job, maxConcurrent: int, steps: seq<Step<O>>)
    requires IsInterleaving(job, Fresh<O>(job, Concurrency(maxConcurrent, |job.evaluators|)), steps)
    ensures var n := |job.evaluators|; var c := Concurrency(maxConcurrent, n);
      var p := After(job, Fresh<O>(job, c), steps);
      && |p.workers| == c >= 1
      && (maxConcurrent >= 1 ==> c <= maxConcurrent) && (n >= 1 ==> c <= n)
      && (c == 1 || c == maxConcurrent || c == n)
      && |steps| <= 2 * n + c
      && (Complete(p) ==> |steps| == 2 * n + c)
      && (Complete(p) ==> forall i :: 0 <= i < n ==> p.results[i].Some? && IsRunOf(job, i, p.results[i].value))
      && (!Complete(p) ==> CanGoOn(p))
  {
    hide IsRunOf;
    var c := Concurrency(maxConcurrent, |job.evaluators|);
    var start := Fresh<O>(job, c);
    var p := After(job, start, steps);
    StretchesSpent(job, start, steps);
    WeightsIdle(c);
    assert start.workers == seq(c, _ => Idle);
    WeightsDone(p.workers);
    if Complete(p) { CompletionFills(job, p); } else { var _ := UnfinishedGoesOn(p); }
  }

  /** From every sound pool, whatever the engines bring, some interleaving completes. */
  lemma {:induction false} CompletesFrom<O(!new)>(job: Job, p: Pool<O>, bring: nat -> O) returns (steps: seq<Step<O>>)
    requires Sound(job, p)
    ensures IsInterleaving(job, p, steps) && Complete(After(job, p, steps))
    decreases Left(job, p)
  {
    steps := [];
    if !Complete(p) {
      var w := UnfinishedGoesOn(p);
      var s := NextStretch(p, w, bring);
      NextIsSound(job, p, s);
      var q := Next(job, p, s);
      WeightsUpdate(p.workers, w, q.workers[w]);
      var rest := CompletesFrom(job, q, bring);
      steps := [s] + rest;
      assert steps[1..] == rest;
    }
  }

  function NextStretch<O>(p: Pool<O>, w: nat, bring: nat -> O): (s: Step<O>)
    requires w < |p.workers| && !p.workers[w].Done?
    ensures Enabled(p, s) && s.worker == w
  {
    if p.workers[w].Idle? then Take(w) else Finish(w, bring(p.workers[w].index))
  }

  // ---------------------------------------------------------------- the engine calls

  lemma {:induction false} CallTo(job: Job, n: nat, i: nat)
    requires i < n <= |job.evaluators| && EntryOf(job, i).CalledEntry?
    ensures EntryOf(job, i).call in CallsUpTo(job, n)
  {
    if i < n - 1 { CallTo(job, n - 1, i); }
  }

  /** Calls are made in the order of their indices. */
  ghost predicate Ascending(calls: seq<EngineCall>, n: nat) {
    && (forall k :: 0 <= k < |calls| ==> calls[k].index < n)
    && (forall j, k :: 0 <= j < k < |calls| ==> calls[j].index < calls[k].index)
  }

  lemma {:induction false} CallsAscend(job: Job, n: nat)
    requires n <= |job.evaluators|
    ensures Ascending(CallsUpTo(job, n), n)
  {
    if n > 0 {
      CallsAscend(job, n - 1);
      CallsItself(job, n - 1);
      AscendingGrows(CallsUpTo(job, n - 1), EntryOf(job, n - 1), n - 1);
    }
  }

  lemma AscendingGrows(calls: seq<EngineCall>, entry: Entry, n: nat)
    requires Ascending(calls, n) && (entry.CalledEntry? ==> entry.call.index == n)
    ensures Ascending(calls + CallsOf(entry), n + 1)
  {
  }

  lemma {:induction false} CallFrom(job: Job, n: nat, call: EngineCall)
    requires n <= |job.evaluators| && call in CallsUpTo(job, n)
    ensures call.index < n && EntryOf(job, call.index) == CalledEntry(call)
  {
    if call !in CallsOf(EntryOf(job, n - 1)) { CallFrom(job, n - 1, call); }
  }

  /**
   * At any point of any interleaving: whoever was taken, allowed and not skipped has called the
   * engine of its kind, and called it once; whoever was refused or skipped has called none.
   */
  lemma EngineCallsAreExact<O(!new)>(job: Job, concurrency: nat, steps: seq<Step<O>>, i: nat)
    requires IsInterleaving(job, Fresh<O>(job, concurrency), steps) && i < |job.evaluators|
    ensures var p := After(job, Fresh<O>(job, concurrency), steps);
      && (CallOf(job, i) in p.calls <==> i in p.taken && Allowed(job, i) && !Filtered(job, i))
      && (forall call <- p.calls :: call.index == i ==> call == CallOf(job, i))
      && Ascending(p.calls, |job.evaluators|)
  {
    var p := After(job, Fresh<O>(job, concurrency), steps);
    CallsAscend(job, p.nextIdx);
    assert i in p.taken <==> i < p.nextIdx by { if i < p.nextIdx { assert p.taken[i] == i; } }
    if i < p.nextIdx && EntryOf(job, i).CalledEntry? { CallTo(job, p.nextIdx, i); }
    forall call | call in p.calls && call.index == i ensures call == CallOf(job, i) && i < p.nextIdx {
      CallFrom(job, p.nextIdx, call);
    }
    if CallOf(job, i) in p.calls { CallFrom(job, p.nextIdx, CallOf(job, i)); }
  }

  /** No engine is ever called without a grant that covers what it, with its effective provider, can do. */
  lemma EngineCalledOnlyWithConsent<O(!new)>(job: Job, concurrency: nat, steps: seq<Step<O>>, call: EngineCall)
    requires IsInterleaving(job, Fresh<O>(job, concurrency), steps)
    requires call in After(job, Fresh<O>(job, concurrency), steps).calls
    ensures call.index < |job.evaluators|
    ensures var ev := job.evaluators[call.index];
      && (call.CommandCall? <==> ev.engine.CommandEngine?)
      && ev.packageId in job.trust && job.trust[ev.packageId].Trusted?
      && var granted := job.trust[ev.packageId].capabilities;
         && (call.CommandCall? ==> CommandEvaluatorsPresent in granted)
         && (call.LlmCall? ==> LlmEvaluatorsPresent in granted)
         && (call.LlmCall? && MayReadFiles(ev.engine, job.defaultProvider) ==>
               FileReadingLlmEvaluatorPresent in granted)
  {
    CallFrom(job, After(job, Fresh<O>(job, concurrency), steps).nextIdx, call);
  }

  // ------------------------------------------------------------------ the pool itself

  class Dispatcher<O(!new)> {
    const job: Job
    const engines: Engines
    var nextIdx: nat
    var workers: seq<Worker>
    var results: seq<Option<Run<O>>>
    ghost var taken: seq<nat>

    ghost function View(): Pool<O>
      reads this, engines
    {
      Pool(nextIdx, workers, results, engines.calls, taken)
    }

    constructor (job: Job, maxConcurrent: int)
      ensures this.job == job && fresh(engines)
      ensures View() == Fresh<O>(job, Concurrency(maxConcurrent, |job.evaluators|))
    {
      this.job := job;
      engines := new Engines();
      nextIdx := 0;
      workers := seq(Concurrency(maxConcurrent, |job.evaluators|), _ => Idle);
      results := seq(|job.evaluators|, _ => None);
      taken := [];
    }

    method TakeNext() returns (i: int)
      modifies this`nextIdx
      ensures old(nextIdx) >= |job.evaluators| ==> i == -1 && nextIdx == old(nextIdx)
      ensures old(nextIdx) < |job.evaluators| ==> i == old(nextIdx) && nextIdx == old(nextIdx) + 1
    {
      if nextIdx >= |job.evaluators| { return -1; }
      i := nextIdx;
      nextIdx := nextIdx + 1;
    }

    /** A worker's stretch up to the await of its engine, or to its end. */
    method RunTake(w: nat)
      requires Sound(job, View()) && Enabled(View(), Take(w))
      modifies this, engines
      ensures View() == Next(job, old(View()), Take(w))
    {
      var i := TakeNext();
      if i < 0 {
        workers := workers[w := Done];
        return;
      }
      var entry := engines.DispatchOne(job, i);
      workers := workers[w := InFlight(i, entry)];
      taken := taken + [i];
    }

    /** The stretch after the await: the slot of the index taken is filled. */
    method RunFinish(w: nat, output: O)
      requires Sound(job, View()) && Enabled(View(), Finish(w, output))
      modifies this
      ensures View() == Next(job, old(View()), Finish(w, output))
    {
      assert HoldsSlot(job, View(), workers[w]);
      var i, entry := workers[w].index, workers[w].entry;
      results := results[i := Some(Reported(job.evaluators[i], entry, output))];
      workers := workers[w := Idle];
    }

    /** One stretch of a worker that has not stopped. */
    method RunStretch(w: nat, engineOutput: nat -> O)
      requires Sound(job, View()) && w < |workers| && !workers[w].Done?
      modifies this, engines
      ensures View() == Next(job, old(View()), NextStretch(old(View()), w, engineOutput))
    {
      if workers[w].Idle? { RunTake(w); } else { RunFinish(w, engineOutput(workers[w].index)); }
    }
  }

  lemma StretchSpent<O(!new)>(job: Job, p: Pool<O>, w: nat, bring: nat -> O)
    requires Sound(job, p) && w < |p.workers| && !p.workers[w].Done?
    ensures Sound(job, Next(job, p, NextStretch(p, w, bring)))
    ensures 0 <= Left(job, Next(job, p, NextStretch(p, w, bring))) < Left(job, p)
    ensures Brings(job, p, bring) ==> Brings(job, Next(job, p, NextStretch(p, w, bring)), bring)
  {
    var s := NextStretch(p, w, bring);
    NextIsSound(job, p, s);
    WeightsUpdate(p.workers, w, Next(job, p, s).workers[w]);
  }

  /** Every slot filled so far is filled with its own engine's output. */
  ghost predicate Brings<O(!new)>(job: Job, p: Pool<O>, bring: nat -> O) {
    && |p.results| == |job.evaluators|
    && forall i :: 0 <= i < |p.results| && p.results[i].Some? ==> p.results[i].value == RunOf(job, i, bring(i))
  }

  /**
   * The pool itself, under an arbitrary scheduler: while a worker has not stopped, some
   * worker runs its next stretch. engineOutput stands for what the engines return.
   */
  method DispatchEvaluators<O(!new)>(job: Job, maxConcurrent: int, engineOutput: nat -> O)
    returns (runs: seq<Run<O>>, calls: seq<EngineCall>)
    ensures |runs| == |job.evaluators|
    ensures forall i :: 0 <= i < |runs| ==> runs[i] == RunOf(job, i, engineOutput(i))
    ensures calls == CallsUpTo(job, |job.evaluators|)
  {
    var d := new Dispatcher<O>(job, maxConcurrent);
    while !(forall w :: 0 <= w < |d.workers| ==> d.workers[w].Done?)
      invariant d.job == job && Sound(job, d.View()) && d.workers != [] && Brings(job, d.View(), engineOutput)
      invariant fresh(d) && fresh(d.engines)
      decreases Left(job, d.View())
    {
      var w :| 0 <= w < |d.workers| && !d.workers[w].Done?;
      StretchSpent(job, d.View(), w, engineOutput);
      d.RunStretch(w, engineOutput);
    }
    CompletionFills(job, d.View());
    assert d.workers[0].Done?;
    calls := d.engines.calls;
    runs := seq(|d.results|, i requires 0 <= i < |d.results| && d.results[i].Some? reads d => d.results[i].value);
  }
}
