/** The scheduler swaps in whatever it has in hand: its test for a finished coroutine is always
    true, and SwapIn refuses only one that executes. When that lets a finished one through, and
    when the assertion fails that a coroutine taken from the list does not execute. */
module SpentCoroutines {
  import opened Base
  import opened TaskQueue
  import opened CoroutineStates
  import opened Protocol
  import opened WorkerShape
  import opened Exclusivity
  import opened Executing

  const WILD := Rules(false, false, true)

  /** In every run, what a worker is about to swap in has not come to its end. */
  ghost predicate SwapsInOnlyUnfinished(cfg: Config, rules: Rules) {
    forall acts, i :: IsRun(rules, cfg, acts) && 0 <= i < |After(rules, cfg, acts).workers| ==>
                        UnfinishedIn(After(rules, cfg, acts), i)
  }

  predicate UnfinishedIn(s: State, i: nat)
    requires i < |s.workers|
  {
    var next := AboutToRun(s.workers[i]);
    next.Some? ==> next.value < |s.cos| && !Finished(s.cos[next.value])
  }

  /** Someone submits a new coroutine twice before anyone has run it. */
  lemma SubmittedTwice(cfg: Config) returns (s: State)
    ensures Reached(WILD, cfg, s) && s.cos == [Init] && !s.sh.stopped && s.stop.NotCalled?
    ensures var t := Task(ANY_THREAD, Routine(0)); s.sh.tasks == [t, t]
    ensures s.workers == Start(cfg).workers && s.pool == cfg.pool
  {
    hide Reached;
    var t := Task(ANY_THREAD, Routine(0));
    StartIsReached(WILD, cfg);
    var s0 := Start(cfg);
    Step(WILD, cfg, s0, Create);
    var s1 := Apply(s0, Create);
    Step(WILD, cfg, s1, Submit(t));
    var s2 := Apply(s1, Submit(t));
    Step(WILD, cfg, s2, Submit(t));
    s := Apply(s2, Submit(t));
  }

  /** All workers are at work, the last one once Stop has swapped it in. */
  lemma AllScan(cfg: Config) returns (s: State)
    requires WorkerCount(cfg) > 0
    ensures Reached(WILD, cfg, s) && s.cos == [Init] && |s.workers| == WorkerCount(cfg)
    ensures forall k :: 0 <= k < |s.workers| ==> s.workers[k] == FRESH
    ensures var t := Task(ANY_THREAD, Routine(0)); s.sh.tasks == [t, t]
  {
    hide Reached;
    s := SubmittedTwice(cfg);
    if cfg.withMain {
      Step(WILD, cfg, s, StopStep);
      s := StopAdvance(s);
      Step(WILD, cfg, s, StopStep);
      s := StopAdvance(s);
      Step(WILD, cfg, s, StopStep);
      s := StopAdvance(s);
      Step(WILD, cfg, s, StopStep);
      s := StopAdvance(s);
    }
  }

  /** It takes the first entry and goes to run it. */
  lemma TakesFirst(cfg: Config) returns (s: State)
    requires WorkerCount(cfg) > 0
    ensures Reached(WILD, cfg, s) && s.cos == [Init] && s.sh.tasks == [Task(ANY_THREAD, Routine(0))]
    ensures |s.workers| == WorkerCount(cfg)
    ensures s.workers[0].pc.Dispatch? && s.workers[0].hand == Some(Task(ANY_THREAD, Routine(0)))
    ensures forall k :: 0 < k < |s.workers| ==> s.workers[k] == FRESH
  {
    hide Reached;
    var t := Task(ANY_THREAD, Routine(0));
    var s0 := AllScan(cfg);
    Step(WILD, cfg, s0, Work(0));
    var s1 := WorkStep(s0, 0);
    assert FirstFor([t, t], 1) == 0;
    assert s1.sh.tasks == [t] && s1.workers[0].hand == Some(t) && s1.workers[0].pc.Notifying?;
    Step(WILD, cfg, s1, Work(0));
    s := WorkStep(s1, 0);
  }

  /** It runs the coroutine to its end; the other entry is still on the list. */
  lemma RunsToItsEnd(cfg: Config) returns (s: State)
    requires WorkerCount(cfg) > 0
    ensures Reached(WILD, cfg, s) && s.cos == [Terminal] && s.sh.tasks == [Task(ANY_THREAD, Routine(0))]
    ensures s.workers != [] && s.workers[0].pc.Settle? && s.workers[0].hand == Some(Task(ANY_THREAD, Routine(0)))
  {
    hide Reached;
    var s2 := TakesFirst(cfg);
    Step(WILD, cfg, s2, Work(0));
    var s3 := WorkStep(s2, 0);
    assert s3.workers[0].pc.Slice? && s3.cos == [Exec];
    Step(WILD, cfg, s3, EndSlice(0, Terminal));
    s := Apply(s3, EndSlice(0, Terminal));
  }

  /** And then takes it from the list again. */
  lemma FinishedIsSwappedIn(cfg: Config) returns (s: State)
    requires WorkerCount(cfg) > 0
    ensures Reached(WILD, cfg, s) && s.workers != [] && s.workers[0].pc.Dispatch?
    ensures AboutToRun(s.workers[0]) == Some(0) && s.cos == [Terminal]
  {
    hide Reached;
    var t := Task(ANY_THREAD, Routine(0));
    var s4 := RunsToItsEnd(cfg);
    Step(WILD, cfg, s4, Work(0));
    var s5 := WorkStep(s4, 0);
    assert s5.workers[0].pc.Scan? && s5.cos == [Terminal] && s5.sh.tasks == [t];
    assert FirstFor([t], 1) == 0;
    Step(WILD, cfg, s5, Work(0));
    s := WorkStep(s5, 0);
  }

  /** Finished coroutines are kept from being swapped in by the submitters alone: exactly when
      they submit only coroutines at rest, or there is no worker. */
  lemma SwapsInOnlyUnfinishedExactlyWhen(cfg: Config, rules: Rules)
    ensures SwapsInOnlyUnfinished(cfg, rules) <==> !rules.wild || WorkerCount(cfg) == 0
  {
    if !rules.wild || WorkerCount(cfg) == 0 {
      forall acts, i | IsRun(rules, cfg, acts) && 0 <= i < |After(rules, cfg, acts).workers|
        ensures UnfinishedIn(After(rules, cfg, acts), i)
      {
        RunIsShaped(rules, cfg, acts);
        if AboutToRun(After(rules, cfg, acts).workers[i]).Some? {
          SwapInIsSafe(rules, cfg, acts, i);
        }
      }
    } else {
      var s := FinishedIsSwappedIn(cfg);
      var acts :| IsRun(WILD, cfg, acts) && After(WILD, cfg, acts) == s;
      Relax(WILD, rules, cfg, acts);
      assert !UnfinishedIn(After(rules, cfg, acts), 0);
    }
  }

  // ------------------------------------------------------------------
  // Taking a coroutine that executes

  /** The assertion of the scan: the coroutine it takes, if any, does not execute. */
  predicate TakesRested(s: State, i: nat)
    requires i < |s.workers|
  {
    var r := TaskQueue.Scan(s.sh.tasks, i + 1);
    s.workers[i].pc.Scan? && r.found.Some? && r.found.value.job.Routine? ==>
      var c := r.found.value.job.co; c < |s.cos| ==> !s.cos[c].Exec?
  }

  ghost predicate TakesOnlyRested(cfg: Config, rules: Rules) {
    forall acts, i :: IsRun(rules, cfg, acts) && 0 <= i < |After(rules, cfg, acts).workers| ==>
                        TakesRested(After(rules, cfg, acts), i)
  }

  /** While one worker is in its slice, the next finds it on the list again. */
  lemma ExecutingIsTaken(cfg: Config) returns (s: State)
    requires WorkerCount(cfg) > 1
    ensures Reached(WILD, cfg, s) && |s.workers| > 1 && !TakesRested(s, 1)
  {
    hide Reached;
    var s2 := TakesFirst(cfg);
    Step(WILD, cfg, s2, Work(0));
    s := WorkStep(s2, 0);
    assert s.cos == [Exec] && s.workers[1] == FRESH;
    assert FirstFor([Task(ANY_THREAD, Routine(0))], 2) == 0;
  }

  /** The assertion holds in every run exactly when submitters keep to coroutines at rest, or there
      is one worker at most: it is no remedy for a coroutine submitted twice. */
  lemma TakesOnlyRestedExactlyWhen(cfg: Config, rules: Rules)
    ensures TakesOnlyRested(cfg, rules) <==> !rules.wild || WorkerCount(cfg) <= 1
  {
    if !rules.wild || WorkerCount(cfg) <= 1 {
      forall acts, i | IsRun(rules, cfg, acts) && 0 <= i < |After(rules, cfg, acts).workers|
        ensures TakesRested(After(rules, cfg, acts), i)
      {
        RunIsShaped(rules, cfg, acts);
        if !rules.wild {
          RunIsExclusive(rules, cfg, acts);
        } else {
          MarkedExactlyWhileRun(rules, cfg, acts);
          OnlyWorkerTakesRested(After(rules, cfg, acts));
        }
      }
    } else {
      var s := ExecutingIsTaken(cfg);
      var acts :| IsRun(WILD, cfg, acts) && After(WILD, cfg, acts) == s;
      Relax(WILD, rules, cfg, acts);
      assert !TakesRested(After(rules, cfg, acts), 1);
    }
  }

  /** A single worker that scans has no coroutine executing. */
  lemma OnlyWorkerTakesRested(s: State)
    requires MarkedOnlyWhileRun(s) && |s.workers| <= 1
    ensures |s.workers| == 1 ==> TakesRested(s, 0)
  {
    if |s.workers| == 1 && s.workers[0].pc.Scan? {
      forall c | 0 <= c < |s.cos| ensures !s.cos[c].Exec? {
        assert !IsRunBySome(s.workers, c);
      }
    }
  }
}
