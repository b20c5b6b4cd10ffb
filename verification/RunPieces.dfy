/** Short stretches of a run in which one worker moves alone, used to build the
    concrete runs that show what the scheduler does not guarantee. */
module RunPieces {
  import opened Base
  import opened TaskQueue
  import opened CoroutineStates
  import opened Protocol

  const LATE := Rules(true, false, false)

  predicate At(w: Worker, pc: Pc) {
    w.pc == pc && w.hand.None? && !w.idleDone
  }

  /** `s'` is `s` with worker `i` at `pc` and `counter` tokens on an empty list. */
  predicate Moved(s: State, s': State, i: nat, pc: Pc, counter: nat) {
    && i < |s.workers| && |s'.workers| == |s.workers|
    && At(s'.workers[i], pc)
    && s'.workers == s.workers[i := s'.workers[i]]
    && s'.sh == Shared([], counter, s.sh.stopped) && s'.stop == s.stop && s'.pool == s.pool
  }

  /** Scan an empty list and idle. */
  lemma GoIdle(rules: Rules, cfg: Config, s: State, i: nat) returns (s': State)
    requires Reached(rules, cfg, s) && i < |s.workers| && At(s.workers[i], Pc.Scan) && s.sh.tasks == []
    ensures Reached(rules, cfg, s') && Moved(s, s', i, IdleCheck, s.sh.counter) && s'.cos == s.cos
  {
    hide Reached;
    Step(rules, cfg, s, Work(i));
    var s1 := WorkStep(s, i);
    Step(rules, cfg, s1, Work(i));
    s' := WorkStep(s1, i);
  }

  /** Be told the scheduler has stopped, scan once more, and leave. */
  lemma Leave(rules: Rules, cfg: Config, s: State, i: nat) returns (s': State)
    requires Reached(rules, cfg, s) && i < |s.workers| && At(s.workers[i], IdleCheck)
    requires s.sh.tasks == [] && s.sh.stopped
    ensures Reached(rules, cfg, s') && s'.workers == s.workers[i := s.workers[i].(pc := Exited, idleDone := true)]
    ensures s'.sh == s.sh && s'.stop == s.stop && s'.pool == s.pool && s'.cos == s.cos
  {
    hide Reached;
    Step(rules, cfg, s, Work(i));
    var s1 := WorkStep(s, i);
    Step(rules, cfg, s1, Work(i));
    var s2 := WorkStep(s1, i);
    Step(rules, cfg, s2, Work(i));
    s' := WorkStep(s2, i);
  }

  /** Be woken by a token and read it. */
  lemma TakeToken(rules: Rules, cfg: Config, s: State, i: nat) returns (s': State)
    requires Reached(rules, cfg, s) && i < |s.workers| && At(s.workers[i], Poll) && s.sh.counter > 0
    ensures Reached(rules, cfg, s') && s'.workers == s.workers[i := s.workers[i].(pc := Pc.Scan)]
    ensures s'.sh == s.sh.(counter := s.sh.counter - 1) && s'.stop == s.stop && s'.pool == s.pool && s'.cos == s.cos
  {
    hide Reached;
    Step(rules, cfg, s, Work(i));
    var s1 := WorkStep(s, i);
    Step(rules, cfg, s1, Work(i));
    s' := WorkStep(s1, i);
  }

  /** Ask IsStopped while the list holds a task, and go back to poll. */
  lemma GoPoll(rules: Rules, cfg: Config, s: State, i: nat) returns (s': State)
    requires Reached(rules, cfg, s) && i < |s.workers| && At(s.workers[i], IdleCheck) && s.sh.tasks != []
    ensures Reached(rules, cfg, s') && s' == SetWorker(s, i, s.workers[i].(pc := Poll))
  {
    hide Reached;
    Step(rules, cfg, s, Work(i));
    s' := WorkStep(s, i);
  }

  const LATE_TASK := Task(ANY_THREAD, Callback(0))

  /** Pick the one callback on the list and start running it in a wrapper. */
  lemma StartLateTask(cfg: Config, s: State, i: nat) returns (s': State)
    requires Reached(LATE, cfg, s) && i < |s.workers| && At(s.workers[i], Pc.Scan) && s.sh.tasks == [LATE_TASK]
    ensures Reached(LATE, cfg, s')
    ensures |s'.workers| == |s.workers| && s'.workers == s.workers[i := s'.workers[i]]
    ensures s'.sh == Shared([], s.sh.counter, s.sh.stopped) && s'.stop == s.stop && s'.pool == s.pool
    ensures s'.workers[i].pc.Slice? && s'.workers[i].hand == Some(LATE_TASK) && !s'.workers[i].idleDone
    ensures s.workers[i].temp.None? ==> s'.workers[i].temp == Some(|s.cos|) && s'.cos == s.cos + [Exec]
  {
    hide Reached;
    assert FirstFor([LATE_TASK], i + 1) == 0;
    Step(LATE, cfg, s, Work(i));
    var s1 := ScanStep(s, i);
    assert s1.workers[i] == s.workers[i].(pc := Dispatch, hand := Some(LATE_TASK)) && s1.sh.tasks == [];
    Step(LATE, cfg, s1, Work(i));
    s' := DispatchStep(s1, i);
  }

  /** The callback returns, and its wrapper is made ready for the next one. */
  lemma EndLateTask(cfg: Config, s: State, i: nat) returns (s': State)
    requires Reached(LATE, cfg, s) && i < |s.workers| && s.sh.tasks == []
    requires s.workers[i].pc.Slice? && s.workers[i].hand == Some(LATE_TASK) && !s.workers[i].idleDone
    ensures Reached(LATE, cfg, s') && Moved(s, s', i, Pc.Scan, s.sh.counter)
    ensures s.workers[i].temp == Some(|s.cos| - 1) ==>
              s'.workers[i].temp == s.workers[i].temp && s'.cos == s.cos[|s.cos| - 1 := Init]
  {
    hide Reached;
    var a := EndSlice(i, Terminal);
    Step(LATE, cfg, s, a);
    var s1 := Apply(s, a);
    Step(LATE, cfg, s1, Work(i));
    s' := SettleStep(s1, i);
  }

  /** Take the one callback on the list and run it to its end. */
  lemma RunLateTask(cfg: Config, s: State, i: nat) returns (s': State)
    requires Reached(LATE, cfg, s) && i < |s.workers| && At(s.workers[i], Pc.Scan) && s.sh.tasks == [LATE_TASK]
    ensures Reached(LATE, cfg, s') && Moved(s, s', i, Pc.Scan, s.sh.counter)
    ensures s.workers[i].temp.None? ==> s'.workers[i].temp == Some(|s.cos|) && s'.cos == s.cos + [Init]
  {
    hide Reached;
    var s1 := StartLateTask(cfg, s, i);
    s' := EndLateTask(cfg, s1, i);
  }
}
