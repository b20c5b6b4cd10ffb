/** The same without anyone else: a coroutine that yields to ready after Stop was called is
    submitted again by its worker, which takes it itself. Each time that posts one wake-up and
    sends the idle workers back to epoll_wait. With two of them a wake-up is missing each time,
    so three workers can come to stand still; two cannot. */
module AgainStranding {
  import opened Base
  import opened TaskQueue
  import opened CoroutineStates
  import opened Protocol
  import opened WorkerShape
  import opened Shutdown
  import opened RunPieces
  import opened Stranding

  const AGAIN := Rules(false, true, false)

  const ROUTINE := Task(ANY_THREAD, Routine(0))

  /** Stop is under way with nothing left to post. */
  predicate Stopping(s: State, n: nat) {
    && |s.workers| == n >= 3 && s.sh.stopped
    && (s.stop.MainRun? || s.stop.Joining?)
    && s.pool == (if s.stop.MainRun? then n - 1 else n)
  }

  /** The first worker is in the slice of the one coroutine, the list is empty with `c` tokens in the
      semaphore, the second and the last are at `pc`, and all others have exited. */
  predicate OneRuns(s: State, n: nat, c: nat, pc: Pc) {
    && Stopping(s, n) && s.sh == Shared([], c, true) && s.cos == [Exec]
    && s.workers[0].pc.Slice? && s.workers[0].hand == Some(ROUTINE) && !s.workers[0].idleDone
    && At(s.workers[1], pc) && At(s.workers[n - 1], pc)
    && forall k :: 1 < k < n - 1 ==> s.workers[k].pc.Exited?
  }

  /** The coroutine yields to ready and is on the list. */
  lemma Yields(cfg: Config, s: State, n: nat, c: nat) returns (s': State)
    requires Reached(AGAIN, cfg, s) && OneRuns(s, n, c, IdleCheck)
    ensures Reached(AGAIN, cfg, s') && |s'.workers| == |s.workers|
    ensures s' == s.(sh := Shared([ROUTINE], c + 1, true), cos := [Ready], submitted := s'.submitted,
                     completed := s'.completed, workers := s.workers[0 := s'.workers[0]])
    ensures At(s'.workers[0], Pc.Scan)
  {
    hide Reached;
    Step(AGAIN, cfg, s, EndSlice(0, Ready));
    var s1 := Apply(s, EndSlice(0, Ready));
    assert s1.workers[0].pc.Settle? && s1.cos == [Ready];
    Step(AGAIN, cfg, s1, Work(0));
    s' := WorkStep(s1, 0);
  }

  /** The worker takes it again and goes on with it. */
  lemma GoesOnWithIt(cfg: Config, s: State) returns (s': State)
    requires Reached(AGAIN, cfg, s) && s.workers != [] && At(s.workers[0], Pc.Scan)
    requires s.sh.tasks == [ROUTINE] && |s.cos| == 1
    ensures Reached(AGAIN, cfg, s') && |s'.workers| == |s.workers|
    ensures s' == s.(sh := s.sh.(tasks := []), cos := [Exec], taken := s'.taken, takers := s'.takers,
                     workers := s.workers[0 := s'.workers[0]])
    ensures s'.workers[0].pc.Slice? && s'.workers[0].hand == Some(ROUTINE) && !s'.workers[0].idleDone
  {
    hide Reached;
    assert FirstFor([ROUTINE], 1) == 0;
    Step(AGAIN, cfg, s, Work(0));
    var s1 := WorkStep(s, 0);
    assert s1.sh.tasks == [] && s1.workers[0].pc.Dispatch? && s1.workers[0].hand == Some(ROUTINE);
    Step(AGAIN, cfg, s1, Work(0));
    s' := WorkStep(s1, 0);
  }

  /** One yield sends both others back to poll, with one more token. */
  lemma SendsBoth(cfg: Config, s: State, n: nat, c: nat) returns (s': State)
    requires Reached(AGAIN, cfg, s) && OneRuns(s, n, c, IdleCheck)
    ensures Reached(AGAIN, cfg, s') && OneRuns(s', n, c + 1, Poll)
  {
    hide Reached;
    var s1 := Yields(cfg, s, n, c);
    var s2 := GoPoll(AGAIN, cfg, s1, 1);
    var s3 := GoPoll(AGAIN, cfg, s2, n - 1);
    s' := GoesOnWithIt(cfg, s3);
  }

  /** Both wake up, which costs two tokens, find nothing, and are about to leave again. */
  lemma BothBack(cfg: Config, s: State, n: nat, c: nat) returns (s': State)
    requires Reached(AGAIN, cfg, s) && OneRuns(s, n, c + 2, Poll)
    ensures Reached(AGAIN, cfg, s') && OneRuns(s', n, c, IdleCheck)
  {
    hide Reached;
    var s1 := TakeToken(AGAIN, cfg, s, 1);
    var s2 := TakeToken(AGAIN, cfg, s1, n - 1);
    var s3 := GoIdle(AGAIN, cfg, s2, 1);
    s' := GoIdle(AGAIN, cfg, s3, n - 1);
  }

  lemma {:induction false} NoTokenRemains(cfg: Config, s: State, n: nat, c: nat) returns (s': State)
    requires Reached(AGAIN, cfg, s) && OneRuns(s, n, c, IdleCheck)
    ensures Reached(AGAIN, cfg, s') && OneRuns(s', n, 0, IdleCheck)
    decreases c
  {
    hide Reached, OneRuns;
    if c == 0 {
      s' := s;
    } else {
      var s1 := SendsBoth(cfg, s, n, c);
      var s2 := BothBack(cfg, s1, n, c - 1);
      s' := NoTokenRemains(cfg, s2, n, c - 1);
    }
  }

  /** The coroutine comes to its end. */
  lemma Finishes(cfg: Config, s: State) returns (s': State)
    requires Reached(AGAIN, cfg, s) && s.workers != [] && s.cos == [Exec] && s.sh.tasks == []
    requires s.workers[0].pc.Slice? && s.workers[0].hand == Some(ROUTINE) && !s.workers[0].idleDone
    ensures Reached(AGAIN, cfg, s') && Moved(s, s', 0, Pc.Scan, s.sh.counter)
  {
    hide Reached;
    Step(AGAIN, cfg, s, EndSlice(0, Terminal));
    var s1 := Apply(s, EndSlice(0, Terminal));
    assert s1.workers[0].pc.Settle? && s1.cos == [Terminal];
    Step(AGAIN, cfg, s1, Work(0));
    s' := WorkStep(s1, 0);
  }

  /** One more yield: the one token it posts wakes one of the two, and the other polls for ever. */
  lemma LastIsStranded(cfg: Config, s: State, n: nat) returns (s': State)
    requires Reached(AGAIN, cfg, s) && OneRuns(s, n, 0, IdleCheck)
    ensures Reached(AGAIN, cfg, s') && Stranded(s')
  {
    hide Reached;
    var s1 := SendsBoth(cfg, s, n, 0);
    var s2 := TakeToken(AGAIN, cfg, s1, 1);
    var s3 := GoIdle(AGAIN, cfg, s2, 1);
    var s4 := Leave(AGAIN, cfg, s3, 1);
    var s5 := Finishes(cfg, s4);
    var s6 := GoIdle(AGAIN, cfg, s5, 0);
    s' := Leave(AGAIN, cfg, s6, 0);
    OnePollingIsStranded(s');
  }

  // ------------------------------------------------------------------
  // Getting there

  /** The coroutine is submitted, and then Stop is called. */
  lemma StopWithOne(cfg: Config) returns (s: State)
    requires WorkerCount(cfg) >= 3
    ensures Reached(AGAIN, cfg, s) && Stopping(s, WorkerCount(cfg)) && s.cos == [Init]
    ensures s.sh == Shared([ROUTINE], WorkerCount(cfg) + 1, true)
    ensures forall k :: 0 <= k < |s.workers| ==> At(s.workers[k], Pc.Scan)
  {
    hide Reached;
    StartIsReached(AGAIN, cfg);
    var s0 := Start(cfg);
    Step(AGAIN, cfg, s0, Create);
    var s1 := Apply(s0, Create);
    Step(AGAIN, cfg, s1, Submit(ROUTINE));
    s := Apply(s1, Submit(ROUTINE));
    Step(AGAIN, cfg, s, StopStep);
    s := StopAdvance(s);
    Step(AGAIN, cfg, s, StopStep);
    s := StopAdvance(s);
    if cfg.withMain {
      Step(AGAIN, cfg, s, StopStep);
      s := StopAdvance(s);
      Step(AGAIN, cfg, s, StopStep);
      s := StopAdvance(s);
    }
  }

  /** The first worker runs the coroutine; those from the third up to the `k`-th have left. */
  predicate GoneUpTo(s: State, n: nat, k: nat) {
    && Stopping(s, n) && 2 <= k < n && s.sh == Shared([], n + 1, true) && s.cos == [Exec]
    && s.workers[0].pc.Slice? && s.workers[0].hand == Some(ROUTINE) && !s.workers[0].idleDone
    && (forall j :: 1 < j < k ==> s.workers[j].pc.Exited?)
    && At(s.workers[1], Pc.Scan)
    && (forall j :: k <= j < n ==> At(s.workers[j], Pc.Scan))
  }

  lemma {:induction false} OthersGo(cfg: Config, s: State, n: nat, k: nat) returns (s': State)
    requires Reached(AGAIN, cfg, s) && GoneUpTo(s, n, k)
    ensures Reached(AGAIN, cfg, s') && GoneUpTo(s', n, n - 1)
    decreases n - k
  {
    if k == n - 1 {
      s' := s;
    } else {
      var s1 := GoIdle(AGAIN, cfg, s, k);
      var s2 := Leave(AGAIN, cfg, s1, k);
      s' := OthersGo(cfg, s2, n, k + 1);
    }
  }

  /** For every configuration of three workers or more. */
  lemma AgainStrands(cfg: Config) returns (acts: seq<Action>)
    requires WorkerCount(cfg) >= 3
    ensures IsRun(AGAIN, cfg, acts) && Stranded(After(AGAIN, cfg, acts))
  {
    var n := WorkerCount(cfg);
    var s := StopWithOne(cfg);
    s := GoesOnWithIt(cfg, s);
    s := OthersGo(cfg, s, n, 2);
    s := GoIdle(AGAIN, cfg, s, 1);
    s := GoIdle(AGAIN, cfg, s, n - 1);
    s := NoTokenRemains(cfg, s, n, n + 1);
    s := LastIsStranded(cfg, s, n);
    acts :| IsRun(AGAIN, cfg, acts) && After(AGAIN, cfg, acts) == s;
  }

  // ------------------------------------------------------------------

  /** No run under these rules leaves a worker, and Stop, unable to move. */
  ghost predicate StopIsSafe(cfg: Config, rules: Rules) {
    forall acts :: IsRun(rules, cfg, acts) ==> !Stranded(After(rules, cfg, acts))
  }

  /** Stop is safe exactly with few enough workers for what may still be submitted after it was
      called: one if anybody may submit, two if only the workers may, what yields to ready, and any
      number if nobody may. Which coroutines are submitted makes no difference. */
  lemma StopIsSafeExactlyWhen(cfg: Config, rules: Rules)
    ensures StopIsSafe(cfg, rules) <==> FewEnough(rules, cfg)
  {
    if FewEnough(rules, cfg) {
      forall acts | IsRun(rules, cfg, acts) ensures !Stranded(After(rules, cfg, acts)) {
        RunIsShaped(rules, cfg, acts);
        RunIsBalanced(rules, cfg, acts);
        NotStranded(After(rules, cfg, acts));
      }
    } else if rules.late && WorkerCount(cfg) >= 2 {
      var acts := LateTasksStrand(cfg);
      Relax(LATE, rules, cfg, acts);
    } else {
      var acts := AgainStrands(cfg);
      Relax(AGAIN, rules, cfg, acts);
    }
  }
}
