/** Submitting to a scheduler that is being stopped. Stop posts one wake-up per
    worker, and a late task posts at most one more, although it may send several
    idle workers back to epoll_wait. So with two workers or more a late task from
    outside can strand a worker, and Stop then never returns; with one it cannot. */
module Stranding {
  import opened Base
  import opened TaskQueue
  import opened Protocol
  import opened WorkerShape
  import opened Shutdown
  import opened RunPieces

  // ------------------------------------------------------------------
  // The run that strands a worker

  /** The two workers left, the first and the last, are about to ask IsStopped on an
      empty list, with `c` tokens in the semaphore; all others have exited. */
  predicate TwoLeft(s: State, c: nat) {
    var n := |s.workers|;
    && n >= 2 && s.sh == Shared([], c, true)
    && (s.stop.MainRun? || s.stop.Joining?)
    && s.pool == (if s.stop.MainRun? then n - 1 else n)
    && At(s.workers[0], IdleCheck) && At(s.workers[n - 1], IdleCheck)
    && forall k :: 0 < k < n - 1 ==> s.workers[k].pc.Exited?
  }

  /** A late task arrives now: both go and poll, and the list holds the task. */
  lemma BothPoll(cfg: Config, s: State, c: nat) returns (s': State)
    requires Reached(LATE, cfg, s) && TwoLeft(s, c)
    ensures Reached(LATE, cfg, s') && BothPolling(s', c + 1) && |s'.workers| == |s.workers|
  {
    hide Reached;
    Step(LATE, cfg, s, Submit(LATE_TASK));
    var s1 := Apply(s, Submit(LATE_TASK));
    var s2 := GoPoll(LATE, cfg, s1, 0);
    s' := GoPoll(LATE, cfg, s2, |s.workers| - 1);
  }

  predicate BothPolling(s: State, c: nat) {
    var n := |s.workers|;
    && n >= 2 && s.sh == Shared([LATE_TASK], c, true)
    && (s.stop.MainRun? || s.stop.Joining?)
    && s.pool == (if s.stop.MainRun? then n - 1 else n)
    && At(s.workers[0], Poll) && At(s.workers[n - 1], Poll)
    && forall k :: 0 < k < n - 1 ==> s.workers[k].pc.Exited?
  }

  /** One late task, handled by both, costs the pair one token. */
  lemma OneTokenLess(cfg: Config, s: State, c: nat) returns (s': State)
    requires Reached(LATE, cfg, s) && BothPolling(s, c + 1) && c > 0
    ensures Reached(LATE, cfg, s') && TwoLeft(s', c - 1)
  {
    hide Reached;
    var last := |s.workers| - 1;
    var s2 := TakeToken(LATE, cfg, s, 0);
    var s3 := TakeToken(LATE, cfg, s2, last);
    var s4 := RunLateTask(cfg, s3, 0);
    var s5 := GoIdle(LATE, cfg, s4, last);
    s' := GoIdle(LATE, cfg, s5, 0);
  }

  lemma {:induction false} NoTokenLeft(cfg: Config, s: State, c: nat) returns (s': State)
    requires Reached(LATE, cfg, s) && TwoLeft(s, c)
    ensures Reached(LATE, cfg, s') && TwoLeft(s', 0)
    decreases c
  {
    if c == 0 {
      s' := s;
    } else {
      var s0 := BothPoll(cfg, s, c);
      var s1 := OneTokenLess(cfg, s0, c);
      s' := NoTokenLeft(cfg, s1, c - 1);
    }
  }

  /** The last worker polls an empty semaphore and everyone else has left. */
  predicate OnePolling(s: State) {
    var n := |s.workers|;
    && n >= 2 && s.sh == Shared([], 0, true)
    && (s.stop.MainRun? || s.stop.Joining?)
    && s.pool == (if s.stop.MainRun? then n - 1 else n)
    && At(s.workers[n - 1], Poll)
    && forall k :: 0 <= k < n - 1 ==> s.workers[k].pc.Exited?
  }

  lemma OnePollingIsStranded(s: State)
    requires OnePolling(s)
    ensures Stranded(s)
  {
    forall a | Internal(a) ensures !Enabled(s, a) {
      if a.Work? && a.i < |s.workers| - 1 {
        assert s.workers[a.i].pc.Exited?;
      }
    }
  }

  /** With no token left, one more late task wakes one of the two; it runs the task
      and leaves, and the other polls for ever. */
  lemma LastOneIsStranded(cfg: Config, s: State) returns (s': State)
    requires Reached(LATE, cfg, s) && BothPolling(s, 1)
    ensures Reached(LATE, cfg, s') && Stranded(s')
  {
    hide Reached;
    var s2 := TakeToken(LATE, cfg, s, 0);
    var s3 := RunLateTask(cfg, s2, 0);
    var s4 := GoIdle(LATE, cfg, s3, 0);
    s' := Leave(LATE, cfg, s4, 0);
    OnePollingIsStranded(s');
  }

  // ------------------------------------------------------------------
  // Getting there: stop at once, let everyone idle, let all but two leave

  predicate AllFresh(s: State, n: nat) {
    && |s.workers| == n && n >= 2 && s.sh == Shared([], n, true)
    && (s.stop.MainRun? || s.stop.Joining?)
    && s.pool == (if s.stop.MainRun? then n - 1 else n)
    && forall k :: 0 <= k < n ==> At(s.workers[k], Pc.Scan)
  }

  lemma StopAtOnce(cfg: Config) returns (s: State)
    requires WorkerCount(cfg) >= 2
    ensures Reached(LATE, cfg, s) && AllFresh(s, WorkerCount(cfg))
  {
    hide Reached;
    s := Start(cfg);
    StartIsReached(LATE, cfg);
    Step(LATE, cfg, s, StopStep);
    s := StopAdvance(s);
    Step(LATE, cfg, s, StopStep);
    s := StopAdvance(s);
    if cfg.withMain {
      Step(LATE, cfg, s, StopStep);
      s := StopAdvance(s);
      Step(LATE, cfg, s, StopStep);
      s := StopAdvance(s);
    }
  }

  /** The workers after the first up to the `k`-th have left, the rest have not moved. */
  predicate LeftUpTo(s: State, n: nat, k: nat) {
    && |s.workers| == n && 1 <= k < n && s.sh == Shared([], n, true)
    && (s.stop.MainRun? || s.stop.Joining?)
    && s.pool == (if s.stop.MainRun? then n - 1 else n)
    && (forall j :: 0 < j < k ==> s.workers[j].pc.Exited?)
    && At(s.workers[0], Pc.Scan)
    && (forall j :: k <= j < n ==> At(s.workers[j], Pc.Scan))
  }

  lemma {:induction false} OthersLeave(cfg: Config, s: State, n: nat, k: nat) returns (s': State)
    requires Reached(LATE, cfg, s) && LeftUpTo(s, n, k)
    ensures Reached(LATE, cfg, s') && LeftUpTo(s', n, n - 1)
    decreases n - k
  {
    if k == n - 1 {
      s' := s;
    } else {
      var s1 := GoIdle(LATE, cfg, s, k);
      var s2 := Leave(LATE, cfg, s1, k);
      s' := OthersLeave(cfg, s2, n, k + 1);
    }
  }

  lemma LateTasksStrand(cfg: Config) returns (acts: seq<Action>)
    requires WorkerCount(cfg) >= 2
    ensures IsRun(LATE, cfg, acts) && Stranded(After(LATE, cfg, acts))
  {
    var n := WorkerCount(cfg);
    var s := StopAtOnce(cfg);
    s := OthersLeave(cfg, s, n, 1);
    s := GoIdle(LATE, cfg, s, 0);
    s := GoIdle(LATE, cfg, s, n - 1);
    s := NoTokenLeft(cfg, s, n);
    s := BothPoll(cfg, s, 0);
    s := LastOneIsStranded(cfg, s);
    acts :| IsRun(LATE, cfg, acts) && After(LATE, cfg, acts) == s;
  }
}
