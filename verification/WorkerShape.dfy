/** The shape of every reachable state of the protocol: which places go with a
    task in hand, and how the workers' places agree with how far Stop has come. */
module WorkerShape {
  import opened Base
  import opened TaskQueue
  import opened Protocol

  predicate StopWasSwapped(s: State) {
    s.stop.MainRun? || s.stop.Joining? || s.stop.Returned?
  }

  predicate Shaped(s: State) {
    && s.pool <= |s.workers| <= s.pool + 1
    && (s.sh.stopped <==> !s.stop.NotCalled?)
    && (s.stop.MainNotify? || s.stop.MainSwap? || s.stop.MainRun? ==> HasMain(s))
    && (s.stop.Returned? ==> AllExited(s.workers, s.pool))
    && (forall i :: 0 <= i < |s.workers| ==> ShapedWorker(s, i))
  }

  predicate ShapedWorker(s: State, i: nat)
    requires i < |s.workers|
  {
    var w := s.workers[i];
    && (w.pc.Dormant? <==> i == s.pool && !StopWasSwapped(s))
    && (i == s.pool && (s.stop.Joining? || s.stop.Returned?) ==> w.pc.Exited?)
    && (w.idleDone ==> s.sh.stopped)
    && (w.pc.Exited? ==> w.idleDone)
    && (w.pc.Exited? || w.pc.Dormant? || w.pc.Scan? || w.pc.IdleCheck? || w.pc.Poll? || w.pc.Woken? ==> w.hand.None?)
    && (w.pc.Slice? || w.pc.Settle? ==> w.hand.Some?)
  }

  lemma StartIsShaped(cfg: Config)
    ensures Shaped(Start(cfg))
  {
  }

  lemma WorkKeepsShaped(s: State, i: nat)
    requires Enabled(s, Work(i)) && Shaped(s)
    ensures Shaped(WorkStep(s, i))
  {
    var s' := WorkStep(s, i);
    assert ShapedWorker(s, i);
    assert ShapedWorker(s', i);
    forall k | 0 <= k < |s'.workers| && k != i ensures ShapedWorker(s', k) {
      assert ShapedWorker(s, k);
    }
    assert s.stop.Returned? ==> s.pool <= i;
  }

  lemma StopKeepsShaped(s: State)
    requires Enabled(s, StopStep) && Shaped(s)
    ensures Shaped(StopAdvance(s))
  {
    var s' := StopAdvance(s);
    forall k | 0 <= k < |s'.workers| ensures ShapedWorker(s', k) {
      assert ShapedWorker(s, k);
    }
  }

  lemma StepKeepsShaped(s: State, a: Action)
    requires Enabled(s, a) && Shaped(s)
    ensures Shaped(Apply(s, a))
  {
    match a
    case Work(i) => WorkKeepsShaped(s, i);
    case StopStep => StopKeepsShaped(s);
    case _ =>
      var s' := Apply(s, a);
      forall k | 0 <= k < |s'.workers| ensures ShapedWorker(s', k) {
        assert ShapedWorker(s, k);
      }
  }

  lemma {:induction false} RunIsShaped(rules: Rules, cfg: Config, acts: seq<Action>)
    requires IsRun(rules, cfg, acts)
    ensures Shaped(After(rules, cfg, acts))
    ensures After(rules, cfg, acts).pool == cfg.pool
    ensures |After(rules, cfg, acts).workers| == WorkerCount(cfg)
  {
    if acts == [] {
      StartIsShaped(cfg);
    } else {
      var before := acts[..|acts| - 1];
      RunIsShaped(rules, cfg, before);
      StepKeepsShaped(After(rules, cfg, before), acts[|acts| - 1]);
    }
  }
}
