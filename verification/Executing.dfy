/** What a coroutine's state says about who has it. One is marked as executing only while
    a worker is in its slice, or about to settle it: none is left behind with that mark,
    which would bar it from ever running again. One that is ready is on its way to run. */
module Executing {
  import opened Base
  import opened TaskQueue
  import opened CoroutineStates
  import opened Protocol
  import opened WorkerShape
  import opened Exclusivity

  predicate Runs(w: Worker, c: nat) {
    (w.pc.Slice? || w.pc.Settle?) && SliceCo(w) == c
  }

  predicate IsRunBySome(ws: seq<Worker>, c: nat) {
    exists i :: 0 <= i < |ws| && Runs(ws[i], c)
  }

  predicate MarkedOnlyWhileRun(s: State) {
    forall c :: 0 <= c < |s.cos| && s.cos[c].Exec? ==> IsRunBySome(s.workers, c)
  }

  /** Worker `i` moves; whatever it ran and does not run any more is not marked. */
  lemma MoveKeepsMarks(s: State, s': State, i: nat)
    requires i < |s.workers| == |s'.workers| && s'.workers == s.workers[i := s'.workers[i]]
    requires MarkedOnlyWhileRun(s)
    requires forall c :: 0 <= c < |s'.cos| && s'.cos[c].Exec? ==>
               Runs(s'.workers[i], c) || (c < |s.cos| && s.cos[c].Exec? && !Runs(s.workers[i], c))
    ensures MarkedOnlyWhileRun(s')
  {
    forall c | 0 <= c < |s'.cos| && s'.cos[c].Exec? ensures IsRunBySome(s'.workers, c) {
      if !Runs(s'.workers[i], c) {
        var k :| 0 <= k < |s.workers| && Runs(s.workers[k], c);
        assert Runs(s'.workers[k], c);
      }
    }
  }

  lemma StepKeepsMarks(s: State, a: Action)
    requires Enabled(s, a) && Shaped(s) && MarkedOnlyWhileRun(s)
    ensures MarkedOnlyWhileRun(Apply(s, a))
  {
    var s' := Apply(s, a);
    match a
    case Work(i) => MoveKeepsMarks(s, s', i);
    case EndSlice(i, _) => MoveKeepsMarks(s, s', i);
    case EventWake(i) => MoveKeepsMarks(s, s', i);
    case StopStep =>
      if s.stop.MainSwap? {
        assert ShapedWorker(s, s.pool);
        MoveKeepsMarks(s, s', s.pool);
      }
    case _ =>
  }

  /** Over every run. And where the submitters keep to coroutines at rest, a worker in a
      slice runs a coroutine that is marked. */
  lemma {:induction false} MarkedExactlyWhileRun(rules: Rules, cfg: Config, acts: seq<Action>)
    requires IsRun(rules, cfg, acts)
    ensures MarkedOnlyWhileRun(After(rules, cfg, acts))
    ensures var s := After(rules, cfg, acts);
            !rules.wild ==> forall i :: 0 <= i < |s.workers| && s.workers[i].pc.Slice? ==>
                              SliceCo(s.workers[i]) < |s.cos| && s.cos[SliceCo(s.workers[i])].Exec?
  {
    hide Apply, Exclusive, Enabled, Shaped;
    if acts != [] {
      var before := acts[..|acts| - 1];
      MarkedExactlyWhileRun(rules, cfg, before);
      RunIsShaped(rules, cfg, before);
      StepKeepsMarks(After(rules, cfg, before), acts[|acts| - 1]);
    }
    if !rules.wild {
      RunIsExclusive(rules, cfg, acts);
      RunIsShaped(rules, cfg, acts);
      SlicesAreMarked(After(rules, cfg, acts));
    }
  }

  lemma SlicesAreMarked(s: State)
    requires Exclusive(s) && Shaped(s)
    ensures forall i :: 0 <= i < |s.workers| && s.workers[i].pc.Slice? ==>
              SliceCo(s.workers[i]) < |s.cos| && s.cos[SliceCo(s.workers[i])].Exec?
  {
    forall i | 0 <= i < |s.workers| && s.workers[i].pc.Slice?
      ensures SliceCo(s.workers[i]) < |s.cos| && s.cos[SliceCo(s.workers[i])].Exec?
    {
      assert TidyWorker(s.workers[i], s.cos) && ShapedWorker(s, i);
    }
  }

  // ------------------------------------------------------------------
  // A coroutine that asked to be run again is not forgotten

  /** The worker is about to run it, or about to settle the slice in which it asked. */
  predicate Cares(w: Worker, c: nat) {
    ((w.pc.Notifying? || w.pc.Dispatch?) && InHand(w, c)) || (w.pc.Settle? && SliceCo(w) == c)
  }

  predicate CaredFor(s: State, c: nat) {
    Queued(s.sh.tasks, c) || exists i :: 0 <= i < |s.workers| && Cares(s.workers[i], c)
  }

  predicate ReadyIsCaredFor(s: State) {
    forall c :: 0 <= c < |s.cos| && s.cos[c].Ready? ==> CaredFor(s, c)
  }

  lemma MoveKeepsCare(s: State, s': State, i: nat)
    requires i < |s.workers| == |s'.workers| && s'.workers == s.workers[i := s'.workers[i]]
    requires ReadyIsCaredFor(s)
    requires forall c :: 0 <= c < |s'.cos| && s'.cos[c].Ready? ==>
               Queued(s'.sh.tasks, c) || Cares(s'.workers[i], c)
               || (c < |s.cos| && s.cos[c].Ready? && !Queued(s.sh.tasks, c) && !Cares(s.workers[i], c))
    ensures ReadyIsCaredFor(s')
  {
    forall c | 0 <= c < |s'.cos| && s'.cos[c].Ready? ensures CaredFor(s', c) {
      if !Queued(s'.sh.tasks, c) && !Cares(s'.workers[i], c) {
        assert CaredFor(s, c);
        var k :| 0 <= k < |s.workers| && Cares(s.workers[k], c);
        assert Cares(s'.workers[k], c);
      }
    }
  }

  /** What a scan takes off the list is in the hand of the worker. */
  lemma TakenIsInHand(s: State, i: nat, c: nat)
    requires i < |s.workers| && Queued(s.sh.tasks, c)
    ensures Queued(ScanStep(s, i).sh.tasks, c) || Cares(ScanStep(s, i).workers[i], c)
  {
    var tasks, at := s.sh.tasks, FirstFor(s.sh.tasks, i + 1);
    var k :| 0 <= k < |tasks| && tasks[k].job == Routine(c);
    if at < |tasks| && k != at {
      var rest := ScanStep(s, i).sh.tasks;
      assert rest[if k < at then k else k - 1] == tasks[k];
    }
  }

  lemma WorkKeepsCare(s: State, i: nat)
    requires Enabled(s, Work(i)) && ShapedWorker(s, i) && ReadyIsCaredFor(s)
    ensures ReadyIsCaredFor(WorkStep(s, i))
  {
    var s' := WorkStep(s, i);
    forall c | 0 <= c < |s'.cos| && s'.cos[c].Ready?
      ensures Queued(s'.sh.tasks, c) || Cares(s'.workers[i], c)
              || (c < |s.cos| && s.cos[c].Ready? && !Queued(s.sh.tasks, c) && !Cares(s.workers[i], c))
    {
      if Queued(s.sh.tasks, c) && s.workers[i].pc.Scan? {
        TakenIsInHand(s, i, c);
      } else if s.workers[i].pc.Settle? {
        QueuedAfter(s.sh.tasks, Task(ANY_THREAD, Routine(SliceCo(s.workers[i]))), c);
      }
    }
    MoveKeepsCare(s, s', i);
  }

  lemma StepKeepsCare(s: State, a: Action)
    requires Enabled(s, a) && Shaped(s) && ReadyIsCaredFor(s)
    ensures ReadyIsCaredFor(Apply(s, a))
  {
    var s' := Apply(s, a);
    match a
    case Submit(t) =>
      forall c | 0 <= c < |s'.cos| && s'.cos[c].Ready? ensures CaredFor(s', c) {
        assert CaredFor(s, c);
        QueuedAfter(s.sh.tasks, t, c);
      }
    case Create =>
      forall c | 0 <= c < |s'.cos| && s'.cos[c].Ready? ensures CaredFor(s', c) {
        assert CaredFor(s, c);
      }
    case Work(i) =>
      assert ShapedWorker(s, i);
      WorkKeepsCare(s, i);
    case EndSlice(i, _) => MoveKeepsCare(s, s', i);
    case EventWake(i) => MoveKeepsCare(s, s', i);
    case StopStep =>
      if s.stop.MainSwap? {
        assert ShapedWorker(s, s.pool);
        MoveKeepsCare(s, s', s.pool);
      } else {
        forall c | 0 <= c < |s'.cos| && s'.cos[c].Ready? ensures CaredFor(s', c) {
          assert CaredFor(s, c);
        }
      }
  }

  /** In every run, a coroutine that yielded to ready is on the list, or a worker is about
      to put it there or to run it. */
  lemma {:induction false} ReadyIsNotForgotten(rules: Rules, cfg: Config, acts: seq<Action>)
    requires IsRun(rules, cfg, acts)
    ensures ReadyIsCaredFor(After(rules, cfg, acts))
  {
    if acts != [] {
      var before := acts[..|acts| - 1];
      ReadyIsNotForgotten(rules, cfg, before);
      RunIsShaped(rules, cfg, before);
      StepKeepsCare(After(rules, cfg, before), acts[|acts| - 1]);
    }
  }
}
