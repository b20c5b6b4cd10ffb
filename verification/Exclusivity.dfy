/** A coroutine belongs to one place at a time: one queue entry, one worker's
    hand, or one worker's recycled wrapper. So two threads never run the same
    coroutine, none is picked while it executes or after it finished, and the
    wrapper a worker recycles is never one that is suspended or queued. */
module Exclusivity {
  import opened Base
  import opened TaskQueue
  import opened CoroutineStates
  import opened Protocol
  import opened WorkerShape
  import opened RunPieces

  /** What the coroutines in worker `w`'s possession look like, by where it is. */
  predicate TidyWorker(w: Worker, cos: seq<CoState>) {
    && (w.hand.Some? && w.hand.value.job.Routine? ==>
          var c := w.hand.value.job.co;
          && c < |cos|
          && (w.pc.Notifying? || w.pc.Dispatch? ==> Runnable(cos[c]))
          && (w.pc.Slice? ==> cos[c].Exec?)
          && w.temp != Some(c))
    && (w.temp.Some? ==>
          && w.temp.value < |cos|
          && (if w.hand.Some? && w.hand.value.job.Callback? && (w.pc.Slice? || w.pc.Settle?)
              then w.pc.Slice? ==> cos[w.temp.value].Exec?
              else cos[w.temp.value].Init?))
    && (w.hand.Some? && w.hand.value.job.Callback? && (w.pc.Slice? || w.pc.Settle?) ==> w.temp.Some?)
  }

  predicate QueueIsTidy(tasks: seq<Task>, cos: seq<CoState>) {
    && (forall k :: 0 <= k < |tasks| && tasks[k].job.Routine? ==>
          tasks[k].job.co < |cos| && Runnable(cos[tasks[k].job.co]))
    && (forall j, k :: 0 <= j < k < |tasks| && tasks[j].job.Routine? ==> tasks[j].job != tasks[k].job)
  }

  ghost predicate NotShared(s: State) {
    && (forall i, c :: 0 <= i < |s.workers| && Holds(s.workers[i], c) ==> !Queued(s.sh.tasks, c))
    && (forall i, j, c :: 0 <= i < j < |s.workers| && Holds(s.workers[i], c) ==> !Holds(s.workers[j], c))
  }

  ghost predicate Exclusive(s: State) {
    && QueueIsTidy(s.sh.tasks, s.cos)
    && NotShared(s)
    && (forall i :: 0 <= i < |s.workers| ==> TidyWorker(s.workers[i], s.cos))
  }

  // ------------------------------------------------------------------
  // Steps

  /** Changing the state of one coroutine matters only to whoever holds it. */
  lemma OthersUnmoved(s: State, c: nat, st: CoState, i: nat)
    requires Exclusive(s) && i < |s.workers| && Holds(s.workers[i], c)
    ensures QueueIsTidy(s.sh.tasks, SetCo(s.cos, c, st))
    ensures forall k :: 0 <= k < |s.workers| && k != i ==> TidyWorker(s.workers[k], SetCo(s.cos, c, st))
  {
    forall k | 0 <= k < |s.sh.tasks| && s.sh.tasks[k].job.Routine?
      ensures s.sh.tasks[k].job.co != c
    {
      assert s.sh.tasks[k].job == Routine(c) ==> Queued(s.sh.tasks, c);
    }
    forall k | 0 <= k < |s.workers| && k != i ensures TidyWorker(s.workers[k], SetCo(s.cos, c, st)) {
      assert TidyWorker(s.workers[k], s.cos);
      assert !Holds(s.workers[k], c);
    }
  }

  /** Worker `i` changes, holding no coroutine it did not hold before. */
  lemma HoldsNoMore(s: State, i: nat, w: Worker)
    requires NotShared(s) && i < |s.workers|
    requires forall c :: Holds(w, c) ==> Holds(s.workers[i], c)
    ensures NotShared(SetWorker(s, i, w))
  {
  }

  /** Removing one entry leaves a tidy queue and takes that coroutine off it. */
  lemma RemoveFromQueue(tasks: seq<Task>, cos: seq<CoState>, at: nat, rest: seq<Task>)
    requires at < |tasks| && rest == tasks[..at] + tasks[at + 1..] && QueueIsTidy(tasks, cos)
    ensures QueueIsTidy(rest, cos)
    ensures forall c :: Queued(rest, c) ==> Queued(tasks, c) && tasks[at].job != Routine(c)
  {
    forall k | 0 <= k < |rest| ensures rest[k] == tasks[if k < at then k else k + 1] {
    }
    forall c | Queued(rest, c) ensures Queued(tasks, c) && tasks[at].job != Routine(c) {
      var k :| 0 <= k < |rest| && rest[k].job == Routine(c);
      assert tasks[if k < at then k else k + 1].job == Routine(c);
    }
  }

  lemma ScanKeepsExclusive(s: State, i: nat)
    requires Exclusive(s) && i < |s.workers| && s.workers[i].pc.Scan? && s.workers[i].hand.None?
    ensures Exclusive(ScanStep(s, i))
  {
    var w, tasks := s.workers[i], s.sh.tasks;
    var at := FirstFor(tasks, i + 1);
    assert TidyWorker(w, s.cos);
    if at < |tasks| {
      var s' := ScanStep(s, i);
      var w' := s'.workers[i];
      RemoveFromQueue(tasks, s.cos, at, s'.sh.tasks);
      forall c | Holds(w', c) ensures Holds(w, c) || (Queued(tasks, c) && tasks[at].job == Routine(c)) {
        assert tasks[at].job == Routine(c) ==> Queued(tasks, c);
      }
      if tasks[at].job.Routine? {
        assert Queued(tasks, tasks[at].job.co);
        assert !Holds(w, tasks[at].job.co);
      }
      assert TidyWorker(w', s.cos);
      assert NotShared(s');
    }
  }

  lemma DispatchKeepsExclusive(s: State, i: nat)
    requires Exclusive(s) && Shaped(s) && i < |s.workers| && s.workers[i].pc.Dispatch?
    ensures Exclusive(DispatchStep(s, i))
  {
    var w, s' := s.workers[i], DispatchStep(s, i);
    assert TidyWorker(w, s.cos);
    match w.hand
    case None => HoldsNoMore(s, i, s'.workers[i]);
    case Some(Task(_, Routine(c))) =>
      assert Holds(w, c);
      OthersUnmoved(s, c, Exec, i);
      HoldsNoMore(s, i, s'.workers[i]);
    case Some(Task(_, Callback(_))) =>
      if w.temp.Some? {
        assert Holds(w, w.temp.value);
        OthersUnmoved(s, w.temp.value, Exec, i);
        HoldsNoMore(s, i, s'.workers[i]);
      } else {
        FreshWrapper(s, i);
      }
  }

  /** A new wrapper is nobody else's. */
  lemma FreshWrapper(s: State, i: nat)
    requires Exclusive(s) && i < |s.workers| && s.workers[i].pc.Dispatch?
    requires s.workers[i].hand.Some? && s.workers[i].hand.value.job.Callback? && s.workers[i].temp.None?
    ensures Exclusive(DispatchStep(s, i))
  {
    var s' := DispatchStep(s, i);
    forall k | 0 <= k < |s'.workers| ensures TidyWorker(s'.workers[k], s'.cos) {
      assert TidyWorker(s.workers[k], s.cos);
    }
    forall k | 0 <= k < |s.workers| ensures !Holds(s.workers[k], |s.cos|) {
      assert TidyWorker(s.workers[k], s.cos);
    }
    assert !Queued(s.sh.tasks, |s.cos|);
  }

  lemma QueuedAfter(tasks: seq<Task>, t: Task, c: nat)
    ensures Queued(tasks + [t], c) <==> Queued(tasks, c) || t.job == Routine(c)
  {
    if Queued(tasks, c) {
      var k :| 0 <= k < |tasks| && tasks[k].job == Routine(c);
      assert (tasks + [t])[k].job == Routine(c);
    }
    if t.job == Routine(c) {
      assert (tasks + [t])[|tasks|].job == Routine(c);
    }
  }

  /** Handing coroutine `c` over from worker `i` to the end of the list. */
  lemma HandOver(s: State, i: nat, w: Worker, c: nat)
    requires Exclusive(s) && i < |s.workers| && Holds(s.workers[i], c)
    requires c < |s.cos| && Runnable(s.cos[c])
    requires w.hand.None? && !Holds(w, c) && TidyWorker(w, s.cos)
    requires w.temp.Some? ==> w.temp == s.workers[i].temp
    ensures Exclusive(SetWorker(s, i, w).(sh := Submitted(s.sh, Task(ANY_THREAD, Routine(c)))))
  {
    var t := Task(ANY_THREAD, Routine(c));
    var tasks' := s.sh.tasks + [t];
    var ws' := s.workers[i := w];
    forall d ensures Queued(tasks', d) <==> Queued(s.sh.tasks, d) || d == c {
      QueuedAfter(s.sh.tasks, t, d);
    }
    assert !Queued(s.sh.tasks, c);
    forall k | 0 <= k < |s.sh.tasks| ensures s.sh.tasks[k].job != Routine(c) {
      assert s.sh.tasks[k].job == Routine(c) ==> Queued(s.sh.tasks, c);
    }
    assert forall k, d :: 0 <= k < |ws'| && Holds(ws'[k], d) ==> Holds(s.workers[k], d);
    assert forall k :: 0 <= k < |ws'| ==> !Holds(ws'[k], c);
  }

  lemma SettleKeepsExclusive(s: State, i: nat)
    requires Exclusive(s) && i < |s.workers| && s.workers[i].pc.Settle? && s.workers[i].hand.Some?
    ensures Exclusive(SettleStep(s, i))
  {
    var w, s' := s.workers[i], SettleStep(s, i);
    var c := SliceCo(w);
    assert TidyWorker(w, s.cos);
    assert Holds(w, c) && c < |s.cos|;
    if s.cos[c].Ready? {
      HandOver(s, i, s'.workers[i], c);
    } else {
      OthersUnmoved(s, c, if Finished(s.cos[c]) then Init else Hold, i);
      HoldsNoMore(s, i, s'.workers[i]);
    }
  }

  lemma EndSliceKeepsExclusive(s: State, i: nat, outcome: CoState)
    requires Exclusive(s) && Shaped(s) && Enabled(s, EndSlice(i, outcome))
    ensures Exclusive(Apply(s, EndSlice(i, outcome)))
  {
    var w := s.workers[i];
    assert TidyWorker(w, s.cos) && ShapedWorker(s, i);
    assert Holds(w, SliceCo(w));
    OthersUnmoved(s, SliceCo(w), outcome, i);
    HoldsNoMore(s, i, w.(pc := Settle));
  }

  /** The state after Co, whoever calls it. */
  function AfterCo(s: State, t: Task): State {
    s.(sh := Submitted(s.sh, t), submitted := s.submitted + [t])
  }

  /** Submitting a coroutine keeps every coroutine in one place exactly when that
      coroutine is at rest. */
  lemma SubmitKeepsExclusiveExactlyWhen(s: State, t: Task)
    requires Exclusive(s)
    ensures Exclusive(AfterCo(s, t)) <==> (t.job.Routine? ==> AtRest(s, t.job.co))
  {
    var s' := AfterCo(s, t);
    forall d ensures Queued(s'.sh.tasks, d) <==> Queued(s.sh.tasks, d) || t.job == Routine(d) {
      QueuedAfter(s.sh.tasks, t, d);
    }
    if t.job.Routine? {
      var c := t.job.co;
      assert s'.sh.tasks[|s.sh.tasks|] == t;
      if Queued(s.sh.tasks, c) {
        var k :| 0 <= k < |s.sh.tasks| && s.sh.tasks[k].job == Routine(c);
        assert s'.sh.tasks[k] == s.sh.tasks[k];
      } else {
        forall k | 0 <= k < |s.sh.tasks| ensures s.sh.tasks[k].job != Routine(c) {
          assert s.sh.tasks[k].job == Routine(c) ==> Queued(s.sh.tasks, c);
        }
      }
    }
  }

  lemma WorkKeepsExclusive(s: State, i: nat)
    requires Exclusive(s) && Shaped(s) && Enabled(s, Work(i))
    ensures Exclusive(WorkStep(s, i))
  {
    assert ShapedWorker(s, i) && TidyWorker(s.workers[i], s.cos);
    if s.workers[i].pc.Scan? {
      ScanKeepsExclusive(s, i);
    } else if s.workers[i].pc.Dispatch? {
      DispatchKeepsExclusive(s, i);
    } else if s.workers[i].pc.Settle? {
      SettleKeepsExclusive(s, i);
    } else {
      HoldsNoMore(s, i, WorkStep(s, i).workers[i]);
    }
  }

  lemma StepKeepsExclusive(rules: Rules, s: State, a: Action)
    requires Exclusive(s) && Shaped(s) && CanStep(rules, s, a) && !rules.wild
    ensures Exclusive(Apply(s, a))
  {
    match a
    case Work(i) => WorkKeepsExclusive(s, i);
    case EndSlice(i, outcome) => EndSliceKeepsExclusive(s, i, outcome);
    case Submit(t) => SubmitKeepsExclusiveExactlyWhen(s, t);
    case EventWake(i) =>
      assert ShapedWorker(s, i) && TidyWorker(s.workers[i], s.cos);
      HoldsNoMore(s, i, s.workers[i].(pc := Pc.Scan));
    case StopStep =>
      if s.stop.MainSwap? {
        assert ShapedWorker(s, s.pool) && TidyWorker(s.workers[s.pool], s.cos);
        HoldsNoMore(s, s.pool, s.workers[s.pool].(pc := Pc.Scan));
      }
    case Create =>
      forall k | 0 <= k < |s.workers| ensures TidyWorker(s.workers[k], s.cos + [Init]) {
        assert TidyWorker(s.workers[k], s.cos);
      }
  }

  lemma {:induction false} RunIsExclusive(rules: Rules, cfg: Config, acts: seq<Action>)
    requires IsRun(rules, cfg, acts) && !rules.wild
    ensures Exclusive(After(rules, cfg, acts))
  {
    if acts != [] {
      var before := acts[..|acts| - 1];
      RunIsExclusive(rules, cfg, before);
      RunIsShaped(rules, cfg, before);
      StepKeepsExclusive(rules, After(rules, cfg, before), acts[|acts| - 1]);
    }
  }

  // ------------------------------------------------------------------
  // What it means for the program's own assertions

  /** The coroutine a worker is about to swap in, when it is about to swap one in. */
  function AboutToRun(w: Worker): Option<nat> {
    if !w.pc.Dispatch? then None
    else match w.hand
         case Some(Task(_, Routine(c))) => Some(c)
         case Some(Task(_, Callback(_))) => w.temp
         case None => None
  }

  /** Whatever is swapped in can run, and no other thread is running it or about to. */
  lemma SwapInIsSafe(rules: Rules, cfg: Config, acts: seq<Action>, i: nat)
    requires IsRun(rules, cfg, acts) && !rules.wild
    requires var s := After(rules, cfg, acts); i < |s.workers| && AboutToRun(s.workers[i]).Some?
    ensures var s := After(rules, cfg, acts);
            var c := AboutToRun(s.workers[i]).value;
            && c < |s.cos| && Runnable(s.cos[c])
            && !Queued(s.sh.tasks, c)
            && forall j :: 0 <= j < |s.workers| && j != i ==> !Holds(s.workers[j], c)
  {
    var s := After(rules, cfg, acts);
    RunIsExclusive(rules, cfg, acts);
    assert TidyWorker(s.workers[i], s.cos);
    var c := AboutToRun(s.workers[i]).value;
    assert Holds(s.workers[i], c);
    forall j | 0 <= j < |s.workers| && j != i ensures !Holds(s.workers[j], c) {
      if j < i {
        assert !Holds(s.workers[j], c);
      }
    }
  }

  /** Two workers in a slice run two different coroutines, and each is marked as executing. */
  lemma SlicesAreDisjoint(rules: Rules, cfg: Config, acts: seq<Action>, i: nat, j: nat)
    requires IsRun(rules, cfg, acts) && !rules.wild
    requires var s := After(rules, cfg, acts);
             i < j < |s.workers| && s.workers[i].pc.Slice? && s.workers[j].pc.Slice?
    ensures var s := After(rules, cfg, acts);
            var c, d := SliceCo(s.workers[i]), SliceCo(s.workers[j]);
            c != d && c < |s.cos| && d < |s.cos| && s.cos[c].Exec? && s.cos[d].Exec?
  {
    var s := After(rules, cfg, acts);
    RunIsExclusive(rules, cfg, acts);
    RunIsShaped(rules, cfg, acts);
    assert TidyWorker(s.workers[i], s.cos) && TidyWorker(s.workers[j], s.cos);
    assert ShapedWorker(s, i) && ShapedWorker(s, j);
    assert Holds(s.workers[i], SliceCo(s.workers[i])) && Holds(s.workers[j], SliceCo(s.workers[j]));
  }

  // ------------------------------------------------------------------
  // Why the wrapper must count as possession

  /** A callback ran on the only worker; its wrapper is reset and looks ready to run.
      Someone who kept a reference to that wrapper submits it: it is runnable, on no
      list and in no hand, and yet it is then on the list and about to be recycled. */
  lemma SpentWrapperIsNotAtRest() returns (s: State)
    ensures Reached(LATE, Config(1, false), s)
    ensures |s.cos| == 1 && Runnable(s.cos[0]) && !Queued(s.sh.tasks, 0)
    ensures forall i :: 0 <= i < |s.workers| ==> !InHand(s.workers[i], 0)
    ensures !Exclusive(AfterCo(s, Task(ANY_THREAD, Routine(0))))
  {
    var cfg := Config(1, false);
    StartIsReached(LATE, cfg);
    var s0 := Start(cfg);
    Step(LATE, cfg, s0, Submit(LATE_TASK));
    s := RunLateTask(cfg, AfterCo(s0, LATE_TASK), 0);
    var s' := AfterCo(s, Task(ANY_THREAD, Routine(0)));
    assert s'.sh.tasks[0].job == Routine(0);
    assert Queued(s'.sh.tasks, 0) && Holds(s'.workers[0], 0);
  }
}
