/** What happens to submitted tasks over a whole run: none is lost or run twice,
    a task bound to a thread is taken by that thread only, and tasks of one
    target class are taken in the order they were submitted. */
module TaskHistory {
  import opened Base
  import opened TaskQueue
  import opened Protocol
  import opened WorkerShape

  function InHandOf(w: Worker, t: Task): nat {
    if w.hand == Some(t) then 1 else 0
  }

  /** How many workers hold task `t`. */
  function Hands(ws: seq<Worker>, t: Task): nat {
    if ws == [] then 0 else Hands(ws[..|ws| - 1], t) + InHandOf(ws[|ws| - 1], t)
  }

  lemma {:induction false} HandsUpdate(ws: seq<Worker>, i: nat, w: Worker, t: Task)
    requires i < |ws|
    ensures Hands(ws[i := w], t) == Hands(ws, t) - InHandOf(ws[i], t) + InHandOf(w, t)
  {
    var last := |ws| - 1;
    if i < last {
      HandsUpdate(ws[..last], i, w, t);
      assert ws[i := w][..last] == ws[..last][i := w];
    } else {
      assert ws[i := w][..last] == ws[..last];
    }
  }

  lemma {:induction false} NoHands(ws: seq<Worker>, t: Task)
    requires forall i :: 0 <= i < |ws| ==> ws[i].hand.None?
    ensures Hands(ws, t) == 0
  {
    if ws != [] {
      NoHands(ws[..|ws| - 1], t);
    }
  }

  // ------------------------------------------------------------------
  // Conservation: submitted = queued + taken, and taken = completed + in hand

  ghost predicate CountedOne(s: State, t: Task) {
    && multiset(s.submitted)[t] == multiset(s.sh.tasks)[t] + multiset(s.taken)[t]
    && multiset(s.taken)[t] == multiset(s.completed)[t] + Hands(s.workers, t)
  }

  ghost predicate Counted(s: State) {
    forall t :: CountedOne(s, t)
  }

  lemma ScanKeepsCounted(s: State, i: nat, t: Task)
    requires i < |s.workers| && s.workers[i].hand.None? && CountedOne(s, t)
    ensures CountedOne(ScanStep(s, i), t)
  {
    hide TaskQueue.Scan, MayRun;
    HandsUpdate(s.workers, i, ScanStep(s, i).workers[i], t);
    ScanIsFifo(s.sh.tasks, i + 1, ANY_THREAD);
  }

  lemma AppendCount(s: seq<Task>, u: Task, t: Task)
    ensures multiset(s + [u])[t] == multiset(s)[t] + (if u == t then 1 else 0)
  {
  }

  lemma SettleKeepsCounted(s: State, i: nat, t: Task)
    requires i < |s.workers| && s.workers[i].hand.Some? && CountedOne(s, t)
    ensures CountedOne(SettleStep(s, i), t)
  {
    hide SettleStep;
    var s' := SettleStep(s, i);
    var u := Task(ANY_THREAD, Routine(SliceCo(s.workers[i])));
    HandsUpdate(s.workers, i, s'.workers[i], t);
    AppendCount(s.completed, s.workers[i].hand.value, t);
    AppendCount(s.submitted, u, t);
    AppendCount(s.sh.tasks, u, t);
  }

  /** A worker that moves without putting down or picking up a task changes no count. */
  lemma MoveKeepsCounted(s: State, s': State, i: nat, w: Worker, t: Task)
    requires i < |s.workers| && w.hand == s.workers[i].hand && s'.workers == s.workers[i := w]
    requires s'.submitted == s.submitted && s'.taken == s.taken && s'.completed == s.completed
    requires s'.sh.tasks == s.sh.tasks && CountedOne(s, t)
    ensures CountedOne(s', t)
  {
    HandsUpdate(s.workers, i, w, t);
  }

  lemma StepKeepsCounted(s: State, a: Action, t: Task)
    requires Enabled(s, a) && CountedOne(s, t) && Shaped(s)
    ensures CountedOne(Apply(s, a), t)
  {
    var s' := Apply(s, a);
    match a
    case Work(i) =>
      assert ShapedWorker(s, i);
      if s.workers[i].pc.Scan? {
        ScanKeepsCounted(s, i, t);
      } else if s.workers[i].pc.Settle? {
        SettleKeepsCounted(s, i, t);
      } else {
        MoveKeepsCounted(s, s', i, s'.workers[i], t);
      }
    case EndSlice(i, _) => MoveKeepsCounted(s, s', i, s'.workers[i], t);
    case EventWake(i) => MoveKeepsCounted(s, s', i, s'.workers[i], t);
    case StopStep =>
      if s.stop.MainSwap? {
        MoveKeepsCounted(s, s', s.pool, s'.workers[s.pool], t);
      }
    case _ =>
  }

  lemma {:induction false} CountedInRun(rules: Rules, cfg: Config, acts: seq<Action>, t: Task)
    requires IsRun(rules, cfg, acts)
    ensures CountedOne(After(rules, cfg, acts), t)
  {
    if acts == [] {
      NoHands(Start(cfg).workers, t);
    } else {
      var before := acts[..|acts| - 1];
      CountedInRun(rules, cfg, before, t);
      RunIsShaped(rules, cfg, before);
      StepKeepsCounted(After(rules, cfg, before), acts[|acts| - 1], t);
    }
  }

  lemma NothingIsLost(rules: Rules, cfg: Config, acts: seq<Action>)
    requires IsRun(rules, cfg, acts)
    ensures Counted(After(rules, cfg, acts))
  {
    forall t ensures CountedOne(After(rules, cfg, acts), t) {
      CountedInRun(rules, cfg, acts, t);
    }
  }

  // ------------------------------------------------------------------
  // Order and pinning

  ghost predicate InOrder(s: State, target: ThreadId) {
    OfTarget(s.submitted, target) == OfTarget(s.taken, target) + OfTarget(s.sh.tasks, target)
  }

  lemma SubmitKeepsOrder(s: State, s': State, t: Task, target: ThreadId)
    requires InOrder(s, target) && s'.taken == s.taken
    requires s'.submitted == s.submitted + [t] && s'.sh.tasks == s.sh.tasks + [t]
    ensures InOrder(s', target)
  {
    OfTargetConcat(s.submitted, [t], target);
    OfTargetConcat(s.sh.tasks, [t], target);
  }

  lemma SettleKeepsOrder(s: State, i: nat, target: ThreadId)
    requires i < |s.workers| && InOrder(s, target)
    ensures InOrder(SettleStep(s, i), target)
  {
    var s' := SettleStep(s, i);
    if s'.submitted != s.submitted {
      SubmitKeepsOrder(s, s', Task(ANY_THREAD, Routine(SliceCo(s.workers[i]))), target);
    }
  }

  lemma ScanKeepsOrder(s: State, i: nat, target: ThreadId)
    requires i < |s.workers| && InOrder(s, target)
    ensures InOrder(ScanStep(s, i), target)
  {
    var r := TaskQueue.Scan(s.sh.tasks, i + 1);
    ScanIsFifo(s.sh.tasks, i + 1, target);
    if r.found.Some? {
      var got := [r.found.value];
      OfTargetConcat(s.taken, got, target);
      MoveBracket(OfTarget(s.taken, target), OfTarget(got, target), OfTarget(r.rest, target));
    }
  }

  lemma StepKeepsOrder(s: State, a: Action, target: ThreadId)
    requires Enabled(s, a) && InOrder(s, target)
    ensures InOrder(Apply(s, a), target)
  {
    match a
    case Submit(t) => SubmitKeepsOrder(s, Apply(s, a), t, target);
    case Work(i) =>
      if s.workers[i].pc.Scan? {
        ScanKeepsOrder(s, i, target);
      } else if s.workers[i].pc.Settle? {
        SettleKeepsOrder(s, i, target);
      }
    case _ =>
  }

  predicate RightThreads(s: State) {
    |s.takers| == |s.taken| && forall k :: 0 <= k < |s.taken| ==> MayRun(s.taken[k], s.takers[k])
  }

  lemma StepKeepsRightThreads(s: State, a: Action)
    requires Enabled(s, a) && RightThreads(s)
    ensures RightThreads(Apply(s, a))
  {
    if a.Work? {
      var s' := WorkStep(s, a.i);
      if s.workers[a.i].pc.Scan? {
        ScanIsFifo(s.sh.tasks, a.i + 1, ANY_THREAD);
        forall k | 0 <= k < |s'.taken| ensures MayRun(s'.taken[k], s'.takers[k]) {
          assert k < |s.taken| ==> MayRun(s.taken[k], s.takers[k]);
        }
      }
    }
  }

  /** Within one target class, what was taken so far is exactly the oldest part of
      what was submitted; and no task ran on a thread it is not bound to. */
  lemma {:induction false} TakenInOrderByTheRightThread(rules: Rules, cfg: Config, acts: seq<Action>, target: ThreadId)
    requires IsRun(rules, cfg, acts)
    ensures InOrder(After(rules, cfg, acts), target)
    ensures RightThreads(After(rules, cfg, acts))
  {
    if acts != [] {
      var before := acts[..|acts| - 1];
      var s, a := After(rules, cfg, before), acts[|acts| - 1];
      TakenInOrderByTheRightThread(rules, cfg, before, target);
      StepKeepsOrder(s, a, target);
      StepKeepsRightThreads(s, a);
    }
  }
}
