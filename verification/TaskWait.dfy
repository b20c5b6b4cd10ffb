/** How long one task waits. The exact condition under which this very task is taken after a
    bounded number of moves: one that any thread may run always is, one bound to a thread
    exactly when all other workers have left or are leaving. */
module TaskWait {
  import opened Base
  import opened TaskQueue
  import opened Protocol
  import opened WorkerShape
  import opened Shutdown
  import opened TaskHistory
  import opened Draining
  import opened Progress
  import opened Walks
  import opened Waiting

  /** The number of the task at position `p`, among all tasks of its target ever submitted. */
  function NumberOf(s: State, p: nat): nat
    requires p < |s.sh.tasks|
  {
    var target := s.sh.tasks[p].target;
    |OfTarget(s.taken, target)| + |OfTarget(s.sh.tasks[..p], target)|
  }

  /** Every worker that will scan the list again may run tasks of this target. */
  predicate OnlyServed(s: State, target: ThreadId) {
    forall i :: 0 <= i < |s.workers| ==> Over(s.workers[i]) || target == ANY_THREAD || target == i + 1
  }

  /** Task number `q` of this target waits at position `p`, for workers that may run it. */
  predicate WaitsAt(s: State, target: ThreadId, q: nat, p: nat) {
    && p < |s.sh.tasks| && s.sh.tasks[p].target == target && NumberOf(s, p) == q
    && OnlyServed(s, target)
  }

  predicate WasTaken(s: State, target: ThreadId, q: nat) {
    |OfTarget(s.taken, target)| > q
  }

  lemma AllAbleForIt(s: State, target: ThreadId, q: nat, p: nat)
    requires WaitsAt(s, target, q, p)
    ensures AllAble(s)
  {
    forall i | 0 <= i < |s.workers| ensures Able(s, i) {
      if !Over(s.workers[i]) {
        assert MayRun(s.sh.tasks[p], i + 1);
      }
    }
  }

  lemma StillOnlyServed(s: State, a: Action, target: ThreadId)
    requires Enabled(s, a) && Shaped(s) && OnlyServed(s, target)
    ensures OnlyServed(Apply(s, a), target)
  {
    var s' := Apply(s, a);
    if a.StopStep? && s.stop.MainSwap? {
      assert ShapedWorker(s, s.pool);
    }
    forall i | 0 <= i < |s'.workers| ensures Over(s'.workers[i]) || target == ANY_THREAD || target == i + 1 {
      assert Over(s.workers[i]) || target == ANY_THREAD || target == i + 1;
    }
  }

  /** Taking the task at `at` leaves the one behind it with the same number, one position further on. */
  lemma OneBefore(tasks: seq<Task>, taken: seq<Task>, at: nat, p: nat)
    requires at < p < |tasks|
    ensures var rest, target := tasks[..at] + tasks[at + 1..], tasks[p].target;
            && rest[p - 1] == tasks[p]
            && |OfTarget(taken + [tasks[at]], target)| + |OfTarget(rest[..p - 1], target)|
               == |OfTarget(taken, target)| + |OfTarget(tasks[..p], target)|
  {
    var t, target := tasks[at], tasks[p].target;
    var pre, mid := tasks[..at], tasks[at + 1..p];
    assert tasks[..p] == pre + ([t] + mid);
    assert (tasks[..at] + tasks[at + 1..])[..p - 1] == pre + mid;
    hide OfTarget;
    OfTargetConcat(taken, [t], target);
    OfTargetConcat(pre, [t] + mid, target);
    OfTargetConcat([t], mid, target);
    OfTargetConcat(pre, mid, target);
  }

  /** Taking the task itself raises the number of those taken past its own. */
  lemma ItsTurn(tasks: seq<Task>, taken: seq<Task>, me: ThreadId)
    requires var p := FirstFor(tasks, me);
             p < |tasks| && (tasks[p].target == ANY_THREAD || tasks[p].target == me)
    ensures var p := FirstFor(tasks, me);
            var target := tasks[p].target;
            |OfTarget(taken + [tasks[p]], target)| > |OfTarget(taken, target)| + |OfTarget(tasks[..p], target)|
  {
    var p := FirstFor(tasks, me);
    var target := tasks[p].target;
    forall k | 0 <= k < p ensures tasks[..p][k].target != target {
      assert !MayRun(tasks[k], me);
    }
    OfTargetNone(tasks[..p], target);
    OfTargetConcat(taken, [tasks[p]], target);
  }

  /** Every scan takes the task that waits or one before it. */
  lemma ScanBringsForward(s: State, i: nat, target: ThreadId, q: nat, p: nat)
    requires i < |s.workers| && s.workers[i].pc.Scan? && WaitsAt(s, target, q, p)
    requires OnlyServed(ScanStep(s, i), target)
    ensures var s' := ScanStep(s, i);
            WasTaken(s', target, q) || (p > 0 && WaitsAt(s', target, q, p - 1))
  {
    var tasks, at := s.sh.tasks, FirstFor(s.sh.tasks, i + 1);
    assert at <= p by {
      assert MayRun(tasks[p], i + 1);
    }
    var s' := ScanStep(s, i);
    assert s'.sh.tasks == tasks[..at] + tasks[at + 1..] && s'.taken == s.taken + [tasks[at]];
    hide OnlyServed, OfTarget, ScanStep, FirstFor;
    if at == p {
      ItsTurn(tasks, s.taken, i + 1);
    } else {
      OneBefore(tasks, s.taken, at, p);
    }
  }

  /** Moves left, at most, until the task at position `p` is taken. */
  function Wait(s: State, p: nat): nat {
    p * (12 * |s.workers| + 7) + Effort(s)
  }

  lemma OneTakeLess(s: State, s': State, p: nat)
    requires p > 0 && |s'.workers| == |s.workers|
    ensures Wait(s', p - 1) < Wait(s, p)
  {
    assert p * (12 * |s.workers| + 7) == (p - 1) * (12 * |s.workers| + 7) + 12 * |s.workers| + 7;
  }

  lemma SamePosition(s: State, s': State, p: nat)
    requires |s'.workers| == |s.workers|
    ensures Wait(s', p) - Wait(s, p) == Effort(s') - Effort(s)
  {
  }

  lemma StepBringsForward(s: State, a: Action, target: ThreadId, q: nat, p: nat) returns (p': nat)
    requires Enabled(s, a) && Shaped(s) && WaitsAt(s, target, q, p)
    ensures var s' := Apply(s, a);
            || WasTaken(s', target, q)
            || (WaitsAt(s', target, q, p') && |s'.workers| == |s.workers|
                && Wait(s', p') + (if IsMove(a) then 1 else 0) <= Wait(s, p))
  {
    var s' := Apply(s, a);
    p' := p;
    StillOnlyServed(s, a, target);
    hide Wait, Effort, Shaped, OnlyServed;
    if a.Work? && s.workers[a.i].pc.Scan? {
      ScanBringsForward(s, a.i, target, q, p);
      if !WasTaken(s', target, q) {
        p' := p - 1;
        OneTakeLess(s, s', p);
      }
    } else {
      AllAbleForIt(s, target, q, p);
      StepTakesOrFalls(s, a);
      TasksStay(s, a);
      assert s'.sh.tasks[..p] == s.sh.tasks[..p];
      SamePosition(s, s', p);
    }
  }

  lemma TasksStay(s: State, a: Action)
    requires Enabled(s, a) && !(a.Work? && s.workers[a.i].pc.Scan?)
    ensures s.sh.tasks <= Apply(s, a).sh.tasks && Apply(s, a).taken == s.taken
    ensures |Apply(s, a).workers| == |s.workers|
  {
  }

  lemma {:induction false} RunBringsForward(rules: Rules, cfg: Config, acts: seq<Action>, more: seq<Action>,
                                            target: ThreadId, q: nat, p: nat) returns (p': nat)
    requires IsRun(rules, cfg, acts) && IsRun(rules, cfg, acts + more)
    requires WaitsAt(After(rules, cfg, acts), target, q, p)
    ensures var s, s' := After(rules, cfg, acts), After(rules, cfg, acts + more);
            && s.submitted <= s'.submitted
            && (WasTaken(s', target, q)
                || (WaitsAt(s', target, q, p') && |s'.workers| == |s.workers|
                    && Wait(s', p') + Moves(more) <= Wait(s, p)))
    decreases |more|
  {
    hide Apply, Wait, Enabled, WaitsAt, WasTaken, Shaped;
    if more == [] {
      assert acts + more == acts;
      p' := p;
    } else {
      var before, a := more[..|more| - 1], more[|more| - 1];
      assert (acts + more)[..|acts + more| - 1] == acts + before;
      p' := RunBringsForward(rules, cfg, acts, before, target, q, p);
      var s1 := After(rules, cfg, acts + before);
      StepTakesAtMostOne(s1, a);
      if WasTaken(s1, target, q) {
        StaysTaken(s1, a, target, q);
      } else {
        RunIsShaped(rules, cfg, acts + before);
        p' := StepBringsForward(s1, a, target, q, p');
      }
    }
  }

  lemma StaysTaken(s: State, a: Action, target: ThreadId, q: nat)
    requires Enabled(s, a) && WasTaken(s, target, q)
    ensures WasTaken(Apply(s, a), target, q)
  {
    var s' := Apply(s, a);
    if s'.taken != s.taken {
      OfTargetConcat(s.taken, [s'.taken[|s.taken|]], target);
      assert s'.taken == s.taken + [s'.taken[|s.taken|]];
    }
  }

  /** `t` is number `q` of the tasks of its target. */
  predicate IsNumber(tasks: seq<Task>, q: nat, t: Task) {
    var kind := OfTarget(tasks, t.target);
    q < |kind| && kind[q] == t
  }

  /** The task keeps its number. */
  lemma SameNumber(s: State, s': State, target: ThreadId, q: nat, p: nat)
    requires WaitsAt(s, target, q, p) && WasTaken(s', target, q) && s.submitted <= s'.submitted
    requires InOrder(s, target) && InOrder(s', target)
    ensures IsNumber(s.submitted, q, s.sh.tasks[p]) && IsNumber(s'.taken, q, s.sh.tasks[p])
  {
    var tasks := s.sh.tasks;
    assert tasks == tasks[..p] + ([tasks[p]] + tasks[p + 1..]);
    OfTargetConcat(tasks[..p], [tasks[p]] + tasks[p + 1..], target);
    OfTargetConcat([tasks[p]], tasks[p + 1..], target);
    assert OfTarget(s.submitted, target)[q] == tasks[p];
    var more := s'.submitted[|s.submitted|..];
    assert s'.submitted == s.submitted + more;
    OfTargetConcat(s.submitted, more, target);
    var all := OfTarget(s'.submitted, target);
    var before, after := OfTarget(s.submitted, target), OfTarget(s'.taken, target);
    assert before <= all && after <= all;
    assert before[q] == all[q] == after[q];
  }

  function WaitBound(workers: nat, p: nat): nat {
    (p + 1) * (12 * workers + 7)
  }

  lemma WaitIsBounded(s: State, p: nat)
    ensures Wait(s, p) < WaitBound(|s.workers|, p)
  {
  }

  /** After the run `acts`, in every continuation with `bound` moves the task at position `p` is taken. */
  ghost predicate WaitIsAtMost(rules: Rules, cfg: Config, acts: seq<Action>, p: nat, bound: nat)
    requires IsRun(rules, cfg, acts) && p < |After(rules, cfg, acts).sh.tasks|
  {
    forall more :: IsRun(rules, cfg, acts + more) && Moves(more) >= bound ==>
                     ItWasTaken(After(rules, cfg, acts), After(rules, cfg, acts + more), p)
  }

  /** The number of the task says that it is this very one that was taken. */
  predicate ItWasTaken(s: State, s': State, p: nat)
    requires p < |s.sh.tasks|
  {
    && IsNumber(s.submitted, NumberOf(s, p), s.sh.tasks[p])
    && IsNumber(s'.taken, NumberOf(s, p), s.sh.tasks[p])
  }

  /** While every worker that will scan again may run it, the task is taken within these moves, in
      any run, whatever else is queued or submitted. */
  lemma TaskIsTaken(rules: Rules, cfg: Config, acts: seq<Action>, more: seq<Action>, p: nat)
    requires IsRun(rules, cfg, acts) && IsRun(rules, cfg, acts + more)
    requires var s := After(rules, cfg, acts);
             && p < |s.sh.tasks| && OnlyServed(s, s.sh.tasks[p].target)
             && Moves(more) >= WaitBound(|s.workers|, p)
    ensures ItWasTaken(After(rules, cfg, acts), After(rules, cfg, acts + more), p)
  {
    hide IsRun, After, Wait, WaitBound, IsNumber, InOrder, Moves, RightThreads, NumberOf, OnlyServed;
    var s, s' := After(rules, cfg, acts), After(rules, cfg, acts + more);
    var target := s.sh.tasks[p].target;
    var p' := RunBringsForward(rules, cfg, acts, more, target, NumberOf(s, p), p);
    WaitIsBounded(s, p);
    TakenInOrderByTheRightThread(rules, cfg, acts, target);
    TakenInOrderByTheRightThread(rules, cfg, acts + more, target);
    SameNumber(s, s', target, NumberOf(s, p), p);
  }

  // ------------------------------------------------------------------
  // Otherwise there is no bound

  const FILLER := Task(ANY_THREAD, Callback(0))

  /** A worker at its scan is given something else to take, and takes it or a task before it. */
  lemma Fed(rules: Rules, s: State, i: nat, k: nat) returns (k': nat)
    requires rules.late && i < |s.workers| && Free(s, i) && s.workers[i].pc.Scan? && s.workers[i].hand.None?
    requires k < |s.sh.tasks| && !MayRun(s.sh.tasks[k], i + 1)
    ensures CanStep(rules, s, Submit(FILLER)) && CanStep(rules, Apply(s, Submit(FILLER)), Work(i))
    ensures var s' := Apply(Apply(s, Submit(FILLER)), Work(i));
            && |s'.workers| == |s.workers| && Free(s', i)
            && k' < |s'.sh.tasks| && s'.sh.tasks[k'] == s.sh.tasks[k]
            && OfTarget(s'.taken, s.sh.tasks[k].target) == OfTarget(s.taken, s.sh.tasks[k].target)
  {
    AnyoneMayRun(s.sh.tasks, FILLER, i + 1);
    FillerIsNoObstacle(s, i, k);
    k' := ScanLeaves(Apply(s, Submit(FILLER)), i, k);
  }

  /** The same in a run. */
  lemma FedOnce(rules: Rules, cfg: Config, acts: seq<Action>, i: nat, k: nat) returns (one: seq<Action>, k': nat)
    requires rules.late && IsRun(rules, cfg, acts)
    requires var s := After(rules, cfg, acts);
             && i < |s.workers| && Free(s, i)
             && k < |s.sh.tasks| && !MayRun(s.sh.tasks[k], i + 1)
    ensures IsRun(rules, cfg, acts + one) && Moves(one) >= 1
    ensures var s, s' := After(rules, cfg, acts), After(rules, cfg, acts + one);
            && i < |s'.workers| && Free(s', i)
            && k' < |s'.sh.tasks| && s'.sh.tasks[k'] == s.sh.tasks[k]
            && OfTarget(s'.taken, s.sh.tasks[k].target) == OfTarget(s.taken, s.sh.tasks[k].target)
  {
    var first, s1 := ReachScan(rules, cfg, acts, i);
    var two := acts + first;
    hide IsRun, After, Free, Apply, CanStep, OfTarget, Moves, MayRun, Effort;
    k' := Fed(rules, s1, i, k);
    Extend(rules, cfg, two, Submit(FILLER));
    Extend(rules, cfg, two + [Submit(FILLER)], Work(i));
    var last := [Submit(FILLER)] + [Work(i)];
    assert two + [Submit(FILLER)] + [Work(i)] == two + last;
    MoveBracket(acts, first, last);
    one := first + last;
    MovesConcat(first, last);
    OneMoveHere(i);
  }

  /** And again each time. */
  lemma {:induction false} KeptBusy(rules: Rules, cfg: Config, acts: seq<Action>, i: nat, k: nat, n: nat)
    returns (more: seq<Action>)
    requires rules.late && IsRun(rules, cfg, acts)
    requires var s := After(rules, cfg, acts);
             && i < |s.workers| && Free(s, i)
             && k < |s.sh.tasks| && !MayRun(s.sh.tasks[k], i + 1)
    ensures IsRun(rules, cfg, acts + more) && Moves(more) >= n
    ensures var s, s' := After(rules, cfg, acts), After(rules, cfg, acts + more);
            OfTarget(s'.taken, s.sh.tasks[k].target) == OfTarget(s.taken, s.sh.tasks[k].target)
    decreases n
  {
    hide IsRun, After, Free, MayRun, OfTarget, Moves;
    if n == 0 {
      more := [];
      assert acts + more == acts;
    } else {
      var one, k' := FedOnce(rules, cfg, acts, i, k);
      var rest := KeptBusy(rules, cfg, acts + one, i, k', n - 1);
      MoveBracket(acts, one, rest);
      more := one + rest;
      MovesConcat(one, rest);
    }
  }

  lemma OneMoveHere(i: nat)
    ensures Moves([Submit(FILLER)] + [Work(i)]) == 1
  {
    var a, b := Submit(FILLER), Work(i);
    assert ([a] + [b])[..1] == [a] && [a][..0] == [];
    assert Moves([a]) == 0;
  }

  lemma FillerIsNoObstacle(s: State, i: nat, k: nat)
    requires i < |s.workers| && Free(s, i) && s.workers[i].pc.Scan? && k < |s.sh.tasks|
    ensures var s' := Apply(s, Submit(FILLER));
            && Free(s', i) && s'.sh.tasks[k] == s.sh.tasks[k] && s'.taken == s.taken && s'.workers == s.workers
  {
  }

  /** A worker that will scan again and may not run the task can keep it waiting. */
  lemma NoBound(rules: Rules, cfg: Config, acts: seq<Action>, p: nat, i: nat, bound: nat) returns (more: seq<Action>)
    requires rules.again && IsRun(rules, cfg, acts)
    requires var s := After(rules, cfg, acts);
             && p < |s.sh.tasks| && i < |s.workers| && !Over(s.workers[i]) && !MayRun(s.sh.tasks[p], i + 1)
    ensures IsRun(rules, cfg, acts + more) && Moves(more) >= bound
    ensures !ItWasTaken(After(rules, cfg, acts), After(rules, cfg, acts + more), p)
  {
    var s := After(rules, cfg, acts);
    if !rules.late {
      RunIsTended(rules, cfg, acts);
    }
    var one, s1 := FreeSoon(rules, cfg, acts, i);
    hide IsRun, After, Free, MayRun, OfTarget, Moves, IsMove, Over, AllUnbound, Tended;
    var rest;
    if s.workers[i].idleDone {
      assert rules.late by {
        NotTended(s, i, p);
      }
      rest := KeptBusy(rules, cfg, acts + one, i, p, bound);
    } else {
      rest := DrainsAlone(rules, cfg, acts + one, i, p, bound);
      AllMovesCount(rest);
    }
    MoveBracket(acts, one, rest);
    more := one + rest;
    MovesConcat(one, rest);
    StillWaits(s, After(rules, cfg, acts + more), p);
  }

  lemma NotTended(s: State, i: nat, p: nat)
    requires i < |s.workers| && s.workers[i].idleDone && p < |s.sh.tasks| && !MayRun(s.sh.tasks[p], i + 1)
    ensures !Tended(s)
  {
    assert s.sh.tasks[p].target != ANY_THREAD;
  }

  lemma StillWaits(s: State, s': State, p: nat)
    requires p < |s.sh.tasks| && OfTarget(s'.taken, s.sh.tasks[p].target) == OfTarget(s.taken, s.sh.tasks[p].target)
    ensures !ItWasTaken(s, s', p)
  {
  }

  /** The wait of a queued task is bounded, and then by a number of moves linear in its position and
      in the number of workers, exactly when every worker that will scan the list again may run it. */
  lemma WaitIsBoundedExactlyWhen(rules: Rules, cfg: Config, acts: seq<Action>, p: nat)
    requires rules.again && IsRun(rules, cfg, acts) && p < |After(rules, cfg, acts).sh.tasks|
    ensures var s := After(rules, cfg, acts);
            && (WaitIsAtMost(rules, cfg, acts, p, WaitBound(|s.workers|, p)) <==> OnlyServed(s, s.sh.tasks[p].target))
            && ((exists bound :: WaitIsAtMost(rules, cfg, acts, p, bound)) <==> OnlyServed(s, s.sh.tasks[p].target))
  {
    var s := After(rules, cfg, acts);
    hide IsRun, After, Over, WaitBound, ItWasTaken;
    if OnlyServed(s, s.sh.tasks[p].target) {
      forall more | IsRun(rules, cfg, acts + more) && Moves(more) >= WaitBound(|s.workers|, p)
        ensures ItWasTaken(s, After(rules, cfg, acts + more), p)
      {
        TaskIsTaken(rules, cfg, acts, more, p);
      }
    } else {
      var i :| 0 <= i < |s.workers| && !Over(s.workers[i]) && !MayRun(s.sh.tasks[p], i + 1);
      forall bound: nat ensures !WaitIsAtMost(rules, cfg, acts, p, bound) {
        var more := NoBound(rules, cfg, acts, p, i, bound);
      }
    }
  }
}
