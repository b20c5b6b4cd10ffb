/** Continuations of a run in which the scheduler serves one worker only: it is brought
    to its next scan, and where it finds nothing it goes round and finds nothing again. */
module Walks {
  import opened Base
  import opened TaskQueue
  import opened CoroutineStates
  import opened Protocol
  import opened WorkerShape
  import opened Shutdown
  import opened Progress

  predicate AllMoves(more: seq<Action>) {
    forall k :: 0 <= k < |more| ==> IsMove(more[k])
  }

  lemma {:induction false} AllMovesCount(more: seq<Action>)
    requires AllMoves(more)
    ensures Moves(more) == |more|
  {
    if more != [] {
      AllMovesCount(more[..|more| - 1]);
    }
  }

  /** The worker has left, or is on its way out and will not scan the list again. */
  predicate Over(w: Worker) {
    w.pc.Exited? || (w.idleDone && (w.pc.Notifying? || w.pc.Dispatch?) && w.hand.None?)
  }

  /** The worker will scan the list again, unless it is first to submit its own coroutine undisturbed. */
  predicate Free(s: State, i: nat)
    requires i < |s.workers|
  {
    !Over(s.workers[i]) && !Requeues(s, i)
  }

  /** One move towards the next scan of worker `i`, by the worker, by Stop that has yet to
      swap it in, or by another worker that runs its coroutine. */
  lemma TowardsScan(rules: Rules, s: State, i: nat) returns (a: Action)
    requires Shaped(s) && s.sh.tasks != [] && i < |s.workers| && Free(s, i) && !s.workers[i].pc.Scan?
    ensures CanStep(rules, s, a) && IsMove(a)
    ensures var s' := Apply(s, a);
            && s'.taken == s.taken && s'.submitted == s.submitted && s'.sh.tasks == s.sh.tasks
            && Effort(s') < Effort(s) && Free(s', i) && s'.workers[i].idleDone == s.workers[i].idleDone
  {
    var w, c := s.workers[i], SliceCo(s.workers[i]);
    assert ShapedWorker(s, i);
    if w.pc.Settle? && Submits(s, Work(i)) {
      var j :| 0 <= j < |s.workers| && j != i && Touches(s.workers[j], c);
      a := SpoilerMoves(rules, s, i, j);
    } else {
      a := if w.pc.Dormant? then StopStep
           else if w.pc.Slice? then EndSlice(i, Hold)
           else if w.pc.Poll? then EventWake(i)
           else Work(i);
      StaysFree(s, a, i);
      hide Free, Effort, Apply;
      if a.Work? {
        WorkFalls(s, i);
        NothingVanishes(s, i);
      } else {
        OtherMoveFalls(s, a);
      }
    }
  }

  /** A worker's own next move leaves it free, when it submits nothing. */
  lemma StaysFree(s: State, a: Action, i: nat)
    requires Shaped(s) && s.sh.tasks != [] && i < |s.workers| && Free(s, i) && !s.workers[i].pc.Scan?
    requires Enabled(s, a) && !Submits(s, a)
    requires if s.workers[i].pc.Dormant? then a == StopStep
             else if s.workers[i].pc.Slice? then a == EndSlice(i, Hold)
             else if s.workers[i].pc.Poll? then a == EventWake(i)
             else a == Work(i)
    ensures Free(Apply(s, a), i) && Apply(s, a).workers[i].idleDone == s.workers[i].idleDone
  {
    assert ShapedWorker(s, i);
    var w' := Apply(s, a).workers[i];
    assert !w'.pc.Settle? || a.EndSlice?;
  }

  /** Another worker goes on with the coroutine that worker `i` was about to submit again. */
  lemma SpoilerMoves(rules: Rules, s: State, i: nat, j: nat) returns (a: Action)
    requires Shaped(s) && s.sh.tasks != [] && i < |s.workers| && j < |s.workers| && i != j
    requires Free(s, i) && Submits(s, Work(i)) && Touches(s.workers[j], SliceCo(s.workers[i]))
    ensures CanStep(rules, s, a) && IsMove(a)
    ensures var s' := Apply(s, a);
            && s'.taken == s.taken && s'.submitted == s.submitted && s'.sh.tasks == s.sh.tasks
            && Effort(s') < Effort(s) && Free(s', i) && s'.workers[i].idleDone == s.workers[i].idleDone
  {
    assert ShapedWorker(s, j);
    if s.workers[j].pc.Slice? {
      a := EndSlice(j, Hold);
      OtherMoveFalls(s, a);
    } else {
      a := Work(j);
      WorkFalls(s, j);
      NothingVanishes(s, j);
      assert Touches(Apply(s, a).workers[j], SliceCo(s.workers[i]));
    }
  }

  /** `more` leads from the run `acts` to `s'` by moves of the scheduler alone. */
  predicate LeadsTo(rules: Rules, cfg: Config, acts: seq<Action>, more: seq<Action>, s': State) {
    AllMoves(more) && IsRun(rules, cfg, acts + more) && After(rules, cfg, acts + more) == s'
  }

  lemma OneMove(rules: Rules, cfg: Config, acts: seq<Action>, a: Action)
    requires IsRun(rules, cfg, acts) && CanStep(rules, After(rules, cfg, acts), a) && IsMove(a)
    ensures LeadsTo(rules, cfg, acts, [a], Apply(After(rules, cfg, acts), a))
  {
    Extend(rules, cfg, acts, a);
  }

  lemma Then(rules: Rules, cfg: Config, acts: seq<Action>, one: seq<Action>, two: seq<Action>, s': State)
    requires IsRun(rules, cfg, acts + one) && AllMoves(one)
    requires LeadsTo(rules, cfg, acts + one, two, s')
    ensures LeadsTo(rules, cfg, acts, one + two, s')
  {
    MoveBracket(acts, one, two);
  }

  /** Brings worker `i` to its next scan; nothing is taken or submitted on the way. */
  lemma {:induction false} ReachScan(rules: Rules, cfg: Config, acts: seq<Action>, i: nat)
    returns (more: seq<Action>, s': State)
    requires IsRun(rules, cfg, acts)
    requires var s := After(rules, cfg, acts); s.sh.tasks != [] && i < |s.workers| && Free(s, i)
    ensures LeadsTo(rules, cfg, acts, more, s')
    ensures var s := After(rules, cfg, acts);
            && s'.taken == s.taken && s'.submitted == s.submitted
            && s'.sh.tasks == s.sh.tasks && |s'.workers| == |s.workers|
            && Free(s', i) && s'.workers[i].pc.Scan? && s'.workers[i].hand.None?
            && s'.workers[i].idleDone == s.workers[i].idleDone
    decreases Effort(After(rules, cfg, acts))
  {
    var s := After(rules, cfg, acts);
    RunIsShaped(rules, cfg, acts);
    assert ShapedWorker(s, i);
    if s.workers[i].pc.Scan? {
      more, s' := [], s;
      assert acts + more == acts;
    } else {
      var a := TowardsScan(rules, s, i);
      OneMove(rules, cfg, acts, a);
      hide Free, Effort, Apply;
      var rest;
      rest, s' := ReachScan(rules, cfg, acts + [a], i);
      Then(rules, cfg, acts, [a], rest, s');
      more := [a] + rest;
      RunIsShaped(rules, cfg, acts + more);
    }
  }

  /** A worker that will scan again can be made free, with one re-queue at most. */
  lemma FreeSoon(rules: Rules, cfg: Config, acts: seq<Action>, i: nat) returns (one: seq<Action>, s1: State)
    requires rules.again && IsRun(rules, cfg, acts)
    requires var s := After(rules, cfg, acts); i < |s.workers| && !Over(s.workers[i])
    ensures LeadsTo(rules, cfg, acts, one, s1)
    ensures var s := After(rules, cfg, acts);
            && |s1.workers| == |s.workers| && Free(s1, i) && s1.workers[i].idleDone == s.workers[i].idleDone
            && s.sh.tasks <= s1.sh.tasks && s1.taken == s.taken && s1.sh.stopped == s.sh.stopped
            && |s.submitted| <= |s1.submitted| <= |s.submitted| + 1
  {
    var s := After(rules, cfg, acts);
    RunIsShaped(rules, cfg, acts);
    assert ShapedWorker(s, i);
    if Submits(s, Work(i)) {
      one, s1 := [Work(i)], WorkStep(s, i);
      OneMove(rules, cfg, acts, Work(i));
    } else {
      one, s1 := [], s;
      assert acts + one == acts;
    }
  }

  // ------------------------------------------------------------------
  // Going round

  /** `n` steps of worker `i`. */
  function Steps(i: nat, n: nat): (acts: seq<Action>)
    ensures |acts| == n && AllMoves(acts)
  {
    if n == 0 then [] else Steps(i, n - 1) + [Work(i)]
  }

  /** A scan that finds nothing, the wake-up passed on, and back from epoll_wait with it. */
  function Lap(i: nat): seq<Action> {
    Steps(i, 6)
  }

  /** Worker `i` is about to scan a list that has only tasks of others. */
  predicate Hopeless(s: State, i: nat) {
    && i < |s.workers| && s.sh.tasks != [] && !MayRunSome(s.sh.tasks, i + 1)
    && s.workers[i].pc.Scan? && s.workers[i].hand.None? && !s.workers[i].idleDone
  }

  /** Six steps, after which the scheduler is exactly where it was. */
  lemma LapReturns(s: State, i: nat)
    requires Hopeless(s, i)
    ensures var s1 := WorkStep(s, i);
            var s2 := WorkStep(s1, i);
            var s3 := WorkStep(s2, i);
            var s4 := WorkStep(s3, i);
            var s5 := WorkStep(s4, i);
            && Enabled(s, Work(i)) && Enabled(s1, Work(i)) && Enabled(s2, Work(i))
            && Enabled(s3, Work(i)) && Enabled(s4, Work(i)) && Enabled(s5, Work(i))
            && !s5.workers[i].pc.Settle? && !s4.workers[i].pc.Settle? && !s3.workers[i].pc.Settle?
            && !s2.workers[i].pc.Settle? && !s1.workers[i].pc.Settle? && !s.workers[i].pc.Settle?
            && WorkStep(s5, i) == s
  {
    var w := s.workers[i];
    FindsExactlyWhen(s.sh.tasks, i + 1);
    var s1 := WorkStep(s, i);
    assert s1.workers[i] == w.(pc := Notifying);
    var s2 := WorkStep(s1, i);
    assert s2.workers[i] == w.(pc := Dispatch);
    var s3 := WorkStep(s2, i);
    assert s3.workers[i] == w.(pc := IdleCheck);
    var s4 := WorkStep(s3, i);
    assert s4.workers[i] == w.(pc := Poll) && s4.sh == s.sh.(counter := s.sh.counter + 1);
    var s5 := WorkStep(s4, i);
    var s6 := WorkStep(s5, i);
    assert s6.sh == s.sh && s6.workers == s.workers;
  }

  /** A run of moves goes on with one step of a worker. */
  lemma GoesOn(rules: Rules, cfg: Config, acts: seq<Action>, n: nat, s: State, i: nat)
    requires LeadsTo(rules, cfg, acts, Steps(i, n), s)
    requires Enabled(s, Work(i)) && !s.workers[i].pc.Settle?
    ensures LeadsTo(rules, cfg, acts, Steps(i, n + 1), WorkStep(s, i))
  {
    OneMove(rules, cfg, acts + Steps(i, n), Work(i));
    Then(rules, cfg, acts, Steps(i, n), [Work(i)], WorkStep(s, i));
  }

  lemma LapIsRun(rules: Rules, cfg: Config, acts: seq<Action>, i: nat)
    requires IsRun(rules, cfg, acts) && Hopeless(After(rules, cfg, acts), i)
    ensures LeadsTo(rules, cfg, acts, Lap(i), After(rules, cfg, acts))
  {
    var s := After(rules, cfg, acts);
    LapReturns(s, i);
    var s1 := WorkStep(s, i);
    var s2 := WorkStep(s1, i);
    var s3 := WorkStep(s2, i);
    var s4 := WorkStep(s3, i);
    var s5 := WorkStep(s4, i);
    assert acts + Steps(i, 0) == acts;
    assert LeadsTo(rules, cfg, acts, Steps(i, 0), s);
    hide WorkStep, Enabled, LeadsTo, Steps;
    GoesOn(rules, cfg, acts, 0, s, i);
    GoesOn(rules, cfg, acts, 1, s1, i);
    GoesOn(rules, cfg, acts, 2, s2, i);
    GoesOn(rules, cfg, acts, 3, s3, i);
    GoesOn(rules, cfg, acts, 4, s4, i);
    GoesOn(rules, cfg, acts, 5, s5, i);
  }

  /** As many laps as anyone likes. */
  lemma {:induction false} GoRound(rules: Rules, cfg: Config, acts: seq<Action>, i: nat, laps: nat)
    returns (more: seq<Action>)
    requires IsRun(rules, cfg, acts) && Hopeless(After(rules, cfg, acts), i)
    ensures LeadsTo(rules, cfg, acts, more, After(rules, cfg, acts)) && |more| == 6 * laps
    decreases laps
  {
    hide Hopeless;
    if laps == 0 {
      more := [];
      assert acts + more == acts;
    } else {
      LapIsRun(rules, cfg, acts, i);
      var rest := GoRound(rules, cfg, acts + Lap(i), i, laps - 1);
      Then(rules, cfg, acts, Lap(i), rest, After(rules, cfg, acts));
      more := Lap(i) + rest;
    }
  }

  /** From anywhere, a worker that can have no task goes on without taking one as long as anyone likes. */
  lemma NothingTaken(rules: Rules, cfg: Config, acts: seq<Action>, i: nat, bound: nat)
    returns (more: seq<Action>)
    requires IsRun(rules, cfg, acts)
    requires var s := After(rules, cfg, acts); s.sh.tasks != [] && i < |s.workers| && !Able(s, i)
    ensures AllMoves(more) && |more| > bound && IsRun(rules, cfg, acts + more)
    ensures After(rules, cfg, acts + more).taken == After(rules, cfg, acts).taken
    ensures After(rules, cfg, acts + more).submitted == After(rules, cfg, acts).submitted
  {
    var one, s' := ReachScan(rules, cfg, acts, i);
    var two := GoRound(rules, cfg, acts + one, i, bound + 1);
    Then(rules, cfg, acts, one, two, s');
    more := one + two;
  }

  /** Worker `i` alone takes every task it may run; a task it may not run stays, and none of
      its kind is taken. */
  lemma {:induction false} DrainsAlone(rules: Rules, cfg: Config, acts: seq<Action>, i: nat, k: nat, bound: nat)
    returns (more: seq<Action>)
    requires IsRun(rules, cfg, acts)
    requires var s := After(rules, cfg, acts);
             && i < |s.workers| && Free(s, i) && !s.workers[i].idleDone
             && k < |s.sh.tasks| && !MayRun(s.sh.tasks[k], i + 1)
    ensures AllMoves(more) && |more| > bound && IsRun(rules, cfg, acts + more)
    ensures var s, s' := After(rules, cfg, acts), After(rules, cfg, acts + more);
            && s'.submitted == s.submitted
            && OfTarget(s'.taken, s.sh.tasks[k].target) == OfTarget(s.taken, s.sh.tasks[k].target)
    decreases |After(rules, cfg, acts).sh.tasks|
  {
    var s := After(rules, cfg, acts);
    if !MayRunSome(s.sh.tasks, i + 1) {
      more := NothingTaken(rules, cfg, acts, i, bound);
    } else {
      var one, s1 := ReachScan(rules, cfg, acts, i);
      var two := acts + one;
      OneMove(rules, cfg, two, Work(i));
      var k' := ScanLeaves(s1, i, k);
      hide IsRun, After, Free, MayRun, WorkStep, Enabled, OfTarget;
      var rest := DrainsAlone(rules, cfg, two + [Work(i)], i, k', bound);
      var s' := After(rules, cfg, two + [Work(i)] + rest);
      Then(rules, cfg, two, [Work(i)], rest, s');
      Then(rules, cfg, acts, one, [Work(i)] + rest, s');
      more := one + ([Work(i)] + rest);
    }
  }

  /** A scan takes one task, and the one that is not for this worker stays. */
  lemma ScanLeaves(s: State, i: nat, k: nat) returns (k': nat)
    requires i < |s.workers| && s.workers[i].pc.Scan? && s.workers[i].hand.None? && Free(s, i)
    requires k < |s.sh.tasks| && !MayRun(s.sh.tasks[k], i + 1) && MayRunSome(s.sh.tasks, i + 1)
    ensures var s' := WorkStep(s, i);
            && |s'.workers| == |s.workers| && Free(s', i) && |s'.sh.tasks| < |s.sh.tasks|
            && s'.workers[i].idleDone == s.workers[i].idleDone
            && k' < |s'.sh.tasks| && s'.sh.tasks[k'] == s.sh.tasks[k] && s'.submitted == s.submitted
            && OfTarget(s'.taken, s.sh.tasks[k].target) == OfTarget(s.taken, s.sh.tasks[k].target)
  {
    FindsExactlyWhen(s.sh.tasks, i + 1);
    var at := FirstFor(s.sh.tasks, i + 1);
    k' := if k < at then k else k - 1;
    assert WorkStep(s, i).sh.tasks[k'] == s.sh.tasks[k];
    OfTargetConcat(s.taken, [s.sh.tasks[at]], s.sh.tasks[k].target);
  }
}
