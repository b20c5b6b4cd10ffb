/** Shutting down comes to its end: the exact condition under which the workers and Stop make a
    bounded number of moves after Stop was called, not counting what ready coroutines ask for
    again, and that Stop has returned when none of them can move any more. */
module ShutdownEnd {
  import opened Base
  import opened TaskQueue
  import opened CoroutineStates
  import opened Protocol
  import opened WorkerShape
  import opened Shutdown
  import opened Draining
  import opened Progress
  import opened Walks

  /** What taking one task is worth: more than all the workers' ranks together. */
  function TaskWeight(tasks: nat, workers: nat): nat {
    if tasks == 0 then 0 else TaskWeight(tasks - 1, workers) + 12 * workers + 13
  }

  /** Moves left until Stop returns, at most. */
  function Distance(s: State): nat {
    TaskWeight(|s.sh.tasks|, |s.workers|) + Ranks(s.workers, s.sh.tasks != []) + StopRank(s.stop)
  }

  /** What a coroutine that yields to ready adds to that, with the move that submits it again. */
  function AgainCost(workers: nat): nat {
    24 * workers + 14
  }

  /** Worker `i` may run every queued task. */
  predicate RunsAll(s: State, i: nat) {
    forall k :: 0 <= k < |s.sh.tasks| ==> MayRun(s.sh.tasks[k], i + 1)
  }

  /** Every worker that has not left and is not on its way out may run every queued task. */
  predicate ServesAll(s: State) {
    forall i :: 0 <= i < |s.workers| ==> s.workers[i].idleDone || RunsAll(s, i)
  }

  // ------------------------------------------------------------------
  // Every move comes closer to the end, or submits a ready coroutine again

  lemma ScanGetsCloser(s: State, i: nat)
    requires Enabled(s, Work(i)) && s.workers[i].pc.Scan? && s.workers[i].hand.None?
    requires s.workers[i].idleDone || RunsAll(s, i)
    ensures Distance(ScanStep(s, i)) < Distance(s)
  {
    var w' := ScanStep(s, i).workers[i];
    if s.sh.tasks == [] {
      RanksUpdate(s.workers, false, i, w');
    } else {
      assert RunsAll(s, i) ==> MayRun(s.sh.tasks[0], i + 1) && FirstFor(s.sh.tasks, i + 1) == 0;
      RanksUpdate(s.workers, true, i, w');
      assert Rank(w', true) <= Rank(s.workers[i], true) + 12;
    }
  }

  lemma WorkRankFalls(s: State, i: nat)
    requires Enabled(s, Work(i)) && s.sh.stopped && ShapedWorker(s, i) && !s.workers[i].pc.Scan?
    requires !Submits(s, Work(i))
    ensures WorkStep(s, i).sh.tasks == s.sh.tasks
    ensures Rank(WorkStep(s, i).workers[i], s.sh.tasks != []) < Rank(s.workers[i], s.sh.tasks != [])
  {
  }

  lemma MoveGetsCloser(s: State, s': State, i: nat, w: Worker)
    requires i < |s.workers| && s'.workers == s.workers[i := w] && s'.sh.tasks == s.sh.tasks
    requires Rank(w, s.sh.tasks != []) < Rank(s.workers[i], s.sh.tasks != [])
    requires StopRank(s'.stop) <= StopRank(s.stop)
    ensures Distance(s') < Distance(s)
  {
    RanksUpdate(s.workers, s.sh.tasks != [], i, w);
  }

  /** After Stop was called, every move that submits nothing comes closer to its return. */
  lemma StepGetsCloser(s: State, a: Action)
    requires Enabled(s, a) && IsMove(a) && !Submits(s, a)
    requires s.sh.stopped && Shaped(s) && ServesAll(s)
    ensures Distance(Apply(s, a)) < Distance(s)
  {
    var s' := Apply(s, a);
    match a
    case Work(i) =>
      assert ShapedWorker(s, i) && (s.workers[i].idleDone || RunsAll(s, i));
      if s.workers[i].pc.Scan? {
        ScanGetsCloser(s, i);
      } else {
        WorkRankFalls(s, i);
        MoveGetsCloser(s, s', i, s'.workers[i]);
      }
    case EndSlice(i, _) => MoveGetsCloser(s, s', i, s.workers[i].(pc := Settle));
    case EventWake(i) => MoveGetsCloser(s, s', i, s.workers[i].(pc := Pc.Scan));
    case StopStep =>
      if s.stop.MainSwap? {
        assert ShapedWorker(s, s.pool);
        MoveGetsCloser(s, s', s.pool, s.workers[s.pool].(pc := Pc.Scan));
      }
  }

  /** A re-queue goes back by no more than its cost. */
  lemma AgainGoesBack(s: State, i: nat)
    requires Enabled(s, Work(i)) && Submits(s, Work(i))
    ensures Distance(WorkStep(s, i)) < Distance(s) + AgainCost(|s.workers|)
  {
    assert Ranks(WorkStep(s, i).workers, true) <= 12 * |s.workers|;
  }

  lemma StillServesAll(s: State, a: Action)
    requires Enabled(s, a) && IsMove(a) && ServesAll(s)
    ensures ServesAll(Apply(s, a)) && |Apply(s, a).workers| == |s.workers|
    ensures Apply(s, a).submitted == s.submitted || (Submits(s, a) && |Apply(s, a).submitted| == |s.submitted| + 1)
    ensures Submits(s, a) ==> |Apply(s, a).submitted| == |s.submitted| + 1
  {
    var s' := Apply(s, a);
    forall i | 0 <= i < |s'.workers| && !s'.workers[i].idleDone ensures RunsAll(s', i) {
      assert !s.workers[i].idleDone && RunsAll(s, i);
      forall k | 0 <= k < |s'.sh.tasks| ensures MayRun(s'.sh.tasks[k], i + 1) {
        assert s'.sh.tasks[k] in s.sh.tasks || s'.sh.tasks[k].target == ANY_THREAD;
      }
    }
  }

  lemma StaysStopped(s: State, a: Action)
    requires Enabled(s, a) && s.sh.stopped
    ensures Apply(s, a).sh.stopped
  {
  }

  lemma OneMore(cost: nat, n: nat)
    ensures cost * (n + 1) == cost * n + cost
  {
  }

  lemma {:induction false} RunGetsCloser(rules: Rules, cfg: Config, acts: seq<Action>, more: seq<Action>)
    requires IsRun(rules, cfg, acts) && IsRun(rules, cfg, acts + more) && AllMoves(more)
    requires var s := After(rules, cfg, acts); s.sh.stopped && ServesAll(s)
    ensures var s, s' := After(rules, cfg, acts), After(rules, cfg, acts + more);
            && |s'.submitted| >= |s.submitted| && s'.sh.stopped && ServesAll(s') && |s'.workers| == |s.workers|
            && |more| + Distance(s') <= Distance(s) + AgainCost(|s.workers|) * (|s'.submitted| - |s.submitted|)
    decreases |more|
  {
    hide Apply, Distance, Enabled, Submits, Shaped, ServesAll, AgainCost;
    if more == [] {
      assert acts + more == acts;
    } else {
      var before, a := more[..|more| - 1], more[|more| - 1];
      assert (acts + more)[..|acts + more| - 1] == acts + before;
      RunGetsCloser(rules, cfg, acts, before);
      var s, s1 := After(rules, cfg, acts), After(rules, cfg, acts + before);
      RunIsShaped(rules, cfg, acts + before);
      StaysStopped(s1, a);
      StillServesAll(s1, a);
      if Submits(s1, a) {
        AgainIsWork(s1, a);
        OneMore(AgainCost(|s.workers|), |s1.submitted| - |s.submitted|);
      } else {
        StepGetsCloser(s1, a);
      }
    }
  }

  lemma AgainIsWork(s: State, a: Action)
    requires Enabled(s, a) && IsMove(a) && Submits(s, a)
    ensures Distance(Apply(s, a)) < Distance(s) + AgainCost(|s.workers|)
  {
    AgainGoesBack(s, a.i);
  }

  // ------------------------------------------------------------------
  // The number of moves is bounded exactly when every worker serves all

  /** After the run `acts`, the workers and Stop make at most `bound` moves, and a fixed number for
      each time a worker submits its ready coroutine again. */
  ghost predicate MovesAreBounded(rules: Rules, cfg: Config, acts: seq<Action>, bound: nat)
    requires IsRun(rules, cfg, acts)
  {
    forall more :: AllMoves(more) && IsRun(rules, cfg, acts + more) ==> WithinBound(rules, cfg, acts, more, bound)
  }

  predicate WithinBound(rules: Rules, cfg: Config, acts: seq<Action>, more: seq<Action>, bound: nat)
    requires IsRun(rules, cfg, acts) && IsRun(rules, cfg, acts + more)
  {
    var s, s' := After(rules, cfg, acts), After(rules, cfg, acts + more);
    |more| <= bound + AgainCost(|s.workers|) * (|s'.submitted| - |s.submitted|)
  }

  lemma StaysWithin(rules: Rules, cfg: Config, acts: seq<Action>, more: seq<Action>)
    requires IsRun(rules, cfg, acts) && IsRun(rules, cfg, acts + more) && AllMoves(more)
    requires var s := After(rules, cfg, acts); s.sh.stopped && ServesAll(s)
    ensures WithinBound(rules, cfg, acts, more, Distance(After(rules, cfg, acts)))
  {
    RunGetsCloser(rules, cfg, acts, more);
  }

  /** Once Stop was called, and as long as nobody else submits anything, this bound exists exactly
      when every worker that is not on its way out may run every queued task. */
  lemma ShutdownIsBoundedExactlyWhen(rules: Rules, cfg: Config, acts: seq<Action>)
    requires rules.again && IsRun(rules, cfg, acts) && After(rules, cfg, acts).sh.stopped
    ensures var s := After(rules, cfg, acts);
            && (MovesAreBounded(rules, cfg, acts, Distance(s)) <==> ServesAll(s))
            && ((exists bound :: MovesAreBounded(rules, cfg, acts, bound)) <==> ServesAll(s))
  {
    var s := After(rules, cfg, acts);
    hide IsRun, After, ServesAll, Distance, AgainCost, WithinBound;
    if ServesAll(s) {
      forall more | AllMoves(more) && IsRun(rules, cfg, acts + more)
        ensures WithinBound(rules, cfg, acts, more, Distance(s))
      {
        StaysWithin(rules, cfg, acts, more);
      }
    } else {
      forall bound: nat ensures !MovesAreBounded(rules, cfg, acts, bound) {
        var more := NeverRests(rules, cfg, acts, bound);
      }
    }
  }

  lemma NeverRests(rules: Rules, cfg: Config, acts: seq<Action>, bound: nat) returns (more: seq<Action>)
    requires rules.again && IsRun(rules, cfg, acts) && !ServesAll(After(rules, cfg, acts))
    ensures AllMoves(more) && IsRun(rules, cfg, acts + more) && !WithinBound(rules, cfg, acts, more, bound)
  {
    var s := After(rules, cfg, acts);
    var cost := AgainCost(|s.workers|);
    var i :| 0 <= i < |s.workers| && !s.workers[i].idleDone && !RunsAll(s, i);
    var k :| 0 <= k < |s.sh.tasks| && !MayRun(s.sh.tasks[k], i + 1);
    RunIsShaped(rules, cfg, acts);
    assert ShapedWorker(s, i);
    hide IsRun, After, RunsAll, ServesAll, AgainCost, OfTarget, Free, MayRun, ShapedWorker;
    var one, s1 := FreeSoon(rules, cfg, acts, i);
    var rest := DrainsAlone(rules, cfg, acts + one, i, k, bound + cost);
    MoveBracket(acts, one, rest);
    more := one + rest;
    TooMany(rules, cfg, acts, more, bound);
  }

  lemma TooMany(rules: Rules, cfg: Config, acts: seq<Action>, more: seq<Action>, bound: nat)
    requires IsRun(rules, cfg, acts) && IsRun(rules, cfg, acts + more)
    requires var s, s' := After(rules, cfg, acts), After(rules, cfg, acts + more);
             && |s.submitted| <= |s'.submitted| <= |s.submitted| + 1
             && |more| > bound + AgainCost(|s.workers|)
    ensures !WithinBound(rules, cfg, acts, more, bound)
  {
    hide IsRun, After, AgainCost;
    var s, s' := After(rules, cfg, acts), After(rules, cfg, acts + more);
    if |s'.submitted| > |s.submitted| {
      OneMore(AgainCost(|s.workers|), 0);
    }
  }

  // ------------------------------------------------------------------
  // At the end Stop has returned

  /** Shutting down: Stop was called, nobody else submits anything, and every worker that is not on
      its way out may run every queued task. Then the moves are bounded as above, whatever the
      interleaving; and with few enough workers one that cannot go on has ended with the return of Stop. */
  lemma StopReturns(rules: Rules, cfg: Config, acts: seq<Action>, more: seq<Action>)
    requires IsRun(rules, cfg, acts) && IsRun(rules, cfg, acts + more) && AllMoves(more)
    requires var s := After(rules, cfg, acts); s.sh.stopped && ServesAll(s)
    ensures WithinBound(rules, cfg, acts, more, Distance(After(rules, cfg, acts)))
    ensures FewEnough(rules, cfg) ==>
              var s' := After(rules, cfg, acts + more);
              s'.stop.Returned? || exists a :: Internal(a) && Enabled(s', a)
  {
    hide IsRun, After, Enabled, ServesAll, Distance, AgainCost, WithinBound, FewEnough;
    StaysWithin(rules, cfg, acts, more);
    RunGetsCloser(rules, cfg, acts, more);
    if FewEnough(rules, cfg) {
      ShutdownIsNeverStuck(rules, cfg, acts + more);
    }
  }

  // ------------------------------------------------------------------
  // An interleaving that ends there, from every state of a shutdown

  /** How many of the first `n` workers are about to submit a ready coroutine again. */
  function Pending(s: State, n: nat): nat
    requires n <= |s.workers|
  {
    if n == 0 then 0 else Pending(s, n - 1) + (if Submits(s, Work(n - 1)) then 1 else 0)
  }

  lemma {:induction false} FewerPending(s: State, s': State, n: nat, i: nat)
    requires n <= |s.workers| == |s'.workers|
    requires forall k :: 0 <= k < |s.workers| && Submits(s', Work(k)) ==> Submits(s, Work(k))
    ensures Pending(s', n) <= Pending(s, n)
    ensures i < n && Submits(s, Work(i)) && !Submits(s', Work(i)) ==> Pending(s', n) < Pending(s, n)
    decreases n
  {
    hide Submits;
    if n > 0 {
      FewerPending(s, s', n - 1, i);
    }
  }

  /** A move after which no coroutine has become ready. */
  predicate Calm(a: Action) {
    Internal(a) && (a.EndSlice? ==> !a.outcome.Ready?)
  }

  lemma CalmAddsNone(s: State, a: Action, k: nat)
    requires Enabled(s, a) && Calm(a) && Shaped(s) && k < |s.workers|
    ensures |Apply(s, a).workers| == |s.workers|
    ensures Submits(Apply(s, a), Work(k)) ==> Submits(s, Work(k))
  {
  }

  /** When the list is empty, a worker submits its coroutine again and takes it at once. */
  lemma AgainAndTaken(s: State, i: nat)
    requires Enabled(s, Work(i)) && Submits(s, Work(i)) && s.sh.tasks == [] && Balanced(s)
    ensures var s1 := WorkStep(s, i);
            && Enabled(s1, Work(i)) && s1.workers[i].pc.Scan? && s1.workers[i].hand.None?
            && Balanced(ScanStep(s1, i)) && ScanStep(s1, i).sh.tasks == []
  {
    var s1 := WorkStep(s, i);
    var t := Task(ANY_THREAD, Routine(SliceCo(s.workers[i])));
    assert s1.sh.tasks == [t] && FirstFor([t], i + 1) == 0;
    var s2 := ScanStep(s1, i);
    var w := s2.workers[i];
    assert s2.workers == s.workers[i := w] && w.pc.Dispatch? && w.hand == Some(t);
    NeedsUpdate(s.workers, false, i, w);
    OwesUpdate(s.workers, i, w);
  }

  lemma {:induction false} SomePending(s: State, n: nat)
    requires n <= |s.workers|
    ensures Pending(s, n) > 0 <==> exists k :: 0 <= k < n && Submits(s, Work(k))
  {
    hide Submits;
    if n > 0 {
      SomePending(s, n - 1);
    }
  }

  /** The account is balanced, and what is ready may be submitted again. */
  predicate UnderWay(rules: Rules, s: State) {
    s.sh.stopped && Balanced(s) && ServesAll(s) && (rules.again || Pending(s, |s.workers|) == 0)
  }

  /** One or two calm moves, after which fewer workers have a coroutine to submit again, or as many
      and the end is closer. */
  lemma CalmMove(rules: Rules, cfg: Config, acts: seq<Action>) returns (one: seq<Action>)
    requires IsRun(rules, cfg, acts) && UnderWay(rules, After(rules, cfg, acts))
    requires !After(rules, cfg, acts).stop.Returned?
    ensures (forall k :: 0 <= k < |one| ==> Internal(one[k])) && IsRun(rules, cfg, acts + one)
    ensures var s, s' := After(rules, cfg, acts), After(rules, cfg, acts + one);
            && UnderWay(rules, s') && |s'.workers| == |s.workers|
            && Pending(s', |s.workers|) <= Pending(s, |s.workers|)
            && (Pending(s', |s.workers|) < Pending(s, |s.workers|) || Distance(s') < Distance(s))
  {
    var s := After(rules, cfg, acts);
    RunIsShaped(rules, cfg, acts);
    NotStranded(s);
    var b :| Internal(b) && Enabled(s, b);
    var a := if b.EndSlice? then EndSlice(b.i, Terminal) else b;
    assert Calm(a) && Enabled(s, a);
    SomePending(s, |s.workers|);
    if Submits(s, a) && s.sh.tasks == [] {
      one := TwoMoves(rules, cfg, acts, a.i);
    } else {
      one := [a];
      OneMove(rules, cfg, acts, a);
      hide Internal, Balanced, Pending, Distance, ServesAll, Apply;
      StaysStopped(s, a);
      StillServesAll(s, a);
      AllFewer(s, a);
      StepKeepsBalanced(s, a);
      if !Submits(s, a) {
        StepGetsCloser(s, a);
      }
    }
  }

  /** A re-queue on the empty list and the scan that follows it. */
  lemma TwoMoves(rules: Rules, cfg: Config, acts: seq<Action>, i: nat) returns (two: seq<Action>)
    requires IsRun(rules, cfg, acts) && UnderWay(rules, After(rules, cfg, acts)) && rules.again
    requires var s := After(rules, cfg, acts); Enabled(s, Work(i)) && Submits(s, Work(i)) && s.sh.tasks == []
    ensures (forall k :: 0 <= k < |two| ==> Internal(two[k])) && IsRun(rules, cfg, acts + two)
    ensures var s, s' := After(rules, cfg, acts), After(rules, cfg, acts + two);
            && UnderWay(rules, s') && |s'.workers| == |s.workers|
            && Pending(s', |s.workers|) < Pending(s, |s.workers|)
  {
    var s, a := After(rules, cfg, acts), Work(i);
    var s1 := WorkStep(s, i);
    two := [a, a];
    assert acts + two == acts + [a] + [a];
    AgainAndTaken(s, i);
    OneMove(rules, cfg, acts, a);
    OneMove(rules, cfg, acts + [a], a);
    RunIsShaped(rules, cfg, acts);
    RunIsShaped(rules, cfg, acts + [a]);
    hide IsRun, After, Balanced, Pending, ServesAll;
    StaysStopped(s, a);
    StillServesAll(s, a);
    AllFewer(s, a);
    StaysStopped(s1, a);
    StillServesAll(s1, a);
    AllFewer(s1, a);
  }

  lemma AllFewer(s: State, a: Action)
    requires Enabled(s, a) && Calm(a) && Shaped(s)
    ensures |Apply(s, a).workers| == |s.workers|
    ensures Pending(Apply(s, a), |s.workers|) <= Pending(s, |s.workers|)
    ensures Submits(s, a) ==> Pending(Apply(s, a), |s.workers|) < Pending(s, |s.workers|)
  {
    var s' := Apply(s, a);
    forall k | 0 <= k < |s.workers| && Submits(s', Work(k)) ensures Submits(s, Work(k)) {
      CalmAddsNone(s, a, k);
    }
    assert |s'.workers| == |s.workers|;
    FewerPending(s, s', |s.workers|, if a.Work? then a.i else 0);
  }

  lemma {:induction false} CanReturnFrom(rules: Rules, cfg: Config, acts: seq<Action>) returns (more: seq<Action>)
    requires IsRun(rules, cfg, acts) && UnderWay(rules, After(rules, cfg, acts))
    ensures (forall k :: 0 <= k < |more| ==> Internal(more[k])) && IsRun(rules, cfg, acts + more)
    ensures After(rules, cfg, acts + more).stop.Returned?
    decreases Pending(After(rules, cfg, acts), |After(rules, cfg, acts).workers|), Distance(After(rules, cfg, acts))
  {
    hide IsRun, After, Pending, Distance, UnderWay, Internal;
    if After(rules, cfg, acts).stop.Returned? {
      more := [];
      assert acts + [] == acts;
    } else {
      var one := CalmMove(rules, cfg, acts);
      var rest := CanReturnFrom(rules, cfg, acts + one);
      more := one + rest;
      MoveBracket(acts, one, rest);
    }
  }

  /** From every state a shutdown can get to, with few enough workers for the rules, the workers and
      Stop have moves of their own, re-queues of what is ready by then included, that end with the
      return of Stop. */
  lemma StopCanReturn(rules: Rules, cfg: Config, acts: seq<Action>) returns (more: seq<Action>)
    requires FewEnough(rules, cfg) && IsRun(rules, cfg, acts)
    requires var s := After(rules, cfg, acts); s.sh.stopped && ServesAll(s)
    ensures var loose := rules.(again := true);
            && (forall k :: 0 <= k < |more| ==> Internal(more[k]))
            && IsRun(loose, cfg, acts + more) && After(loose, cfg, acts + more).stop.Returned?
  {
    var loose := rules.(again := true);
    RunIsBalanced(rules, cfg, acts);
    Relax(rules, loose, cfg, acts);
    more := CanReturnFrom(loose, cfg, acts);
  }

  /** Whenever Stop has returned, every task has been completed. */
  ghost predicate StopDrains(cfg: Config, rules: Rules) {
    forall acts :: IsRun(rules, cfg, acts) && After(rules, cfg, acts).stop.Returned? ==>
                     IsDrained(After(rules, cfg, acts))
  }

  /** A task that arrives once Stop has returned is never run; so this holds exactly when nobody
      else submits after Stop was called, however often the workers do. */
  lemma StopDrainsExactlyWhen(cfg: Config, rules: Rules)
    requires WorkerCount(cfg) > 0
    ensures StopDrains(cfg, rules) <==> !rules.late
  {
    if rules.late {
      var strict := Rules(false, false, false);
      var acts := StopAtOnceReturns(cfg, strict);
      Relax(strict, rules, cfg, acts);
      var late := Submit(Task(ANY_THREAD, Callback(0)));
      Extend(rules, cfg, acts, late);
      assert !IsDrained(After(rules, cfg, acts + [late]));
    } else {
      forall acts | IsRun(rules, cfg, acts) && After(rules, cfg, acts).stop.Returned?
        ensures IsDrained(After(rules, cfg, acts))
      {
        StopReturnsDrained(rules, cfg, acts);
      }
    }
  }

  lemma StopAtOnceReturns(cfg: Config, rules: Rules) returns (acts: seq<Action>)
    requires !rules.late && !rules.again
    ensures IsRun(rules, cfg, acts) && After(rules, cfg, acts).stop.Returned?
  {
    assert IsRun(rules, cfg, []);
    Extend(rules, cfg, [], StopStep);
    assert [] + [StopStep] == [StopStep];
    var s := After(rules, cfg, [StopStep]);
    assert s == StopAdvance(Start(cfg));
    RunIsBalanced(rules, cfg, [StopStep]);
    SomePending(s, |s.workers|);
    var more := CanReturnFrom(rules, cfg, [StopStep]);
    acts := [StopStep] + more;
  }
}
