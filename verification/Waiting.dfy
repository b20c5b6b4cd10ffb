/** How long queued tasks wait: the exact condition under which some task is taken after a
    bounded number of moves. */
module Waiting {
  import opened Base
  import opened TaskQueue
  import opened Protocol
  import opened WorkerShape
  import opened Draining
  import opened Progress
  import opened Walks

  lemma StepTakesAtMostOne(s: State, a: Action)
    requires Enabled(s, a)
    ensures |s.taken| <= |Apply(s, a).taken| <= |s.taken| + 1
    ensures s.submitted <= Apply(s, a).submitted
  {
  }

  lemma {:induction false} RunTakesOrFalls(rules: Rules, cfg: Config, acts: seq<Action>, more: seq<Action>)
    requires IsRun(rules, cfg, acts) && IsRun(rules, cfg, acts + more)
    requires var s := After(rules, cfg, acts); s.sh.tasks != [] && AllAble(s)
    ensures var s, s' := After(rules, cfg, acts), After(rules, cfg, acts + more);
            || |s'.taken| > |s.taken|
            || (|s'.taken| == |s.taken| && s'.sh.tasks != [] && AllAble(s')
                && Effort(s') + Moves(more) <= Effort(s))
    decreases |more|
  {
    hide Apply, Effort, Enabled, AllAble, Shaped;
    if more == [] {
      assert acts + more == acts;
    } else {
      var before, a := more[..|more| - 1], more[|more| - 1];
      assert (acts + more)[..|acts + more| - 1] == acts + before;
      RunTakesOrFalls(rules, cfg, acts, before);
      var s1 := After(rules, cfg, acts + before);
      StepTakesAtMostOne(s1, a);
      RunIsShaped(rules, cfg, acts + before);
      if |s1.taken| == |After(rules, cfg, acts).taken| {
        StepTakesOrFalls(s1, a);
      }
    }
  }

  /** After the run `acts`, in every continuation with more than `bound` moves a task is taken. */
  ghost predicate TakeIsCertain(rules: Rules, cfg: Config, acts: seq<Action>, bound: nat)
    requires IsRun(rules, cfg, acts)
  {
    forall more :: IsRun(rules, cfg, acts + more) && Moves(more) > bound ==>
                     |After(rules, cfg, acts + more).taken| > |After(rules, cfg, acts).taken|
  }

  /** With tasks queued, a take is certain after a number of moves linear in the number
      of workers, or after any number, exactly when each worker that has not left and whose
      idle coroutine has not returned may run some queued task, or is about to submit one.
      This holds in every run, whoever submits what and when. */
  lemma TakeIsCertainExactlyWhen(rules: Rules, cfg: Config, acts: seq<Action>)
    requires IsRun(rules, cfg, acts) && After(rules, cfg, acts).sh.tasks != []
    ensures var s := After(rules, cfg, acts);
            && (TakeIsCertain(rules, cfg, acts, 12 * |s.workers| + 6) <==> AllAble(s))
            && ((exists bound :: TakeIsCertain(rules, cfg, acts, bound)) <==> AllAble(s))
  {
    hide IsRun, After, Able, AllAble;
    if AllAble(After(rules, cfg, acts)) {
      SoonTaken(rules, cfg, acts);
    } else {
      MayNeverBeTaken(rules, cfg, acts);
    }
  }

  lemma EffortIsBounded(s: State)
    ensures Effort(s) <= 12 * |s.workers| + 6
  {
  }

  lemma SoonTaken(rules: Rules, cfg: Config, acts: seq<Action>)
    requires IsRun(rules, cfg, acts)
    requires var s := After(rules, cfg, acts); s.sh.tasks != [] && AllAble(s)
    ensures TakeIsCertain(rules, cfg, acts, 12 * |After(rules, cfg, acts).workers| + 6)
  {
    var s := After(rules, cfg, acts);
    EffortIsBounded(s);
    hide IsRun, After, AllAble, Effort, Moves;
    forall more | IsRun(rules, cfg, acts + more) && Moves(more) > 12 * |s.workers| + 6
      ensures |After(rules, cfg, acts + more).taken| > |s.taken|
    {
      RunTakesOrFalls(rules, cfg, acts, more);
    }
  }

  lemma MayNeverBeTaken(rules: Rules, cfg: Config, acts: seq<Action>)
    requires IsRun(rules, cfg, acts)
    requires var s := After(rules, cfg, acts); s.sh.tasks != [] && !AllAble(s)
    ensures forall bound :: !TakeIsCertain(rules, cfg, acts, bound)
  {
    var s := After(rules, cfg, acts);
    hide IsRun, After, Able;
    var i :| 0 <= i < |s.workers| && !Able(s, i);
    forall bound: nat ensures !TakeIsCertain(rules, cfg, acts, bound) {
      var more := NothingTaken(rules, cfg, acts, i, bound);
      AllMovesCount(more);
    }
  }

  /** Whatever the configuration, one task bound to the second thread is enough to make the
      first go round for ever without it. */
  lemma BoundTaskCanBePassedOver(rules: Rules, cfg: Config, bound: nat)
    requires cfg.pool > 0 || cfg.withMain
    ensures var acts := [Submit(Task(2, Callback(0)))];
            IsRun(rules, cfg, acts) && !TakeIsCertain(rules, cfg, acts, bound)
  {
    var t := Task(2, Callback(0));
    var acts := [Submit(t)];
    assert acts[..0] == [];
    assert IsRun(rules, cfg, []);
    Extend(rules, cfg, [], Submit(t));
    assert [] + acts == acts;
    var s := After(rules, cfg, acts);
    assert s.sh.tasks == [t];
    assert !MayRun(t, 1);
    assert !Able(s, 0);
    TakeIsCertainExactlyWhen(rules, cfg, acts);
  }
}
