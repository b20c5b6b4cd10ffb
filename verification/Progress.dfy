/** The scheduler makes progress: while tasks are queued somebody can move; and the
    exact condition under which a worker takes one of them after a bounded number of
    moves, whatever the interleaving. */
module Progress {
  import opened Base
  import opened TaskQueue
  import opened CoroutineStates
  import opened Protocol
  import opened WorkerShape
  import opened NoLostWakeup
  import opened Shutdown
  import opened Exclusivity
  import opened Draining

  predicate Alive(w: Worker) {
    !w.pc.Dormant? && !w.pc.Exited?
  }

  /** A move of a worker or of Stop; submissions and new coroutines are none. */
  predicate IsMove(a: Action) {
    Internal(a) || a.EventWake?
  }

  function Moves(acts: seq<Action>): nat {
    if acts == [] then 0
    else Moves(acts[..|acts| - 1]) + (if IsMove(acts[|acts| - 1]) then 1 else 0)
  }

  lemma {:induction false} MovesConcat(a: seq<Action>, b: seq<Action>)
    ensures Moves(a + b) == Moves(a) + Moves(b)
  {
    if b == [] {
      assert a + b == a;
    } else {
      assert (a + b)[..|a + b| - 1] == a + b[..|b| - 1];
      MovesConcat(a, b[..|b| - 1]);
    }
  }

  /** With tasks queued, a worker that has not left, or another one, can move without
      any help from outside. */
  lemma SomeoneCanMove(rules: Rules, cfg: Config, acts: seq<Action>, i: nat)
    requires IsRun(rules, cfg, acts)
    requires var s := After(rules, cfg, acts);
             s.sh.tasks != [] && i < |s.workers| && Alive(s.workers[i])
    ensures exists a: Action :: (a.Work? || a.EndSlice?) && Enabled(After(rules, cfg, acts), a)
  {
    var s := After(rules, cfg, acts);
    NoWakeupIsLost(rules, cfg, acts);
    var k := i;
    if s.sh.counter == 0 {
      k :| 0 <= k < |s.workers| && OnItsWay(s.workers[k]);
    }
    if s.workers[k].pc.Slice? {
      assert Enabled(s, EndSlice(k, Terminal));
    } else {
      assert Enabled(s, Work(k));
    }
  }

  // ------------------------------------------------------------------
  // Workers that will take a task when they next scan

  predicate MayRunSome(tasks: seq<Task>, me: ThreadId) {
    exists k :: 0 <= k < |tasks| && MayRun(tasks[k], me)
  }

  /** The worker is in the slice of coroutine `c`, or has it in hand to begin one. */
  predicate Touches(w: Worker, c: nat) {
    || ((w.pc.Notifying? || w.pc.Dispatch?)
        && (InHand(w, c) || (w.hand.Some? && w.hand.value.job.Callback? && w.temp == Some(c))))
    || (w.pc.Slice? && SliceCo(w) == c)
  }

  /** The worker is about to submit its ready coroutine again, and nobody runs that meanwhile. */
  predicate Requeues(s: State, i: nat)
    requires i < |s.workers|
  {
    && Submits(s, Work(i))
    && forall j :: 0 <= j < |s.workers| && j != i ==> !Touches(s.workers[j], SliceCo(s.workers[i]))
  }

  /** The worker leaves without taking a task, or will find one, if only the one it submits itself. */
  predicate Able(s: State, i: nat)
    requires i < |s.workers|
  {
    var w := s.workers[i];
    w.pc.Exited? || w.idleDone || MayRunSome(s.sh.tasks, i + 1) || Requeues(s, i)
  }

  predicate AllAble(s: State) {
    forall i :: 0 <= i < |s.workers| ==> Able(s, i)
  }

  /** When no coroutine is in two places, nobody can spoil a re-queue. */
  lemma TidyRequeues(s: State, i: nat)
    requires Exclusive(s) && Shaped(s) && i < |s.workers|
    ensures Requeues(s, i) <==> Submits(s, Work(i))
  {
    if Submits(s, Work(i)) {
      var c := SliceCo(s.workers[i]);
      assert TidyWorker(s.workers[i], s.cos) && ShapedWorker(s, i);
      assert Holds(s.workers[i], c);
      forall j | 0 <= j < |s.workers| && j != i ensures !Touches(s.workers[j], c) {
        assert TidyWorker(s.workers[j], s.cos) && ShapedWorker(s, j);
        if j < i {
          assert !Holds(s.workers[j], c);
        }
      }
    }
  }

  lemma FindsExactlyWhen(tasks: seq<Task>, me: ThreadId)
    ensures FirstFor(tasks, me) < |tasks| <==> MayRunSome(tasks, me)
  {
    var i := FirstFor(tasks, me);
    assert i < |tasks| ==> MayRun(tasks[i], me);
  }

  lemma AnyoneMayRun(tasks: seq<Task>, t: Task, me: ThreadId)
    requires t.target == ANY_THREAD
    ensures MayRunSome(tasks + [t], me)
  {
    assert MayRun((tasks + [t])[|tasks|], me);
  }

  lemma MoreToRun(tasks: seq<Task>, t: Task, me: ThreadId)
    requires MayRunSome(tasks, me)
    ensures MayRunSome(tasks + [t], me)
  {
    var k :| 0 <= k < |tasks| && MayRun(tasks[k], me);
    assert MayRun((tasks + [t])[k], me);
  }

  // ------------------------------------------------------------------
  // Each step takes a task or uses up effort

  /** Moves left, at most, until a task is taken. */
  function Effort(s: State): nat {
    Ranks(s.workers, true) + StopRank(s.stop)
  }

  lemma EffortFalls(s: State, s': State, i: nat, w: Worker)
    requires i < |s.workers| && s'.workers == s.workers[i := w] && Rank(w, true) < Rank(s.workers[i], true)
    requires StopRank(s'.stop) <= StopRank(s.stop)
    ensures Effort(s') < Effort(s)
  {
    RanksUpdate(s.workers, true, i, w);
  }

  /** A step of a worker that takes nothing. */
  lemma WorkFalls(s: State, i: nat)
    requires Enabled(s, Work(i)) && ShapedWorker(s, i) && s.sh.tasks != []
    requires s.workers[i].pc.Scan? ==> s.workers[i].idleDone && !MayRunSome(s.sh.tasks, i + 1)
    ensures WorkStep(s, i).taken == s.taken && Effort(WorkStep(s, i)) < Effort(s)
  {
    FindsExactlyWhen(s.sh.tasks, i + 1);
    EffortFalls(s, WorkStep(s, i), i, WorkStep(s, i).workers[i]);
  }

  /** Any other step of the scheduler. */
  lemma OtherMoveFalls(s: State, a: Action)
    requires Enabled(s, a) && Shaped(s) && (a.EndSlice? || a.EventWake? || a.StopStep?)
    ensures Apply(s, a).taken == s.taken && Apply(s, a).submitted == s.submitted
    ensures Apply(s, a).sh.tasks == s.sh.tasks && Effort(Apply(s, a)) < Effort(s)
  {
    var s' := Apply(s, a);
    match a
    case EndSlice(i, _) => EffortFalls(s, s', i, s.workers[i].(pc := Settle));
    case EventWake(i) => EffortFalls(s, s', i, s.workers[i].(pc := Pc.Scan));
    case StopStep =>
      if s.stop.MainSwap? {
        assert ShapedWorker(s, s.pool);
        EffortFalls(s, s', s.pool, s.workers[s.pool].(pc := Pc.Scan));
      }
  }

  lemma WorkKeepsTouching(s: State, j: nat, c: nat)
    requires Enabled(s, Work(j)) && c < |s.cos| && !Touches(s.workers[j], c)
    requires WorkStep(s, j).taken == s.taken && !Submits(s, Work(j)) && ShapedWorker(s, j)
    ensures !Touches(WorkStep(s, j).workers[j], c)
    ensures s.cos[c].Ready? ==> c < |WorkStep(s, j).cos| && WorkStep(s, j).cos[c].Ready?
  {
  }

  /** A worker that will take a task stays one, as long as nobody takes any. */
  lemma StaysAble(s: State, a: Action, i: nat)
    requires Enabled(s, a) && Shaped(s) && i < |s.workers| && Able(s, i)
    requires Apply(s, a).taken == s.taken
    ensures Able(Apply(s, a), i)
  {
    var s' := Apply(s, a);
    if a.Submit? && MayRunSome(s.sh.tasks, i + 1) {
      MoreToRun(s.sh.tasks, a.t, i + 1);
    } else if Submits(s, a) && a.Work? {
      AnyoneMayRun(s.sh.tasks, Task(ANY_THREAD, Routine(SliceCo(s.workers[a.i]))), i + 1);
    } else if Requeues(s, i) {
      RequeueStays(s, a, i);
    } else if a.Work? {
      NothingVanishes(s, a.i);
    } else if a.StopStep? && s.stop.MainSwap? {
      assert ShapedWorker(s, s.pool);
    }
  }

  lemma RequeueStays(s: State, a: Action, i: nat)
    requires Enabled(s, a) && Shaped(s) && i < |s.workers| && Requeues(s, i)
    requires Apply(s, a).taken == s.taken && !(a.Work? && Submits(s, a))
    ensures Requeues(Apply(s, a), i)
  {
    var s', c := Apply(s, a), SliceCo(s.workers[i]);
    if a.Work? {
      assert ShapedWorker(s, a.i);
      WorkKeepsTouching(s, a.i, c);
    } else if a.StopStep? && s.stop.MainSwap? {
      assert ShapedWorker(s, s.pool);
    }
    forall j | 0 <= j < |s'.workers| && j != i ensures !Touches(s'.workers[j], c) {
      assert !Touches(s.workers[j], c);
    }
  }

  /** A step takes a task, or the list stays nonempty and a move uses up effort. */
  lemma StepTakesOrFalls(s: State, a: Action)
    requires Enabled(s, a) && Shaped(s) && s.sh.tasks != [] && AllAble(s)
    ensures var s' := Apply(s, a);
            || |s'.taken| == |s.taken| + 1
            || (s'.taken == s.taken && s'.sh.tasks != [] && AllAble(s')
                && Effort(s') + (if IsMove(a) then 1 else 0) <= Effort(s))
  {
    if a.Work? {
      assert ShapedWorker(s, a.i) && Able(s, a.i);
    }
    if a.Work? && s.workers[a.i].pc.Scan? && MayRunSome(s.sh.tasks, a.i + 1) {
      FindsExactlyWhen(s.sh.tasks, a.i + 1);
    } else {
      StepFalls(s, a);
      var s' := Apply(s, a);
      hide Effort, Apply, Able;
      forall i | 0 <= i < |s'.workers| ensures Able(s', i) {
        StaysAble(s, a, i);
      }
    }
  }

  /** A step that takes nothing. */
  lemma StepFalls(s: State, a: Action)
    requires Enabled(s, a) && Shaped(s) && s.sh.tasks != []
    requires a.Work? && s.workers[a.i].pc.Scan? ==>
               s.workers[a.i].idleDone && !MayRunSome(s.sh.tasks, a.i + 1)
    ensures var s' := Apply(s, a);
            && s'.taken == s.taken && s'.sh.tasks != [] && |s'.workers| == |s.workers|
            && Effort(s') + (if IsMove(a) then 1 else 0) <= Effort(s)
  {
    if a.Work? {
      assert ShapedWorker(s, a.i);
      WorkFalls(s, a.i);
      NothingVanishes(s, a.i);
    } else if IsMove(a) {
      OtherMoveFalls(s, a);
    }
  }

  lemma NothingVanishes(s: State, i: nat)
    requires Enabled(s, Work(i)) && WorkStep(s, i).taken == s.taken
    ensures |WorkStep(s, i).sh.tasks| >= |s.sh.tasks|
    ensures !Submits(s, Work(i)) ==>
              WorkStep(s, i).sh.tasks == s.sh.tasks && WorkStep(s, i).submitted == s.submitted
  {
  }
}
