/** Stopping the scheduler: the wake-ups Stop posts, together with those workers
    still owe each other, always suffice to wake every worker that polls, so no
    worker is stranded and Stop returns only once every task has run. */
module Shutdown {
  import opened Base
  import opened TaskQueue
  import opened CoroutineStates
  import opened Protocol
  import opened WorkerShape

  // ------------------------------------------------------------------
  // Wake-ups owed and wake-ups needed

  /** A worker that will need a wake-up. One that is about to idle needs one only
      when tasks are `left`, because otherwise IsStopped lets it leave. */
  function Need(w: Worker, left: bool): nat {
    match w.pc
    case Poll => 1
    case Woken => 1
    case IdleCheck => if left then 1 else 0
    case Notifying => if left && w.hand.None? && !w.idleDone then 1 else 0
    case Dispatch => if left && w.hand.None? && !w.idleDone then 1 else 0
    case _ => 0
  }

  function Owe(w: Worker): nat {
    if w.pc.Notifying? then 1 else 0
  }

  function Needs(ws: seq<Worker>, left: bool): nat {
    if ws == [] then 0 else Needs(ws[..|ws| - 1], left) + Need(ws[|ws| - 1], left)
  }

  function Owes(ws: seq<Worker>): nat {
    if ws == [] then 0 else Owes(ws[..|ws| - 1]) + Owe(ws[|ws| - 1])
  }

  /** Wake-ups that Stop has yet to post. */
  function StopOwes(s: State): nat {
    match s.stop
    case PoolNotify => s.pool + (if HasMain(s) then 1 else 0)
    case MainNotify => 1
    case _ => 0
  }

  lemma {:induction false} NeedsUpdate(ws: seq<Worker>, left: bool, i: nat, w: Worker)
    requires i < |ws|
    ensures Needs(ws[i := w], left) == Needs(ws, left) - Need(ws[i], left) + Need(w, left)
  {
    var last := |ws| - 1;
    if i < last {
      NeedsUpdate(ws[..last], left, i, w);
      assert ws[i := w][..last] == ws[..last][i := w];
    } else {
      assert ws[i := w][..last] == ws[..last];
    }
  }

  lemma {:induction false} OwesUpdate(ws: seq<Worker>, i: nat, w: Worker)
    requires i < |ws|
    ensures Owes(ws[i := w]) == Owes(ws) - Owe(ws[i]) + Owe(w)
  {
    var last := |ws| - 1;
    if i < last {
      OwesUpdate(ws[..last], i, w);
      assert ws[i := w][..last] == ws[..last][i := w];
    } else {
      assert ws[i := w][..last] == ws[..last];
    }
  }

  lemma {:induction false} NeedsBounds(ws: seq<Worker>)
    ensures Needs(ws, false) <= Needs(ws, true) <= |ws|
  {
    if ws != [] {
      NeedsBounds(ws[..|ws| - 1]);
    }
  }

  lemma {:induction false} NeedsMember(ws: seq<Worker>, left: bool, i: nat)
    requires i < |ws|
    ensures Needs(ws, left) >= Need(ws[i], left)
  {
    if i < |ws| - 1 {
      NeedsMember(ws[..|ws| - 1], left, i);
    }
  }

  lemma {:induction false} OwesNothing(ws: seq<Worker>)
    requires forall i :: 0 <= i < |ws| ==> !ws[i].pc.Notifying?
    ensures Owes(ws) == 0
  {
    if ws != [] {
      OwesNothing(ws[..|ws| - 1]);
    }
  }

  // ------------------------------------------------------------------
  // The account

  /** Tokens in the semaphore and wake-ups owed cover every worker that needs one. */
  predicate Balanced(s: State) {
    s.sh.stopped ==> s.sh.counter + Owes(s.workers) + StopOwes(s) >= Needs(s.workers, s.sh.tasks != [])
  }

  lemma NeedsOfOne(ws: seq<Worker>, left: bool)
    requires |ws| == 1
    ensures Needs(ws, left) == Need(ws[0], left) && Owes(ws) == Owe(ws[0])
  {
    assert Needs(ws[..0], left) == 0 && Owes(ws[..0]) == 0;
  }

  /** With two workers, a task on an empty list makes at most one of them need a wake-up that did not. */
  lemma NeedsOfTwo(ws: seq<Worker>, i: nat)
    requires i < |ws| <= 2 && Need(ws[i], true) == 0
    ensures Needs(ws, true) <= Needs(ws, false) + 1
  {
    if |ws| == 1 {
      NeedsOfOne(ws, true);
      NeedsOfOne(ws, false);
    } else {
      NeedsOfOne(ws[..1], true);
      NeedsOfOne(ws[..1], false);
    }
  }

  /** A worker that submits its own coroutine again posts one wake-up at most, and may send all
      the others back to poll: with two workers that is one other. */
  lemma SettleKeepsBalanced(s: State, i: nat)
    requires Enabled(s, Work(i)) && s.workers[i].pc.Settle? && Balanced(s)
    requires s.sh.stopped && Submits(s, Work(i)) && s.sh.tasks == [] ==> |s.workers| <= 2
    ensures Balanced(SettleStep(s, i))
  {
    var s' := SettleStep(s, i);
    var w' := s'.workers[i];
    assert s'.workers == s.workers[i := w'] && w'.pc.Scan?;
    NeedsUpdate(s.workers, s.sh.tasks != [], i, w');
    OwesUpdate(s.workers, i, w');
    if s.sh.stopped && Submits(s, Work(i)) && s.sh.tasks == [] {
      NeedsOfTwo(s'.workers, i);
    }
  }

  lemma ScanKeepsBalanced(s: State, i: nat)
    requires Enabled(s, Work(i)) && s.workers[i].pc.Scan? && Balanced(s)
    ensures Balanced(ScanStep(s, i))
  {
    var s' := ScanStep(s, i);
    var w' := s'.workers[i];
    var left := s'.sh.tasks != [];
    assert s'.workers == s.workers[i := w'];
    assert left ==> s.sh.tasks != [];
    NeedsUpdate(s.workers, left, i, w');
    OwesUpdate(s.workers, i, w');
    NeedsBounds(s.workers);
    assert Need(w', left) <= Owe(w');
  }

  lemma WorkKeepsBalanced(s: State, i: nat)
    requires Enabled(s, Work(i)) && Balanced(s)
    requires !s.workers[i].pc.Settle? && !s.workers[i].pc.Scan?
    ensures Balanced(WorkStep(s, i))
  {
    var s' := WorkStep(s, i);
    var w, w' := s.workers[i], s'.workers[i];
    var left := s.sh.tasks != [];
    assert s'.workers == s.workers[i := w'] && s'.sh.tasks == s.sh.tasks;
    assert StopOwes(s') == StopOwes(s);
    NeedsUpdate(s.workers, left, i, w');
    OwesUpdate(s.workers, i, w');
    assert s.sh.stopped ==> s'.sh.counter + Owe(w') + Need(w, left) >= s.sh.counter + Owe(w) + Need(w', left);
  }

  lemma MoveKeepsBalanced(s: State, s': State, i: nat, w: Worker)
    requires i < |s.workers| && s' == SetWorker(s, i, w).(cos := s'.cos, stop := s'.stop)
    requires Balanced(s) && StopOwes(s') == StopOwes(s)
    requires Owe(w) == Owe(s.workers[i]) && Need(w, true) == 0
    ensures Balanced(s')
  {
    NeedsUpdate(s.workers, s.sh.tasks != [], i, w);
    OwesUpdate(s.workers, i, w);
  }

  lemma StopKeepsBalanced(s: State)
    requires Enabled(s, StopStep) && Shaped(s) && Balanced(s)
    ensures Balanced(StopAdvance(s))
  {
    match s.stop
    case MainSwap =>
      assert ShapedWorker(s, s.pool);
      MoveKeepsBalanced(s, StopAdvance(s), s.pool, s.workers[s.pool].(pc := Pc.Scan));
    case NotCalled => NeedsBounds(s.workers);
    case _ =>
  }

  lemma LateSubmitKeepsBalanced(s: State, t: Task)
    requires |s.workers| <= 1 && Balanced(s)
    ensures Balanced(s.(sh := Submitted(s.sh, t), submitted := s.submitted + [t]))
  {
    if |s.workers| == 1 {
      NeedsOfOne(s.workers, true);
      NeedsOfOne(s.workers, false);
    }
  }

  lemma StepKeepsBalanced(s: State, a: Action)
    requires Enabled(s, a) && Shaped(s) && Balanced(s)
    requires s.sh.stopped && a.Submit? ==> |s.workers| <= 1
    requires s.sh.stopped && a.Work? && Submits(s, a) && s.sh.tasks == [] ==> |s.workers| <= 2
    ensures Balanced(Apply(s, a))
  {
    match a
    case Work(i) =>
      if s.workers[i].pc.Settle? {
        SettleKeepsBalanced(s, i);
      } else if s.workers[i].pc.Scan? {
        ScanKeepsBalanced(s, i);
      } else {
        WorkKeepsBalanced(s, i);
      }
    case EndSlice(i, _) => MoveKeepsBalanced(s, Apply(s, a), i, s.workers[i].(pc := Settle));
    case EventWake(i) => MoveKeepsBalanced(s, Apply(s, a), i, s.workers[i].(pc := Pc.Scan));
    case StopStep => StopKeepsBalanced(s);
    case Submit(t) =>
      if s.sh.stopped {
        LateSubmitKeepsBalanced(s, t);
      }
    case Create =>
  }

  /** Whether the rules and the number of workers go together: others may submit after Stop
      with one worker, a worker may submit its own coroutine again with two. */
  predicate FewEnough(rules: Rules, cfg: Config) {
    (rules.late ==> WorkerCount(cfg) <= 1) && (rules.again ==> WorkerCount(cfg) <= 2)
  }

  /** Over every run of few enough workers the account is balanced. */
  lemma {:induction false} RunIsBalanced(rules: Rules, cfg: Config, acts: seq<Action>)
    requires IsRun(rules, cfg, acts) && FewEnough(rules, cfg)
    ensures Balanced(After(rules, cfg, acts))
  {
    if acts != [] {
      var before := acts[..|acts| - 1];
      RunIsBalanced(rules, cfg, before);
      RunIsShaped(rules, cfg, before);
      StepKeepsBalanced(After(rules, cfg, before), acts[|acts| - 1]);
    }
  }

  // ------------------------------------------------------------------
  // No worker is stranded

  /** Steps of the workers and of Stop that need nothing from outside. */
  predicate Internal(a: Action) {
    a.Work? || a.EndSlice? || a.StopStep?
  }

  /** Stop is under way and neither it nor any worker can ever move again by itself. */
  ghost predicate Stranded(s: State) {
    && s.sh.stopped && !s.stop.Returned?
    && forall a :: Internal(a) ==> !Enabled(s, a)
  }

  lemma NotStranded(s: State)
    requires Shaped(s) && Balanced(s)
    ensures !Stranded(s)
  {
    if Stranded(s) {
      assert !Enabled(s, StopStep);
      forall i | 0 <= i < |s.workers|
        ensures s.workers[i].pc.Exited? || (s.workers[i].pc.Poll? && s.sh.counter == 0)
      {
        assert !Enabled(s, Work(i)) && !Enabled(s, EndSlice(i, Terminal));
        assert ShapedWorker(s, i);
      }
      OwesNothing(s.workers);
      forall i | 0 <= i < |s.workers| ensures s.workers[i].pc.Exited? {
        NeedsMember(s.workers, s.sh.tasks != [], i);
      }
      assert false;
    }
  }

  // ------------------------------------------------------------------
  // What Stop leaves behind

  /** Once nothing is submitted any more, an idle coroutine that has returned proves the list empty. */
  predicate Quiet(s: State) {
    forall i :: 0 <= i < |s.workers| && s.workers[i].idleDone ==> s.sh.tasks == []
  }

  lemma StepKeepsQuiet(s: State, a: Action)
    requires Enabled(s, a) && Shaped(s) && Quiet(s)
    requires !(s.sh.stopped && Submits(s, a))
    ensures Quiet(Apply(s, a))
  {
    var s' := Apply(s, a);
    forall i | 0 <= i < |s'.workers| && s'.workers[i].idleDone ensures s'.sh.tasks == [] {
      assert ShapedWorker(s, i);
    }
  }

  lemma {:induction false} RunIsQuiet(rules: Rules, cfg: Config, acts: seq<Action>)
    requires IsRun(rules, cfg, acts) && !rules.late && !rules.again
    ensures Quiet(After(rules, cfg, acts))
  {
    if acts != [] {
      var before := acts[..|acts| - 1];
      RunIsQuiet(rules, cfg, before);
      RunIsShaped(rules, cfg, before);
      StepKeepsQuiet(After(rules, cfg, before), acts[|acts| - 1]);
    }
  }

  /** Where nothing is put on the list after Stop, a worker leaves the scheduling function only
      when the list is empty. */
  lemma ExitedMeansEmpty(rules: Rules, cfg: Config, acts: seq<Action>, i: nat)
    requires IsRun(rules, cfg, acts) && !rules.late && !rules.again
    requires var s := After(rules, cfg, acts); i < |s.workers| && s.workers[i].pc.Exited?
    ensures After(rules, cfg, acts).sh.tasks == []
  {
    var s := After(rules, cfg, acts);
    RunIsQuiet(rules, cfg, acts);
    RunIsShaped(rules, cfg, acts);
    assert ShapedWorker(s, i);
  }

  /** The worker will scan the list again, whatever it finds there. */
  predicate WillScan(w: Worker) {
    || w.pc.Scan? || w.pc.Slice? || w.pc.Settle?
    || ((w.pc.Notifying? || w.pc.Dispatch?) && w.hand.Some?)
  }

  predicate SomeoneWillScan(ws: seq<Worker>) {
    exists i :: 0 <= i < |ws| && WillScan(ws[i])
  }

  predicate AllUnbound(tasks: seq<Task>) {
    forall k :: 0 <= k < |tasks| ==> tasks[k].target == ANY_THREAD
  }

  /** Once an idle coroutine has returned, whatever is queued may run anywhere and a worker will come for it. */
  predicate Tended(s: State) {
    (exists i :: 0 <= i < |s.workers| && s.workers[i].idleDone) ==>
      AllUnbound(s.sh.tasks) && (s.sh.tasks != [] ==> SomeoneWillScan(s.workers))
  }

  lemma ScanKeepsTended(s: State, i: nat)
    requires Enabled(s, Work(i)) && s.workers[i].pc.Scan? && Tended(s)
    ensures Tended(ScanStep(s, i))
  {
    var s', tasks := ScanStep(s, i), s.sh.tasks;
    if j :| 0 <= j < |s'.workers| && s'.workers[j].idleDone {
      assert s.workers[j].idleDone;
      if tasks != [] {
        assert MayRun(tasks[0], i + 1) && FirstFor(tasks, i + 1) == 0;
        assert WillScan(s'.workers[i]);
      }
    }
  }

  lemma WorkKeepsTended(s: State, i: nat)
    requires Enabled(s, Work(i)) && Shaped(s) && Tended(s) && !s.workers[i].pc.Scan?
    ensures Tended(WorkStep(s, i))
  {
    var s' := WorkStep(s, i);
    assert ShapedWorker(s, i);
    if (exists j :: 0 <= j < |s'.workers| && s'.workers[j].idleDone) && s'.sh.tasks != [] {
      var j :| 0 <= j < |s'.workers| && s'.workers[j].idleDone;
      assert s.workers[j].idleDone;
      if WillScan(s.workers[i]) {
        assert WillScan(s'.workers[i]);
      } else {
        var k :| 0 <= k < |s.workers| && WillScan(s.workers[k]);
        assert WillScan(s'.workers[k]);
      }
    }
  }

  lemma StepKeepsTended(s: State, a: Action)
    requires Enabled(s, a) && Shaped(s) && Tended(s)
    requires !(s.sh.stopped && a.Submit?)
    ensures Tended(Apply(s, a))
  {
    var s' := Apply(s, a);
    if a.Work? {
      if s.workers[a.i].pc.Scan? {
        ScanKeepsTended(s, a.i);
      } else {
        WorkKeepsTended(s, a.i);
      }
    } else if j :| 0 <= j < |s'.workers| && s'.workers[j].idleDone {
      assert s.workers[j].idleDone && ShapedWorker(s, j);
      if s'.sh.tasks != [] {
        var k :| 0 <= k < |s.workers| && WillScan(s.workers[k]);
        assert WillScan(s'.workers[k]);
      }
    }
  }

  /** Over every run without outside submissions after Stop, re-queues included. */
  lemma {:induction false} RunIsTended(rules: Rules, cfg: Config, acts: seq<Action>)
    requires IsRun(rules, cfg, acts) && !rules.late
    ensures Tended(After(rules, cfg, acts))
  {
    if acts != [] {
      var before := acts[..|acts| - 1];
      RunIsTended(rules, cfg, before);
      RunIsShaped(rules, cfg, before);
      StepKeepsTended(After(rules, cfg, before), acts[|acts| - 1]);
    }
  }
}
