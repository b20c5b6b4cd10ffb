/** No wake-up is ever lost: whenever tasks are queued, a token is in the
    semaphore or some awake worker is on its way to scan the list again. */
module NoLostWakeup {
  import opened Base
  import opened TaskQueue
  import opened Protocol

  /** A worker that will scan the list, or post a wake-up, before it can block. */
  predicate OnItsWay(w: Worker) {
    match w.pc
    case Scan => true
    case Notifying => true
    case Dispatch => w.hand.Some?
    case Slice => true
    case Settle => true
    case Woken => true
    case _ => false
  }

  predicate SomeoneOnItsWay(ws: seq<Worker>) {
    exists i :: 0 <= i < |ws| && OnItsWay(ws[i])
  }

  predicate Covered(s: State) {
    s.sh.tasks != [] ==> s.sh.counter > 0 || SomeoneOnItsWay(s.workers)
  }

  lemma StillOnItsWay(ws: seq<Worker>, i: nat, w: Worker)
    requires i < |ws|
    requires SomeoneOnItsWay(ws)
    requires OnItsWay(ws[i]) ==> OnItsWay(w)
    ensures SomeoneOnItsWay(ws[i := w])
  {
    var k :| 0 <= k < |ws| && OnItsWay(ws[k]);
    assert OnItsWay(ws[i := w][k]);
  }

  lemma NowOnItsWay(ws: seq<Worker>, i: nat, w: Worker)
    requires i < |ws| && OnItsWay(w)
    ensures SomeoneOnItsWay(ws[i := w])
  {
    assert OnItsWay(ws[i := w][i]);
  }

  lemma WorkKeepsCovered(s: State, i: nat)
    requires Enabled(s, Work(i)) && Covered(s)
    ensures Covered(WorkStep(s, i))
  {
    var s' := WorkStep(s, i);
    var w' := s'.workers[i];
    assert s'.workers == s.workers[i := w'];
    if OnItsWay(w') {
      NowOnItsWay(s.workers, i, w');
    } else if SomeoneOnItsWay(s.workers) && !OnItsWay(s.workers[i]) {
      StillOnItsWay(s.workers, i, w');
    }
  }

  lemma StepKeepsCovered(s: State, a: Action)
    requires Enabled(s, a) && Covered(s)
    ensures Covered(Apply(s, a))
  {
    match a
    case Work(i) => WorkKeepsCovered(s, i);
    case EndSlice(i, _) => NowOnItsWay(s.workers, i, s.workers[i].(pc := Settle));
    case EventWake(i) => NowOnItsWay(s.workers, i, s.workers[i].(pc := Pc.Scan));
    case StopStep =>
      if s.stop.MainSwap? && HasMain(s) {
        NowOnItsWay(s.workers, s.pool, s.workers[s.pool].(pc := Pc.Scan));
      }
    case _ =>
  }

  lemma {:induction false} NoWakeupIsLost(rules: Rules, cfg: Config, acts: seq<Action>)
    requires IsRun(rules, cfg, acts)
    ensures Covered(After(rules, cfg, acts))
  {
    if acts != [] {
      var before := acts[..|acts| - 1];
      NoWakeupIsLost(rules, cfg, before);
      StepKeepsCovered(After(rules, cfg, before), acts[|acts| - 1]);
    }
  }

  /** What it is for: if no worker is awake on its way to the list while tasks
      are queued, the semaphore is not empty, so no worker that polls is blocked:
      each of them can step. */
  lemma NoWorkerSleepsOnQueuedTasks(rules: Rules, cfg: Config, acts: seq<Action>, i: nat)
    requires IsRun(rules, cfg, acts)
    requires var s := After(rules, cfg, acts);
             s.sh.tasks != [] && !SomeoneOnItsWay(s.workers) && i < |s.workers| && s.workers[i].pc.Poll?
    ensures Enabled(After(rules, cfg, acts), Work(i))
  {
    NoWakeupIsLost(rules, cfg, acts);
  }
}
