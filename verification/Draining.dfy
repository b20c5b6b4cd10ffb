/** How a shutdown ends: when Stop returns every submitted task has run, and with few workers it is
    never stranded on the way. Also the measure that falls with every step of a worker. */
module Draining {
  import opened Base
  import opened TaskQueue
  import opened Protocol
  import opened WorkerShape
  import opened Shutdown
  import opened TaskHistory

  predicate IsDrained(s: State) {
    s.sh.tasks == [] && multiset(s.completed) == multiset(s.submitted) && AllExited(s.workers, |s.workers|)
  }

  /** When Stop has returned, and nobody else submitted anything after it was called, the list
      is empty and what was completed is what was submitted, the coroutines that the workers
      submitted again among it. */
  lemma StopReturnsDrained(rules: Rules, cfg: Config, acts: seq<Action>)
    requires IsRun(rules, cfg, acts) && !rules.late
    requires After(rules, cfg, acts).stop.Returned?
    requires WorkerCount(cfg) > 0
    ensures IsDrained(After(rules, cfg, acts))
  {
    var s := After(rules, cfg, acts);
    RunIsShaped(rules, cfg, acts);
    forall i | 0 <= i < |s.workers| ensures s.workers[i].pc.Exited? && s.workers[i].hand.None? {
      assert ShapedWorker(s, i);
    }
    RunIsTended(rules, cfg, acts);
    assert s.workers[0].idleDone && !SomeoneWillScan(s.workers) by {
      assert ShapedWorker(s, 0);
    }
    forall t ensures multiset(s.completed)[t] == multiset(s.submitted)[t] {
      CountedInRun(rules, cfg, acts, t);
      NoHands(s.workers, t);
    }
  }

  /** As long as Stop has not returned, Stop or some worker has a step of its own to make. */
  lemma ShutdownIsNeverStuck(rules: Rules, cfg: Config, acts: seq<Action>)
    requires IsRun(rules, cfg, acts) && FewEnough(rules, cfg)
    ensures !Stranded(After(rules, cfg, acts))
  {
    RunIsShaped(rules, cfg, acts);
    RunIsBalanced(rules, cfg, acts);
    NotStranded(After(rules, cfg, acts));
  }

  // ------------------------------------------------------------------
  // How far a worker is from its next task

  /** How many steps a worker may still take before it exits or takes a task, with tasks `left` or none. */
  function Rank(w: Worker, left: bool): (r: nat)
    ensures r <= 12
  {
    match w.pc
    case Dormant => 12
    case Notifying => if w.hand.Some? then (if left then 7 else 11) else if w.idleDone then 2 else if left then 8 else 6
    case Dispatch => if w.hand.Some? then (if left then 6 else 10) else if w.idleDone then 1 else if left then 7 else 5
    case Slice => if left then 5 else 9
    case Settle => if left then 4 else 8
    case Poll => if left then 5 else 9
    case Woken => if left then 4 else 8
    case IdleCheck => if left then 6 else 4
    case Scan => if w.idleDone || left then 3 else 7
    case Exited => 0
  }

  function Ranks(ws: seq<Worker>, left: bool): (r: nat)
    ensures r <= 12 * |ws|
  {
    if ws == [] then 0 else Ranks(ws[..|ws| - 1], left) + Rank(ws[|ws| - 1], left)
  }

  lemma {:induction false} RanksUpdate(ws: seq<Worker>, left: bool, i: nat, w: Worker)
    requires i < |ws|
    ensures Ranks(ws[i := w], left) == Ranks(ws, left) - Rank(ws[i], left) + Rank(w, left)
  {
    var last := |ws| - 1;
    if i < last {
      RanksUpdate(ws[..last], left, i, w);
      assert ws[i := w][..last] == ws[..last][i := w];
    } else {
      assert ws[i := w][..last] == ws[..last];
    }
  }

  function StopRank(stop: StopPc): nat {
    match stop
    case NotCalled => 6
    case PoolNotify => 5
    case MainNotify => 4
    case MainSwap => 3
    case MainRun => 2
    case Joining => 1
    case Returned => 0
  }
}
