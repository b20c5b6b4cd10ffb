/** The scheduler as a concurrent protocol: any number of worker threads, one
    thread that calls Stop, and outside threads that submit tasks. A step is one
    critical section, one semaphore operation, or one end of a coroutine slice;
    every interleaving of steps is a run. */
module Protocol {
  import opened Base
  import opened TaskQueue
  import opened CoroutineStates

  /** Where a worker thread is.
      Dormant: the main thread before Stop swaps it in.     Scan: about to lock the list.
      Notifying: owes a wake-up to the others.              Dispatch: about to run what it holds, or to idle.
      Slice: its coroutine is on the processor.             Settle: the slice is over, the task still in hand.
      IdleCheck: about to ask IsStopped.                    Poll: in (or about to enter) epoll_wait.
      Woken: epoll_wait reported the eventfd, not read yet. Exited: left the scheduling function. */
  datatype Pc = Dormant | Scan | Notifying | Dispatch | Slice | Settle | IdleCheck | Poll | Woken | Exited

  /** `temp` is the recycled coroutine that wraps callbacks; `idleDone` says the idle coroutine has returned. */
  datatype Worker = Worker(pc: Pc, hand: Option<Task>, temp: Option<nat>, idleDone: bool)

  datatype StopPc = NotCalled | PoolNotify | MainNotify | MainSwap | MainRun | Joining | Returned

  /** Worker `i` is thread `i + 1`; the first `pool` workers are the thread pool,
      and one more worker, if any, is the thread that created the scheduler.
      `submitted`, `taken` (with `takers`, the thread that took each) and
      `completed` record the whole history. */
  datatype State = State(
    sh: Shared, workers: seq<Worker>, pool: nat, stop: StopPc, cos: seq<CoState>,
    submitted: seq<Task>, taken: seq<Task>, takers: seq<ThreadId>, completed: seq<Task>)

  datatype Config = Config(pool: nat, withMain: bool)

  const FRESH := Worker(Pc.Scan, None, None, false)

  const DORMANT := Worker(Dormant, None, None, false)

  function WorkerCount(cfg: Config): nat {
    cfg.pool + (if cfg.withMain then 1 else 0)
  }

  /** The scheduler just after Start. */
  function Start(cfg: Config): (s: State)
    ensures |s.workers| == WorkerCount(cfg) && s.pool == cfg.pool
    ensures s.sh.tasks == [] && s.sh.counter == 0 && !s.sh.stopped && s.stop == NotCalled && s.cos == []
    ensures s.submitted == [] && s.taken == [] && s.takers == [] && s.completed == []
    ensures forall i :: 0 <= i < |s.workers| ==>
              s.workers[i] == Worker(if i < cfg.pool then Pc.Scan else Dormant, None, None, false)
  {
    State(Shared([], 0, false),
          seq(cfg.pool, i => FRESH) + (if cfg.withMain then [DORMANT] else []),
          cfg.pool, NotCalled, [], [], [], [], [])
  }

  datatype Action =
    | Submit(t: Task)                       // Co called by anyone
    | Create                                // someone constructs a coroutine
    | StopStep                              // the thread inside Stop moves on
    | Work(i: nat)                          // worker i moves on
    | EndSlice(i: nat, outcome: CoState)    // the coroutine on worker i swaps out
    | EventWake(i: nat)                     // epoll_wait returns for a timer or a socket

  predicate HasMain(s: State) {
    |s.workers| > s.pool
  }

  predicate AllExited(ws: seq<Worker>, n: nat) {
    forall i :: 0 <= i < n && i < |ws| ==> ws[i].pc.Exited?
  }

  predicate Enabled(s: State, a: Action) {
    match a
    case Submit(t) => t.job.Routine? ==> t.job.co < |s.cos|
    case Create => true
    case StopStep =>
      (match s.stop
       case MainSwap => HasMain(s)
       case MainRun => HasMain(s) && s.workers[s.pool].pc.Exited?
       case Joining => AllExited(s.workers, s.pool)
       case Returned => false
       case _ => true)
    case Work(i) =>
      && i < |s.workers|
      && (match s.workers[i].pc
          case Dormant => false
          case Slice => false
          case Exited => false
          case Poll => s.sh.counter > 0
          case _ => true)
    case EndSlice(i, outcome) => i < |s.workers| && s.workers[i].pc.Slice? && !outcome.Init?
    case EventWake(i) => i < |s.workers| && s.workers[i].pc.Poll?
  }

  // ------------------------------------------------------------------
  // What each step does

  function SetCo(cos: seq<CoState>, c: nat, st: CoState): (r: seq<CoState>)
    ensures |r| == |cos|
    ensures forall k :: 0 <= k < |cos| ==> r[k] == if k == c then st else cos[k]
  {
    if c < |cos| then cos[c := st] else cos
  }

  /** The coroutine worker `w` runs: the task's own, or the one that wraps its callback. */
  function SliceCo(w: Worker): nat {
    match w.hand
    case Some(Task(_, Routine(c))) => c
    case _ => if w.temp.Some? then w.temp.value else 0
  }

  function SetWorker(s: State, i: nat, w: Worker): State
    requires i < |s.workers|
  {
    s.(workers := s.workers[i := w])
  }

  function ScanStep(s: State, i: nat): State
    requires i < |s.workers|
  {
    var r := TaskQueue.Scan(s.sh.tasks, i + 1);
    var w := s.workers[i].(hand := r.found, pc := if r.rest != [] then Notifying else Dispatch);
    SetWorker(s, i, w).(
    sh := s.sh.(tasks := r.rest),
    taken := if r.found.Some? then s.taken + [r.found.value] else s.taken,
    takers := if r.found.Some? then s.takers + [i + 1] else s.takers)
  }

  function NotifyStep(s: State, i: nat): State
    requires i < |s.workers|
  {
    SetWorker(s, i, s.workers[i].(pc := Dispatch)).(sh := s.sh.(counter := s.sh.counter + 1))
  }

  function DispatchStep(s: State, i: nat): State
    requires i < |s.workers|
  {
    var w := s.workers[i];
    match w.hand
    case Some(Task(_, Routine(c))) =>
      SetWorker(s, i, w.(pc := Slice)).(cos := SetCo(s.cos, c, Exec))
    case Some(Task(_, Callback(_))) =>
      if w.temp.Some? then
        SetWorker(s, i, w.(pc := Slice)).(cos := SetCo(s.cos, w.temp.value, Exec))
      else
        SetWorker(s, i, w.(pc := Slice, temp := Some(|s.cos|))).(cos := s.cos + [Exec])
    case None =>
      SetWorker(s, i, w.(pc := if w.idleDone then Exited else IdleCheck))
  }

  /** The bookkeeping after a slice. A coroutine that asked to be run again is
      submitted anew, bound to no thread. */
  function SettleStep(s: State, i: nat): (s': State)
    requires i < |s.workers|
    ensures |s'.workers| == |s.workers| && s'.workers == s.workers[i := s'.workers[i]] && s'.workers[i].hand.None?
    ensures s'.taken == s.taken
    ensures s'.completed == if s.workers[i].hand.Some? then s.completed + [s.workers[i].hand.value] else s.completed
    ensures |s'.cos| == |s.cos| && forall c :: 0 <= c < |s.cos| && c != SliceCo(s.workers[i]) ==> s'.cos[c] == s.cos[c]
    ensures var c := SliceCo(s.workers[i]);
            var again := Task(ANY_THREAD, Routine(c));
            if c < |s.cos| && s.cos[c].Ready? then
              s'.submitted == s.submitted + [again] && s'.sh == Submitted(s.sh, again) && s'.cos[c].Ready?
            else
              && s'.submitted == s.submitted && s'.sh == s.sh
              && (c < |s.cos| ==> (s'.cos[c].Hold? <==> !Finished(s.cos[c])) && !s'.cos[c].Exec?)
    ensures s'.workers[i].temp.Some? ==> s'.workers[i].temp == s.workers[i].temp
  {
    var w := s.workers[i];
    var c := SliceCo(w);
    var wraps := !(w.hand.Some? && w.hand.value.job.Routine?);
    var st := if c < |s.cos| then s.cos[c] else Init;
    var s1 := s.(completed := if w.hand.Some? then s.completed + [w.hand.value] else s.completed);
    var w1 := w.(pc := Pc.Scan, hand := None);
    if st.Ready? then
      var t := Task(ANY_THREAD, Routine(c));
      SetWorker(s1, i, if wraps then w1.(temp := None) else w1).(
      sh := Submitted(s.sh, t), submitted := s.submitted + [t])
    else if Finished(st) then
      SetWorker(s1, i, w1).(cos := if wraps then SetCo(s.cos, c, Init) else s.cos)
    else
      SetWorker(s1, i, if wraps then w1.(temp := None) else w1).(cos := SetCo(s.cos, c, Hold))
  }

  function IdleCheckStep(s: State, i: nat): State
    requires i < |s.workers|
  {
    var w := s.workers[i];
    SetWorker(s, i, if s.sh.stopped && s.sh.tasks == [] then w.(pc := Pc.Scan, idleDone := true)
                    else w.(pc := Poll))
  }

  function ReadStep(s: State, i: nat): State
    requires i < |s.workers|
  {
    SetWorker(s, i, s.workers[i].(pc := Pc.Scan)).(sh := s.sh.(counter := Drained(s.sh.counter)))
  }

  /** One step of worker `i`: it moves no other worker and never the Stop thread,
      and only a scan or a settlement touches the list and the history. */
  function WorkStep(s: State, i: nat): (s': State)
    requires i < |s.workers|
    ensures |s'.workers| == |s.workers| && s'.workers == s.workers[i := s'.workers[i]]
    ensures s'.stop == s.stop && s'.pool == s.pool && s'.sh.stopped == s.sh.stopped
    ensures !s.workers[i].pc.Scan? ==> s'.taken == s.taken && s'.takers == s.takers
    ensures !s.workers[i].pc.Scan? && !s.workers[i].pc.Settle? ==>
              && s'.sh.tasks == s.sh.tasks && s'.submitted == s.submitted && s'.completed == s.completed
              && s'.workers[i].hand == s.workers[i].hand
  {
    match s.workers[i].pc
    case Scan => ScanStep(s, i)
    case Notifying => NotifyStep(s, i)
    case Dispatch => DispatchStep(s, i)
    case Settle => SettleStep(s, i)
    case IdleCheck => IdleCheckStep(s, i)
    case Poll => SetWorker(s, i, s.workers[i].(pc := Woken))
    case Woken => ReadStep(s, i)
    case _ => s
  }

  function StopAdvance(s: State): State {
    match s.stop
    case NotCalled => s.(stop := PoolNotify, sh := s.sh.(stopped := true))
    case PoolNotify =>
      s.(stop := if HasMain(s) then MainNotify else Joining, sh := s.sh.(counter := s.sh.counter + s.pool))
    case MainNotify => s.(stop := MainSwap, sh := s.sh.(counter := s.sh.counter + 1))
    case MainSwap =>
      if HasMain(s) then SetWorker(s, s.pool, s.workers[s.pool].(pc := Pc.Scan)).(stop := MainRun) else s
    case MainRun => s.(stop := Joining)
    case Joining => s.(stop := Returned)
    case Returned => s
  }

  function Apply(s: State, a: Action): State
    requires Enabled(s, a)
  {
    match a
    case Submit(t) => s.(sh := Submitted(s.sh, t), submitted := s.submitted + [t])
    case Create => s.(cos := s.cos + [Init])
    case StopStep => StopAdvance(s)
    case Work(i) => WorkStep(s, i)
    case EndSlice(i, outcome) =>
      SetWorker(s, i, s.workers[i].(pc := Settle)).(cos := SetCo(s.cos, SliceCo(s.workers[i]), outcome))
    case EventWake(i) => SetWorker(s, i, s.workers[i].(pc := Pc.Scan))
  }

  // ------------------------------------------------------------------
  // Runs, and the rules an environment may promise to keep

  /** `late`: others may still submit tasks after Stop was called.
      `again`: a worker may still submit its own coroutine again after that, when it yielded to ready.
      `wild`: a submitter may pass any coroutine, not only one that is at rest.
      The program itself forbids none of these. */
  datatype Rules = Rules(late: bool, again: bool, wild: bool)

  /** Steps that put a task on the list: Co itself, and the re-queue of a ready coroutine. */
  predicate Submits(s: State, a: Action) {
    match a
    case Submit(_) => true
    case Work(i) =>
      && i < |s.workers| && s.workers[i].pc.Settle?
      && var c := SliceCo(s.workers[i]); c < |s.cos| && s.cos[c].Ready?
    case _ => false
  }

  predicate Queued(tasks: seq<Task>, c: nat) {
    exists k :: 0 <= k < |tasks| && tasks[k].job == Routine(c)
  }

  predicate InHand(w: Worker, c: nat) {
    w.hand.Some? && w.hand.value.job == Routine(c)
  }

  predicate Holds(w: Worker, c: nat) {
    InHand(w, c) || w.temp == Some(c)
  }

  predicate Held(ws: seq<Worker>, c: nat) {
    exists i :: 0 <= i < |ws| && Holds(ws[i], c)
  }

  /** A coroutine at rest: it can run, it is on no list, and no worker has hold of it. */
  predicate AtRest(s: State, c: nat) {
    c < |s.cos| && Runnable(s.cos[c]) && !Queued(s.sh.tasks, c) && !Held(s.workers, c)
  }

  predicate Allowed(rules: Rules, s: State, a: Action) {
    && (!rules.late && s.sh.stopped ==> !a.Submit?)
    && (!rules.again && s.sh.stopped ==> !(a.Work? && Submits(s, a)))
    && (!rules.wild && a.Submit? && a.t.job.Routine? ==> AtRest(s, a.t.job.co))
  }

  predicate CanStep(rules: Rules, s: State, a: Action) {
    Enabled(s, a) && Allowed(rules, s, a)
  }

  /** The step sequence `acts` is a run of the scheduler under `rules`. */
  predicate IsRun(rules: Rules, cfg: Config, acts: seq<Action>)
    decreases |acts|, 0
  {
    acts == [] ||
    var before := acts[..|acts| - 1];
    IsRun(rules, cfg, before) && CanStep(rules, After(rules, cfg, before), acts[|acts| - 1])
  }

  /** The state a run leads to. */
  function After(rules: Rules, cfg: Config, acts: seq<Action>): State
    requires IsRun(rules, cfg, acts)
    decreases |acts|, 1
  {
    if acts == [] then Start(cfg)
    else Apply(After(rules, cfg, acts[..|acts| - 1]), acts[|acts| - 1])
  }

  lemma Extend(rules: Rules, cfg: Config, acts: seq<Action>, a: Action)
    requires IsRun(rules, cfg, acts)
    requires CanStep(rules, After(rules, cfg, acts), a)
    ensures IsRun(rules, cfg, acts + [a])
    ensures After(rules, cfg, acts + [a]) == Apply(After(rules, cfg, acts), a)
  {
    assert (acts + [a])[..|acts|] == acts;
  }

  ghost predicate Reached(rules: Rules, cfg: Config, s: State) {
    exists acts :: IsRun(rules, cfg, acts) && After(rules, cfg, acts) == s
  }

  lemma StartIsReached(rules: Rules, cfg: Config)
    ensures Reached(rules, cfg, Start(cfg))
  {
    assert IsRun(rules, cfg, []) && After(rules, cfg, []) == Start(cfg);
  }

  lemma Step(rules: Rules, cfg: Config, s: State, a: Action)
    requires Reached(rules, cfg, s) && CanStep(rules, s, a)
    ensures Reached(rules, cfg, Apply(s, a))
  {
    var acts :| IsRun(rules, cfg, acts) && After(rules, cfg, acts) == s;
    Extend(rules, cfg, acts, a);
  }

  /** Rules that forbid more have fewer runs. */
  lemma {:induction false} Relax(strict: Rules, loose: Rules, cfg: Config, acts: seq<Action>)
    requires IsRun(strict, cfg, acts)
    requires (strict.late ==> loose.late) && (strict.again ==> loose.again) && (strict.wild ==> loose.wild)
    ensures IsRun(loose, cfg, acts) && After(loose, cfg, acts) == After(strict, cfg, acts)
  {
    if acts != [] {
      Relax(strict, loose, cfg, acts[..|acts| - 1]);
    }
  }
}
