/** What each step of the protocol comes to, in terms of the program: tokens posted and taken, the
    order of Stop, the way of a worker round its loop, and how the end of a slice is settled. */
module Steps {
  import opened Base
  import opened TaskQueue
  import opened CoroutineStates
  import opened Protocol
  import opened WorkerShape

  /** Tokens come from a submission to the empty list, from a worker that leaves tasks behind, and
      from Stop, one for each thread of the pool and one for the thread that calls it; a read takes one. */
  lemma TokensPosted(s: State, a: Action)
    requires Enabled(s, a)
    ensures Apply(s, a).sh.counter - s.sh.counter ==
            match a
            case Submit(_) => if s.sh.tasks == [] then 1 else 0
            case StopStep => if s.stop.PoolNotify? then s.pool else if s.stop.MainNotify? then 1 else 0
            case Work(i) =>
              if s.workers[i].pc.Notifying? then 1
              else if s.workers[i].pc.Woken? && s.sh.counter > 0 then -1
              else if Submits(s, a) && s.sh.tasks == [] then 1
              else 0
            case _ => 0
  {
  }

  /** Stop sets the flag first, posts its wake-ups, swaps the main coroutine's worker in when there is
      one, waits for it, and joins the pool; it changes nothing else. */
  lemma StopInOrder(s: State)
    requires Enabled(s, StopStep) && Shaped(s)
    ensures var s' := Apply(s, StopStep);
            && s'.sh.stopped && s'.sh.tasks == s.sh.tasks && s'.cos == s.cos
            && s'.submitted == s.submitted && s'.taken == s.taken && s'.completed == s.completed
            && (match s.stop
                case NotCalled => !s.sh.stopped && s'.stop == PoolNotify
                case PoolNotify => s'.stop == if |s.workers| > s.pool then MainNotify else Joining
                case MainNotify => s'.stop == MainSwap
                case MainSwap => s'.stop == MainRun && s.workers[s.pool].pc.Dormant?
                case MainRun => s'.stop == Joining && s.workers[s.pool].pc.Exited?
                case Joining => s'.stop == Returned && forall i :: 0 <= i < s.pool ==> s.workers[i].pc.Exited?
                case Returned => false)
            && s'.workers == if s.stop.MainSwap? then s.workers[s.pool := s.workers[s.pool].(pc := Pc.Scan)]
                             else s.workers
  {
    if s.stop.MainSwap? {
      assert ShapedWorker(s, s.pool);
    }
  }

  /** The first part of the loop: scan, pass the wake-up on, run what was taken or idle. */
  lemma LoopGoesOn(s: State, i: nat)
    requires Enabled(s, Work(i)) && ShapedWorker(s, i)
    ensures var s' := Apply(s, Work(i));
            var (w, w') := (s.workers[i], s'.workers[i]);
            match w.pc
            case Scan =>
              && w'.pc == (if s'.sh.tasks != [] then Notifying else Dispatch)
              && (w'.hand.Some? ==> s'.taken == s.taken + [w'.hand.value] && s'.takers == s.takers + [i + 1])
            case Notifying => w' == w.(pc := Dispatch)
            case Dispatch =>
              (match w.hand
               case None => w' == w.(pc := if w.idleDone then Exited else IdleCheck) && s'.cos == s.cos
               case Some(Task(_, Routine(c))) =>
                 && w' == w.(pc := Slice) && |s'.cos| == |s.cos|
                 && forall d :: 0 <= d < |s.cos| ==> s'.cos[d] == if d == c then Exec else s.cos[d]
               case Some(Task(_, Callback(_))) =>
                 w' == w.(pc := Slice, temp := if w.temp.Some? then w.temp else Some(|s.cos|)))
            case IdleCheck =>
              w' == if s.sh.stopped && s.sh.tasks == [] then w.(pc := Pc.Scan, idleDone := true) else w.(pc := Poll)
            case Poll => w' == w.(pc := Woken)
            case Woken => w' == w.(pc := Pc.Scan)
            case Settle => w'.pc == Pc.Scan && w'.hand == None && w'.idleDone == w.idleDone
            case _ => true
  {
  }

  /** The steps of others: a submission goes to the end of the list, a new coroutine is in its initial
      state, and a timer or a socket sends a worker from epoll_wait to its scan without a token. */
  lemma OthersStep(s: State, a: Action)
    requires Enabled(s, a) && (a.Submit? || a.Create? || a.EventWake?)
    ensures var s' := Apply(s, a);
            && s'.sh.stopped == s.sh.stopped && s'.stop == s.stop && s'.taken == s.taken && s'.completed == s.completed
            && s'.sh.tasks == (if a.Submit? then s.sh.tasks + [a.t] else s.sh.tasks)
            && s'.submitted == (if a.Submit? then s.submitted + [a.t] else s.submitted)
            && s'.cos == (if a.Create? then s.cos + [Init] else s.cos)
            && s'.workers == if a.EventWake? then s.workers[a.i := s.workers[a.i].(pc := Pc.Scan)] else s.workers
  {
  }

  /** A callback runs in the worker's recycled wrapper, or in a new one when it has none. */
  lemma WrapperIsRecycled(s: State, i: nat)
    requires Enabled(s, Work(i)) && s.workers[i].pc.Dispatch?
    requires s.workers[i].hand.Some? && s.workers[i].hand.value.job.Callback?
    requires s.workers[i].temp.Some? ==> s.workers[i].temp.value < |s.cos|
    ensures var s' := Apply(s, Work(i));
            match s.workers[i].temp
            case None => s'.cos == s.cos + [Exec]
            case Some(c) => s'.cos == s.cos[c := Exec]
  {
  }

  /** From the end of a slice to the next scan. A task that yielded to ready is on the list again,
      bound to no thread; one that yielded to hold is parked; one that ended is neither. */
  lemma SliceIsSettled(s: State, i: nat, op: Op)
    requires i < |s.workers| && s.workers[i].pc.Slice? && SliceCo(s.workers[i]) < |s.cos|
    requires op.YieldToHold? || op.YieldToReady? || op.End?
    ensures var c := SliceCo(s.workers[i]);
            var s1 := Apply(s, EndSlice(i, Next(op)));
            var s' := Apply(s1, Work(i));
            if op.YieldToReady? then
              && s'.cos[c].Ready? && s'.submitted == s.submitted + [Task(0, Routine(c))]
              && s'.sh.tasks == s.sh.tasks + [Task(0, Routine(c))]
            else
              && s'.submitted == s.submitted && s'.sh.tasks == s.sh.tasks
              && (s'.cos[c].Hold? <==> op.YieldToHold?) && !s'.cos[c].Ready? && !s'.cos[c].Exec?
  {
  }

  /** The wrapper of a callback that ended is reset for the next; one that yielded goes its own way. */
  lemma WrapperIsSettled(s: State, i: nat, op: Op)
    requires i < |s.workers| && s.workers[i].pc.Slice? && s.workers[i].hand.Some?
    requires s.workers[i].hand.value.job.Callback? && s.workers[i].temp.Some?
    requires s.workers[i].temp.value < |s.cos|
    requires op.YieldToHold? || op.YieldToReady? || op.End?
    ensures var c := s.workers[i].temp.value;
            var s' := Apply(Apply(s, EndSlice(i, Next(op))), Work(i));
            if op.End? then s'.workers[i].temp == Some(c) && s'.cos[c].Init?
            else s'.workers[i].temp == None
  {
  }
}
