/** The pending-task list of a scheduler, the wake-up semaphore, and the three
    critical sections that touch them: submitting a task, picking a task, and
    asking whether the scheduler may shut down. */
module TaskQueue {
  import opened Base

  type ThreadId = nat

  /** A task bound to no thread carries this id. */
  const ANY_THREAD: ThreadId := 0

  /** What a task runs: an existing coroutine, or a plain callback. */
  datatype Job = Routine(co: nat) | Callback(cb: nat)

  datatype Task = Task(target: ThreadId, job: Job)

  /** What all threads share: the task list, the eventfd counter, the stop flag. */
  datatype Shared = Shared(tasks: seq<Task>, counter: nat, stopped: bool)

  predicate MayRun(t: Task, me: ThreadId) {
    t.target == ANY_THREAD || t.target == me
  }

  /** The index of the first task thread `me` may run, or the length of the list. */
  function FirstFor(tasks: seq<Task>, me: ThreadId): (i: nat)
    ensures i <= |tasks|
    ensures forall k :: 0 <= k < i ==> !MayRun(tasks[k], me)
    ensures i < |tasks| ==> MayRun(tasks[i], me)
  {
    if tasks == [] then 0
    else if MayRun(tasks[0], me) then 0
    else 1 + FirstFor(tasks[1..], me)
  }

  /** The outcome of one scan of the list by thread `me`. */
  datatype ScanResult = ScanResult(found: Option<Task>, rest: seq<Task>)

  function Scan(tasks: seq<Task>, me: ThreadId): ScanResult {
    var i := FirstFor(tasks, me);
    if i < |tasks| then ScanResult(Some(tasks[i]), tasks[..i] + tasks[i + 1..])
    else ScanResult(None, tasks)
  }

  /** Appending a task posts one wake-up exactly when the list was empty. */
  function Submitted(sh: Shared, t: Task): Shared {
    Shared(sh.tasks + [t], if sh.tasks == [] then sh.counter + 1 else sh.counter, sh.stopped)
  }

  /** The same for several tasks in a row: they post one wake-up at most between them. */
  function SubmittedAll(sh: Shared, tasks: seq<Task>): Shared {
    Shared(sh.tasks + tasks, sh.counter + (if sh.tasks == [] && tasks != [] then 1 else 0), sh.stopped)
  }

  lemma SubmittedOneMore(sh: Shared, tasks: seq<Task>, more: seq<Task>, t: Task)
    ensures SubmittedAll(sh, []) == sh
    ensures Submitted(sh, t) == SubmittedAll(sh, [t])
    ensures SubmittedAll(SubmittedAll(sh, tasks), more) == SubmittedAll(sh, tasks + more)
    ensures Submitted(SubmittedAll(sh, tasks), t) == SubmittedAll(sh, tasks + [t])
  {
    assert sh.tasks + [] == sh.tasks;
    MoveBracket(sh.tasks, tasks, more);
    MoveBracket(sh.tasks, tasks, [t]);
  }

  /** A non-blocking semaphore read: it takes one unit, or nothing at zero. */
  function Drained(counter: nat): nat {
    if counter > 0 then counter - 1 else 0
  }

  // ------------------------------------------------------------------
  // Order within one target class

  /** The tasks of one target class, in list order. */
  function OfTarget(tasks: seq<Task>, target: ThreadId): seq<Task> {
    if tasks == [] then []
    else (if tasks[0].target == target then [tasks[0]] else []) + OfTarget(tasks[1..], target)
  }

  lemma {:induction false} OfTargetConcat(a: seq<Task>, b: seq<Task>, target: ThreadId)
    ensures OfTarget(a + b, target) == OfTarget(a, target) + OfTarget(b, target)
  {
    if a == [] {
      assert a + b == b;
    } else {
      OfTargetConcat(a[1..], b, target);
      assert (a + b)[1..] == a[1..] + b;
      MoveBracket(if a[0].target == target then [a[0]] else [], OfTarget(a[1..], target), OfTarget(b, target));
    }
  }

  lemma {:induction false} OfTargetNone(a: seq<Task>, target: ThreadId)
    requires forall k :: 0 <= k < |a| ==> a[k].target != target
    ensures OfTarget(a, target) == []
  {
    if a != [] {
      OfTargetNone(a[1..], target);
    }
  }

  /** A scan hands out the oldest task of the class it picks from and leaves
      every other class as it was; nothing is lost or duplicated. */
  lemma ScanIsFifo(tasks: seq<Task>, me: ThreadId, target: ThreadId)
    ensures var r := Scan(tasks, me);
            var got := if r.found.Some? then [r.found.value] else [];
            && OfTarget(tasks, target) == OfTarget(got, target) + OfTarget(r.rest, target)
            && multiset(tasks) == multiset(got) + multiset(r.rest)
            && (r.found.Some? ==> MayRun(r.found.value, me))
            && (r.found.None? ==> forall t :: t in tasks ==> !MayRun(t, me))
  {
    var i := FirstFor(tasks, me);
    if i < |tasks| {
      var pre, t, post := tasks[..i], tasks[i], tasks[i + 1..];
      assert tasks == pre + [t] + post;
      OfTargetConcat(pre + [t], post, target);
      OfTargetConcat(pre, [t], target);
      OfTargetConcat(pre, post, target);
      if t.target == target {
        OfTargetNone(pre, target);
      } else {
        assert OfTarget([t], target) == [];
      }
    }
  }
}
