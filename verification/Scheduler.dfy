/** The lock-protected methods of the scheduler object, in the form the program
    has them, each proved to do what the wake-up protocol assumes of it. */
module SchedulerObject {
  import opened Base
  import opened TaskQueue

  /** The eventfd opened as a semaphore: writes add, reads take one. */
  class Notifier {
    var counter: nat

    constructor ()
      ensures counter == 0
    {
      counter := 0;
    }

    method Notify(num: nat)
      modifies this
      ensures counter == old(counter) + num
    {
      counter := counter + num;
    }

    /** `ok` is false when the read found nothing to take. */
    method HandleEventFd() returns (ok: bool)
      modifies this
      ensures ok == (old(counter) > 0)
      ensures counter == Drained(old(counter)) == if ok then old(counter) - 1 else 0
    {
      ok := counter > 0;
      if ok {
        counter := counter - 1;
      }
    }
  }

  /** `t` is the first of the tasks that are bound to no thread or to `me`, and `rest` is the list without it. */
  ghost predicate TakenFrom(tasks: seq<Task>, t: Task, me: ThreadId, rest: seq<Task>) {
    exists i :: 0 <= i < |tasks| && tasks[i] == t && (t.target == 0 || t.target == me)
                && (forall k :: 0 <= k < i ==> tasks[k].target != 0 && tasks[k].target != me)
                && rest == tasks[..i] + tasks[i + 1..]
  }

  class Scheduler {
    var taskList: seq<Task>
    var stopped: bool
    const notifier: Notifier

    constructor ()
      ensures fresh(notifier)
      ensures View() == Shared([], 0, true)
    {
      taskList, stopped := [], true;
      notifier := new Notifier();
    }

    function View(): Shared
      reads this, notifier
    {
      Shared(taskList, notifier.counter, stopped)
    }

    method AddTaskNoLock(t: Task) returns (needNotify: bool)
      modifies this`taskList
      ensures taskList == old(taskList) + [t]
      ensures needNotify <==> old(taskList) == []
    {
      needNotify := false;
      if taskList == [] {
        needNotify := true;
      }
      taskList := taskList + [t];
    }

    method Co(t: Task)
      modifies this`taskList, notifier
      ensures View() == Submitted(old(View()), t)
      ensures taskList == old(taskList) + [t] && stopped == old(stopped)
      ensures notifier.counter == old(notifier.counter) + (if old(taskList) == [] then 1 else 0)
    {
      var needNotify := AddTaskNoLock(t);
      if needNotify {
        notifier.Notify(1);
      }
    }

    /** The critical section of the worker loop. The flag it computes on the way
        is true exactly when tasks are left behind. */
    method TakeTask(me: ThreadId) returns (current: Option<Task>, needNotify: bool)
      modifies this`taskList
      ensures var r := Scan(old(taskList), me); current == r.found && taskList == r.rest
      ensures match current
              case None => taskList == old(taskList) && forall t :: t in taskList ==> t.target != 0 && t.target != me
              case Some(t) => TakenFrom(old(taskList), t, me, taskList)
      ensures needNotify <==> taskList != []
    {
      current, needNotify := None, false;
      var i := 0;
      while i < |taskList|
        invariant 0 <= i <= |taskList|
        invariant taskList == old(taskList) && current == None
        invariant needNotify <==> i > 0
        invariant forall k :: 0 <= k < i ==> !MayRun(taskList[k], me)
      {
        if taskList[i].target != ANY_THREAD && taskList[i].target != me {
          needNotify := true;
          i := i + 1;
          continue;
        }
        assert FirstFor(taskList, me) == i;
        current := Some(taskList[i]);
        taskList := taskList[..i] + taskList[i + 1..];
        break;
      }
      needNotify := needNotify || taskList != [];
    }

    method IsStopped() returns (r: bool)
      ensures r <==> View().stopped && View().tasks == []
    {
      r := stopped && taskList == [];
    }
  }
}
