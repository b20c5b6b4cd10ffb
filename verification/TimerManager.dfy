/** The timer manager object: the ordered index, the cached earliest time and the
    kernel alarm, changed in place by adding, cancelling and expiring timers. */
module TimerManagerObject {
  import opened Base
  import opened TimerIndex
  import opened TaskQueue
  import opened SchedulerObject

  predicate HasId(list: seq<Timer>, id: nat) {
    exists i :: 0 <= i < |list| && list[i].id == id
  }

  /** The first timer with this id, or the length of the list. */
  function IndexOf(list: seq<Timer>, id: nat): (i: nat)
    ensures i <= |list|
    ensures i < |list| ==> list[i].id == id
    ensures i < |list| <==> HasId(list, id)
    ensures forall k :: 0 <= k < i ==> list[k].id != id
  {
    if list == [] then 0
    else if list[0].id == id then 0
    else
      assert HasId(list, id) <==> HasId(list[1..], id) by {
        if HasId(list, id) {
          var k :| 0 <= k < |list| && list[k].id == id;
          assert list[1..][k - 1] == list[k];
        }
      }
      1 + IndexOf(list[1..], id)
  }

  function Without(list: seq<Timer>, i: nat): seq<Timer>
    requires i < |list|
  {
    list[..i] + list[i + 1..]
  }

  /** The cached time is the minimum, and the alarm fires then. */
  predicate InStep(list: seq<Timer>, latest: int, alarm: Alarm) {
    && latest == Earliest(list)
    && WellFormed(alarm)
    && (latest == MAX_TIME ==> alarm == Disarmed)
    && (0 < latest < MAX_TIME ==> FiresAt(alarm) == Some(latest))
  }

  /** In other words: the cached time is that of the first timer, which is the earliest, or the largest
      time point; and the alarm is off or set to it, in seconds and nanoseconds. */
  lemma InStepMeans(list: seq<Timer>, latest: int, alarm: Alarm)
    requires Sorted(list) && InStep(list, latest, alarm)
    ensures list == [] ==> latest == 0x7fff_ffff_ffff_ffff && alarm == Disarmed
    ensures list != [] ==> latest == list[0].timeout && forall i :: 0 <= i < |list| ==> latest <= list[i].timeout
    ensures list != [] && 0 < latest < 0x7fff_ffff_ffff_ffff ==>
              alarm == Armed(latest / 1_000_000_000, latest % 1_000_000_000)
  {
  }

  /** The callbacks of some timers as tasks for the scheduler. */
  function Calls(timers: seq<Timer>): (tasks: seq<Task>)
    ensures |tasks| == |timers|
    ensures forall i :: 0 <= i < |timers| ==> tasks[i] == Task(ANY_THREAD, Callback(timers[i].cb))
  {
    seq(|timers|, i requires 0 <= i < |timers| => Task(ANY_THREAD, Callback(timers[i].cb)))
  }

  class TimerManager {
    var timerList: seq<Timer>
    var latestTime: int
    var alarm: Alarm

    predicate Valid()
      reads this
    {
      Sorted(timerList) && InStep(timerList, latestTime, alarm)
    }

    constructor ()
      ensures Valid() && timerList == []
    {
      timerList, latestTime, alarm := [], MAX_TIME, Disarmed;
    }

    method RefreshTimerFd()
      requires WellFormed(alarm) && latestTime == Earliest(timerList)
      modifies this`alarm
      ensures InStep(timerList, latestTime, alarm)
    {
      AlarmFiresExactlyWhen(alarm, latestTime);
      if latestTime != MAX_TIME {
        var sec := WholeSeconds(latestTime);
        var nsec := latestTime - sec * NANOS;
        alarm := SetTime(alarm, sec, nsec);
      } else {
        alarm := SetTime(alarm, 0, 0);
      }
    }

    method AddToHeap(t: Timer) returns (latestNeedUpdate: bool)
      requires Sorted(timerList)
      modifies this`timerList
      ensures timerList == Insert(old(timerList), t)
      ensures latestNeedUpdate <==> old(timerList) == [] || t.timeout < old(timerList)[0].timeout
    {
      latestNeedUpdate := false;
      if timerList == [] || timerList[0].timeout > t.timeout {
        latestNeedUpdate := true;
      }
      timerList := Insert(timerList, t);
    }

    /** The program asserts that the time is not the reserved one. */
    method AddTimer(t: Timer)
      requires Valid() && t.timeout != MAX_TIME
      modifies this
      ensures Valid() && timerList == Insert(old(timerList), t)
    {
      var latestNeedUpdate := AddToHeap(t);
      if latestNeedUpdate {
        latestTime := t.timeout;
        RefreshTimerFd();
      }
    }

    method RemoveFromHeap(i: nat)
      requires Valid() && i < |timerList|
      modifies this
      ensures Valid() && timerList == Without(old(timerList), i)
    {
      var latestNeedUpdate := false;
      if |timerList| == 1 || i == 0 {
        latestNeedUpdate := true;
      }
      timerList := timerList[..i] + timerList[i + 1..];
      if latestNeedUpdate {
        if timerList == [] {
          latestTime := MAX_TIME;
        } else {
          latestTime := timerList[0].timeout;
        }
        RefreshTimerFd();
      }
    }

    method FindById(id: nat) returns (i: nat)
      ensures i == IndexOf(timerList, id)
    {
      i := 0;
      while i < |timerList| && timerList[i].id != id
        invariant i <= |timerList|
        invariant forall k :: 0 <= k < i ==> timerList[k].id != id
      {
        i := i + 1;
      }
    }

    /** `found` is false when the program erases at the end iterator, which is undefined;
        nothing is said about the timers then. */
    method CancelTimer(id: nat) returns (found: bool)
      requires Valid()
      modifies this
      ensures found <==> old(HasId(timerList, id))
      ensures found ==> Valid() && timerList == Without(old(timerList), IndexOf(old(timerList), id))
      ensures found ==> exists i :: 0 <= i < |old(timerList)| && old(timerList)[i].id == id
                                    && (forall k :: 0 <= k < i ==> old(timerList)[k].id != id)
                                    && timerList == old(timerList)[..i] + old(timerList)[i + 1..]
    {
      var i := FindById(id);
      found := i < |timerList|;
      if found {
        RemoveFromHeap(i);
      }
    }

    method HasTimer(id: nat) returns (r: bool)
      ensures r <==> HasId(timerList, id)
    {
      var i := FindById(id);
      r := i < |timerList|;
    }

    /** `asserted` is the value of the assertion made before the cache is updated
        (true when the branch that makes it is not taken). */
    method GetAllExpiredTimers(clock: nat -> int, k: nat, ghost bound: int)
        returns (expired: seq<Timer>, next: nat, asserted: bool)
      requires Valid() && NoNegativeInterval(timerList) && Steady(clock, bound)
      modifies this
      ensures Valid()
      ensures var r := Expire(old(timerList), clock, k, bound);
              expired == r.expired && timerList == r.rest && next == r.next
      ensures asserted <==> old(timerList) == [] || old(timerList)[0].timeout <= clock(k)
    {
      hide Expire, Steady;
      expired, next := [], k;
      ghost var whole := Expire(timerList, clock, k, bound);
      AssertionHoldsExactlyWhen(timerList, clock, k, bound);
      while timerList != [] && timerList[0].timeout <= clock(next)
        invariant Sorted(timerList) && NoNegativeInterval(timerList)
        invariant latestTime == old(latestTime) && alarm == old(alarm)
        invariant var r := Expire(timerList, clock, next, bound);
                  whole.expired == expired + r.expired && whole.rest == r.rest && whole.next == r.next
        decreases Slack(timerList, bound)
      {
        ghost var list, k0 := timerList, next;
        OneRound(list, clock, k0, bound);
        RoundTakesSlack(list, clock, k0, bound);
        MoveBracket(expired, [list[0]],
                    Expire(RoundList(list, clock, k0), clock, k0 + RoundReads(list[0]), bound).expired);
        var t := timerList[0];
        expired := expired + [t];
        if t.IsRepeated() {
          var nextExpiration := t.interval + clock(next + 1);
          var nextTimer := t.(timeout := nextExpiration);
          timerList := Insert(timerList[1..], nextTimer);
          next := next + 2;
          assert nextTimer == Rearmed(list[0], clock(k0 + 1));
          assert timerList == RoundList(list, clock, k0);
        } else {
          timerList := timerList[1..];
          next := next + 1;
          assert timerList == RoundList(list, clock, k0);
        }
      }
      NoRound(timerList, clock, next, bound);
      if timerList != [] {
        next := next + 1;
      }
      asserted := UpdateLatest();
    }

    /** The alarm went off: the callbacks of all expired timers go on the task list in
        the order they expired, each once, with at most one wake-up for all of them. */
    method HandleExpiredTimers(scheduler: Scheduler, clock: nat -> int, k: nat, ghost bound: int)
        returns (next: nat, asserted: bool)
      requires Valid() && NoNegativeInterval(timerList) && Steady(clock, bound)
      modifies this, scheduler`taskList, scheduler.notifier
      ensures Valid()
      ensures asserted <==> old(timerList) == [] || old(timerList)[0].timeout <= clock(k)
      ensures var r := Expire(old(timerList), clock, k, bound);
              && timerList == r.rest && next == r.next
              && scheduler.View() == SubmittedAll(old(scheduler.View()), Calls(r.expired))
              && scheduler.taskList[..|old(scheduler.taskList)|] == old(scheduler.taskList)
              && |scheduler.taskList| == |old(scheduler.taskList)| + |r.expired|
              && forall i :: 0 <= i < |r.expired| ==>
                   scheduler.taskList[|old(scheduler.taskList)| + i] == Task(0, Callback(r.expired[i].cb))
    {
      hide Expire, Steady;
      var expired;
      expired, next, asserted := GetAllExpiredTimers(clock, k, bound);
      ghost var before := scheduler.View();
      SubmittedOneMore(before, [], [], Task(ANY_THREAD, Callback(0)));
      for i := 0 to |expired|
        modifies scheduler`taskList, scheduler.notifier
        invariant scheduler.View() == SubmittedAll(before, Calls(expired)[..i])
      {
        var t := Task(ANY_THREAD, Callback(expired[i].cb));
        SubmittedOneMore(before, Calls(expired)[..i], [], t);
        scheduler.Co(t);
        assert Calls(expired)[..i + 1] == Calls(expired)[..i] + [t];
      }
      assert Calls(expired)[..|expired|] == Calls(expired);
    }

    /** The end of the expiry pass: the cache follows the list. */
    method UpdateLatest() returns (asserted: bool)
      requires Sorted(timerList) && WellFormed(alarm)
      modifies this`latestTime, this`alarm
      ensures Valid()
      ensures asserted <==> timerList == [] || timerList[0].timeout > old(latestTime)
    {
      asserted := true;
      if timerList == [] {
        latestTime := MAX_TIME;
      } else {
        asserted := timerList[0].timeout > latestTime;
        latestTime := timerList[0].timeout;
      }
      RefreshTimerFd();
    }
  }
}
