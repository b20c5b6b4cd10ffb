/** The poller object: one event object per file descriptor, changed in place, the kernel's epoll
    set beside it, and what it reports passed on to the scheduler, its semaphore and its timers. */
module EpollPollerObject {
  import opened Base
  import opened TaskQueue
  import opened SchedulerObject
  import opened EventRegistry
  import TimerIndex
  import TimerManagerObject

  class Event {
    const fd: int
    var interest: bv32
    var state: StateIndex
    var read: Handler
    var write: Handler

    constructor (fd: int)
      ensures this.fd == fd
      ensures interest == 0 && state == New && read == NO_HANDLER && write == NO_HANDLER
    {
      this.fd := fd;
      interest, state, read, write := 0, New, NO_HANDLER, NO_HANDLER;
    }
  }

  type Registry = map<int, Entry>

  function EntryOf(reg: Registry, fd: int): Entry {
    if fd in reg then reg[fd] else UNKNOWN
  }

  /** The task a hand-over puts on the list. Without a handler the program stops at its assertion. */
  function TaskOf(work: Work): seq<Task> {
    match work
    case Call(func) => [Task(ANY_THREAD, Callback(func))]
    case Resume(co) => [Task(ANY_THREAD, Routine(co))]
    case Nothing => []
  }

  function TasksOf(work: seq<Work>): seq<Task> {
    if work == [] then [] else TasksOf(work[..|work| - 1]) + TaskOf(work[|work| - 1])
  }

  /** Ready events put the reader's task on the list, and then the writer's. */
  lemma TasksHandedOver(e: Entry, events: bv32)
    ensures TasksOf(HandedOver(e, events).0)
         == (if RunsReader(events) then TaskOf(Taken(e.read).0) else [])
            + (if RunsWriter(events) then TaskOf(Taken(e.write).0) else [])
  {
    var r, w := Taken(e.read).0, Taken(e.write).0;
    hide Taken, TaskOf, RunsReader, RunsWriter;
    var work := HandedOver(e, events).0;
    assert TasksOf([r]) == TaskOf(r) && TasksOf([w]) == TaskOf(w) by {
      assert [r][..0] == [] && [w][..0] == [];
    }
    if RunsReader(events) && RunsWriter(events) {
      assert work == [r, w] && work[..1] == [r];
    } else {
      assert work == if RunsReader(events) then [r] else if RunsWriter(events) then [w] else [];
    }
  }

  // ------------------------------------------------------------------
  // What one batch of reports does

  /** What epoll_wait reports: the semaphore, the alarm, or a descriptor with its events. */
  datatype Report = Wakeup | Alarm | Descriptor(fd: int, events: bv32)

  /** Everything a batch may change. `k` counts the readings of the clock. */
  datatype World = World(reg: Registry, sh: Shared, timers: seq<TimerIndex.Timer>, k: nat)

  predicate Usable(w: World) {
    TimerIndex.Sorted(w.timers) && TimerIndex.NoNegativeInterval(w.timers)
  }

  ghost function AfterReport(w: World, report: Report, clock: nat -> int, bound: int): (w': World)
    requires Usable(w) && TimerIndex.Steady(clock, bound)
    ensures Usable(w')
  {
    match report
    case Wakeup => w.(sh := w.sh.(counter := Drained(w.sh.counter)))
    case Alarm =>
      var r := TimerIndex.Expire(w.timers, clock, w.k, bound);
      w.(sh := SubmittedAll(w.sh, TimerManagerObject.Calls(r.expired)), timers := r.rest, k := r.next)
    case Descriptor(fd, events) =>
      var (work, e) := AfterReady(EntryOf(w.reg, fd), events);
      w.(reg := w.reg[fd := e], sh := SubmittedAll(w.sh, TasksOf(work)))
  }

  /** Whether the assertions made on the way hold. */
  predicate ReportAsserts(w: World, report: Report, clock: nat -> int) {
    match report
    case Wakeup => true
    case Alarm => TimerIndex.NothingDue(w.timers, clock, w.k) ==> w.timers == []
    case Descriptor(fd, events) =>
      var e := EntryOf(w.reg, fd);
      Has(e.interest, events) ==> HandlersAreThere(e, events)
  }

  ghost function AfterBatch(w: World, batch: seq<Report>, clock: nat -> int, bound: int): (w': World)
    requires Usable(w) && TimerIndex.Steady(clock, bound)
    ensures Usable(w')
  {
    if batch == [] then w
    else AfterReport(AfterBatch(w, batch[..|batch| - 1], clock, bound), batch[|batch| - 1], clock, bound)
  }

  ghost predicate BatchAsserts(w: World, batch: seq<Report>, clock: nat -> int, bound: int)
    requires Usable(w) && TimerIndex.Steady(clock, bound)
  {
    batch == [] ||
    var before := batch[..|batch| - 1];
    && BatchAsserts(w, before, clock, bound)
    && ReportAsserts(AfterBatch(w, before, clock, bound), batch[|batch| - 1], clock)
  }

  lemma BatchStep(w: World, batch: seq<Report>, i: nat, clock: nat -> int, bound: int)
    requires Usable(w) && TimerIndex.Steady(clock, bound) && i < |batch|
    ensures var w1 := AfterBatch(w, batch[..i], clock, bound);
            && AfterBatch(w, batch[..i + 1], clock, bound) == AfterReport(w1, batch[i], clock, bound)
            && (BatchAsserts(w, batch[..i + 1], clock, bound)
                <==> BatchAsserts(w, batch[..i], clock, bound) && ReportAsserts(w1, batch[i], clock))
  {
    assert batch[..i + 1][..i] == batch[..i];
  }

  // ------------------------------------------------------------------
  // What a batch puts on the task list

  /** `t` is bound to no thread and runs a coroutine or a function that the entry holds. */
  predicate IsHeldBy(t: Task, e: Entry) {
    && t.target == 0
    && match t.job
       case Routine(c) => e.read.co == Some(c) || e.write.co == Some(c)
       case Callback(f) => e.read.func == Some(f) || e.write.func == Some(f)
  }

  /** `t` is bound to no thread and runs the callback of one of the timers. */
  ghost predicate IsCallOf(t: Task, timers: seq<TimerIndex.Timer>) {
    exists i :: 0 <= i < |timers| && t == Task(0, Callback(timers[i].cb))
  }

  /** What a hand-over submits was held by the entry. */
  lemma SubmittedWasHeld(e: Entry, events: bv32, t: Task)
    requires t in TasksOf(AfterReady(e, events).0)
    ensures IsHeldBy(t, e)
  {
    TakenIsHeld(e.read, e, t);
    TakenIsHeld(e.write, e, t);
    TasksHandedOver(e, events);
    assert AfterReady(e, events).0 == HandedOver(e, events).0 || AfterReady(e, events).0 == [];
  }

  /** And the entry holds nothing more afterwards. */
  lemma HandlersOnlyGo(e: Entry, events: bv32, t: Task)
    ensures IsHeldBy(t, AfterReady(e, events).1) ==> IsHeldBy(t, e)
  {
    TakenIsHeld(e.read, e, t);
    TakenIsHeld(e.write, e, t);
    var r := AfterReady(e, events).1;
    assert IsLess(r.read, e.read) && IsLess(r.write, e.write) by {
      if Has(e.interest, events) {
        ReadyByDirection(e, events);
        hide AfterReady, Has, RunsReader, RunsWriter, Taken;
      }
    }
  }

  /** What is left of a handler is part of it. */
  predicate IsLess(r: Handler, h: Handler) {
    (r.co == h.co || r.co == None) && (r.func == h.func || r.func == None)
  }

  lemma TakenIsHeld(h: Handler, e: Entry, t: Task)
    requires h == e.read || h == e.write
    ensures t in TaskOf(Taken(h).0) ==> IsHeldBy(t, e)
    ensures IsLess(Taken(h).1, h)
  {
  }

  lemma {:induction false} ReturnedIsOfList(list: seq<TimerIndex.Timer>, r: TimerIndex.Expiry,
                                            clock: nat -> int, x: nat)
    requires |r.at| == |r.expired| && x < |r.expired| && TimerIndex.AllComeFrom(list, r, clock)
    ensures IsCallOf(Task(0, Callback(r.expired[x].cb)), list)
    decreases x
  {
    hide TimerIndex.IsAgain;
    assert r.expired[x] in list || TimerIndex.IsSetAgain(r.expired[x], r, clock, x);
    hide TimerIndex.AllComeFrom;
    if r.expired[x] in list {
      var i :| 0 <= i < |list| && list[i] == r.expired[x];
      assert Task(0, Callback(r.expired[x].cb)) == Task(0, Callback(list[i].cb));
    } else {
      var j :| 0 <= j < x && TimerIndex.IsAgain(r.expired[x], r.expired[j], clock(r.at[j] + 1));
      TimerIndex.AgainHasCall(r.expired[x], r.expired[j], clock(r.at[j] + 1));
      ReturnedIsOfList(list, r, clock, j);
    }
  }

  lemma LeftIsOfList(list: seq<TimerIndex.Timer>, r: TimerIndex.Expiry, clock: nat -> int, t: Task)
    requires |r.at| == |r.expired| && TimerIndex.AllComeFrom(list, r, clock) && IsCallOf(t, r.rest)
    ensures IsCallOf(t, list)
  {
    var i :| 0 <= i < |r.rest| && t == Task(0, Callback(r.rest[i].cb));
    var u := r.rest[i];
    hide TimerIndex.IsAgain, TimerIndex.IsSetAgain;
    assert u in r.rest;
    if u in list {
      var k :| 0 <= k < |list| && list[k] == u;
      assert t == Task(0, Callback(list[k].cb));
    } else {
      SetAgainIsOfList(list, r, clock, u);
    }
  }

  lemma SetAgainIsOfList(list: seq<TimerIndex.Timer>, r: TimerIndex.Expiry, clock: nat -> int, u: TimerIndex.Timer)
    requires |r.at| == |r.expired| && TimerIndex.AllComeFrom(list, r, clock)
    requires TimerIndex.IsSetAgain(u, r, clock, |r.expired|)
    ensures IsCallOf(Task(0, Callback(u.cb)), list)
  {
    hide TimerIndex.IsAgain, TimerIndex.AllComeFrom, IsCallOf;
    var j :| 0 <= j < |r.expired| && TimerIndex.IsAgain(u, r.expired[j], clock(r.at[j] + 1));
    TimerIndex.AgainHasCall(u, r.expired[j], clock(r.at[j] + 1));
    ReturnedIsOfList(list, r, clock, j);
  }

  /** `t` was held by the entry of a descriptor of the batch, or is the callback of a timer, before the batch. */
  ghost predicate ComesFrom(t: Task, w: World, batch: seq<Report>) {
    || (exists i :: 0 <= i < |batch| && batch[i].Descriptor? && IsHeldBy(t, EntryOf(w.reg, batch[i].fd)))
    || (Alarm in batch && IsCallOf(t, w.timers))
  }

  /** The task list after a report is the one before it, and behind that what the report called for. */
  lemma ReportAdds(w: World, report: Report, clock: nat -> int, bound: int) returns (added: seq<Task>)
    requires Usable(w) && TimerIndex.Steady(clock, bound)
    ensures AfterReport(w, report, clock, bound).sh.tasks == w.sh.tasks + added
    ensures forall t :: t in added ==> ComesFrom(t, w, [report])
    ensures HoldsNoMore(w, AfterReport(w, report, clock, bound))
  {
    match report
    case Wakeup => added := [];
    case Alarm =>
      var r := TimerIndex.Expire(w.timers, clock, w.k, bound);
      TimerIndex.PassComesFrom(w.timers, clock, w.k, bound);
      added := TimerManagerObject.Calls(r.expired);
      forall t | t in added ensures ComesFrom(t, w, [report]) {
        var x :| 0 <= x < |added| && added[x] == t;
        ReturnedIsOfList(w.timers, r, clock, x);
        assert [report][0] == Alarm;
      }
      forall t | IsCallOf(t, r.rest) ensures IsCallOf(t, w.timers) {
        LeftIsOfList(w.timers, r, clock, t);
      }
    case Descriptor(fd, events) =>
      var e := EntryOf(w.reg, fd);
      added := TasksOf(AfterReady(e, events).0);
      hide AfterReady, TasksOf, IsHeldBy;
      forall t | t in added ensures ComesFrom(t, w, [report]) {
        SubmittedWasHeld(e, events, t);
        assert [report][0].Descriptor?;
      }
      forall t, d | IsHeldBy(t, EntryOf(AfterReport(w, report, clock, bound).reg, d))
        ensures IsHeldBy(t, EntryOf(w.reg, d))
      {
        HandlersOnlyGo(e, events, t);
      }
  }

  /** Handlers and timers only go: what `after` holds, `before` did. */
  ghost predicate HoldsNoMore(before: World, after: World) {
    && (forall t, fd :: IsHeldBy(t, EntryOf(after.reg, fd)) ==> IsHeldBy(t, EntryOf(before.reg, fd)))
    && (forall t :: IsCallOf(t, after.timers) ==> IsCallOf(t, before.timers))
  }

  /** What came from a report of the batch, in the world before it, came from the whole batch. */
  lemma ComesFromWhole(t: Task, w: World, w1: World, batch: seq<Report>)
    requires batch != [] && HoldsNoMore(w, w1)
    requires ComesFrom(t, w, batch[..|batch| - 1]) || ComesFrom(t, w1, [batch[|batch| - 1]])
    ensures ComesFrom(t, w, batch)
  {
    hide IsHeldBy, IsCallOf;
    var n := |batch| - 1;
    var before := batch[..n];
    if ComesFrom(t, w, before) {
      if i :| 0 <= i < n && before[i].Descriptor? && IsHeldBy(t, EntryOf(w.reg, before[i].fd)) {
        assert batch[i].Descriptor?;
      }
    } else {
      assert [batch[n]][0] == batch[n];
      assert batch[n].Descriptor? ==> IsHeldBy(t, EntryOf(w1.reg, batch[n].fd));
    }
  }

  /** Over a whole batch, the task list grows at its end alone, by tasks bound to no thread: each
      runs a coroutine or a function that the entry of a reported descriptor held, or is the
      callback of a timer. */
  lemma {:induction false} BatchAdds(w: World, batch: seq<Report>, clock: nat -> int, bound: int)
    returns (added: seq<Task>)
    requires Usable(w) && TimerIndex.Steady(clock, bound)
    ensures AfterBatch(w, batch, clock, bound).sh.tasks == w.sh.tasks + added
    ensures forall t :: t in added ==> t.target == 0 && ComesFrom(t, w, batch)
    ensures HoldsNoMore(w, AfterBatch(w, batch, clock, bound))
  {
    hide AfterReport, TimerIndex.Steady, Usable, EntryOf;
    if batch == [] {
      added := [];
    } else {
      var n := |batch| - 1;
      var before := BatchAdds(w, batch[..n], clock, bound);
      var w1 := AfterBatch(w, batch[..n], clock, bound);
      var last := ReportAdds(w1, batch[n], clock, bound);
      added := before + last;
      MoveBracket(w.sh.tasks, before, last);
      hide IsHeldBy, IsCallOf, ComesFrom, AfterBatch;
      forall t | t in added ensures t.target == 0 && ComesFrom(t, w, batch) {
        ComesFromWhole(t, w, w1, batch);
        IsUnbound(t, w, batch);
      }
    }
  }

  lemma IsUnbound(t: Task, w: World, batch: seq<Report>)
    requires ComesFrom(t, w, batch)
    ensures t.target == 0
  {
  }

  predicate RegistryInStep(reg: Registry) {
    forall d :: d in reg ==> InStep(reg[d])
  }

  /** What UpdateEvent does to the registrations keeps them in step exactly when the
      interest names a direction. */
  lemma UpdateKeepsRegistryExactlyWhen(reg: Registry, fd: int, interest: bv32, func: Option<nat>, running: nat)
    requires RegistryInStep(reg)
    ensures RegistryInStep(reg[fd := Updated(EntryOf(reg, fd), interest, func, running)]) <==> Directions(interest) != 0
  {
    UpdateStaysInStepExactlyWhen(EntryOf(reg, fd), interest, func, running);
    hide Updated, InStep, Directions;
    var reg' := reg[fd := Updated(EntryOf(reg, fd), interest, func, running)];
    assert fd in reg';
  }

  lemma CancelKeepsInStep(reg: Registry, fd: int, target: bv32)
    requires RegistryInStep(reg) && !Trips(EntryOf(reg, fd), target)
    ensures RegistryInStep(reg[fd := CancelledIfAny(EntryOf(reg, fd), target)])
  {
    var e := EntryOf(reg, fd);
    assert InStep(UNKNOWN);
    hide InStep, Has, Cancelled;
    if Has(e.interest, target) {
      CancelStaysInStep(e, target);
    }
  }

  lemma OneMoreInStep(reg: Registry, fd: int, e: Entry)
    requires RegistryInStep(reg)
    ensures InStep(e) ==> RegistryInStep(reg[fd := e])
  {
  }

  class EpollPoller {
    var eventSet: map<int, Event>
    var kernel: map<int, bv32>
    const owner: Scheduler
    const timerManager: TimerManagerObject.TimerManager

    ghost predicate Valid()
      reads this, eventSet.Values
    {
      && (forall fd :: fd in eventSet ==> eventSet[fd].fd == fd)
      && kernel.Keys <= eventSet.Keys
    }

    function InKernel(fd: int): Option<bv32>
      reads this
    {
      if fd in kernel then Some(kernel[fd]) else None
    }

    function EntryFor(event: Event): Entry
      reads this, event
    {
      Entry(event.interest, event.state, event.read, event.write, InKernel(event.fd))
    }

    /** All registrations. */
    function View(): Registry
      reads this, eventSet.Values
    {
      map fd | fd in eventSet :: EntryFor(eventSet[fd])
    }

    /** Every registration agrees with its state and with the kernel. */
    ghost predicate AllInStep()
      reads this, eventSet.Values
    {
      RegistryInStep(View())
    }

    constructor (owner: Scheduler)
      ensures Valid() && AllInStep() && View() == map[]
      ensures this.owner == owner && fresh(timerManager) && timerManager.Valid() && timerManager.timerList == []
    {
      eventSet, kernel := map[], map[];
      this.owner := owner;
      timerManager := new TimerManagerObject.TimerManager();
    }

    method GetOrCreateEventObj(fd: int) returns (event: Event)
      requires Valid()
      modifies this`eventSet
      ensures Valid() && fd in eventSet && eventSet[fd] == event
      ensures EntryFor(event) == EntryOf(old(View()), fd)
      ensures View() == old(View())[fd := EntryFor(event)]
      ensures forall d :: d in old(eventSet) ==> d in eventSet && eventSet[d] == old(eventSet[d])
      ensures eventSet.Keys == old(eventSet.Keys) + {fd}
      ensures fd !in old(eventSet) ==>
                fresh(event) && event.interest == 0 && event.state == New
                && event.read == Handler(None, None) && event.write == Handler(None, None)
    {
      if fd in eventSet {
        event := eventSet[fd];
        assert View()[fd] == EntryFor(event);
      } else {
        event := new Event(fd);
        eventSet := eventSet[fd := event];
        forall d | d in eventSet ensures View()[d] == old(View())[fd := EntryFor(event)][d] {
        }
      }
    }

    method EpollCtl(op: CtlOp, fd: int, mask: bv32)
      modifies this`kernel
      ensures InKernel(fd) == Ctl(old(InKernel(fd)), op, mask)
      ensures forall d :: d != fd ==> InKernel(d) == old(InKernel(d))
      ensures kernel.Keys <= old(kernel.Keys) + {fd}
      ensures kernel == match op
                        case CtlAdd => if fd in old(kernel) then old(kernel) else old(kernel)[fd := mask]
                        case CtlMod => if fd in old(kernel) then old(kernel)[fd := mask] else old(kernel)
                        case CtlDel => old(kernel) - {fd}
    {
      match op
      case CtlAdd =>
        if fd !in kernel {
          kernel := kernel[fd := mask];
        }
      case CtlMod =>
        if fd in kernel {
          kernel := kernel[fd := mask];
        }
      case CtlDel =>
        if fd in kernel {
          kernel := kernel - {fd};
        }
    }

    /** One event changed, and with it one registration. */
    twostate lemma OneEntryChanged(event: Event)
      requires old(Valid()) && Valid() && eventSet == old(eventSet)
      requires event.fd in eventSet && eventSet[event.fd] == event
      requires forall d :: d != event.fd ==> InKernel(d) == old(InKernel(d))
      requires forall d :: d in eventSet && d != event.fd ==> unchanged(eventSet[d])
      ensures View() == old(View())[event.fd := EntryFor(event)]
    {
      forall d | d in eventSet
        ensures View()[d] == old(View())[event.fd := EntryFor(event)][d]
      {
        if d != event.fd {
          assert InKernel(d) == old(InKernel(d)) && unchanged(eventSet[d]);
          assert eventSet[d].fd == d;
        }
      }
    }

    method AddCallback(event: Event, interest: bv32, func: Option<nat>, running: nat)
      modifies event`read, event`write
      ensures event.read == if !Has(interest, EPOLLIN) then old(event.read)
                            else if func.Some? then Handler(func, old(event.read.co))
                            else Handler(old(event.read.func), Some(running))
      ensures event.write == if !Has(interest, EPOLLOUT) then old(event.write)
                             else if func.Some? then Handler(func, old(event.write.co))
                             else Handler(old(event.write.func), Some(running))
    {
      if Has(interest, EPOLLIN) {
        if func.Some? {
          event.read := event.read.(func := func);
        } else {
          event.read := event.read.(co := Some(running));
        }
      }
      if Has(interest, EPOLLOUT) {
        if func.Some? {
          event.write := event.write.(func := func);
        } else {
          event.write := event.write.(co := Some(running));
        }
      }
    }

    /** The part of an update that changes the event object and its mirror in the kernel. */
    method UpdateEventObj(event: Event, interest: bv32, func: Option<nat>, running: nat)
      requires Valid() && event.fd in eventSet && eventSet[event.fd] == event
      modifies this`kernel, event
      ensures Valid() && EntryFor(event) == Updated(old(EntryFor(event)), interest, func, running)
      ensures forall d :: d != event.fd ==> InKernel(d) == old(InKernel(d))
      ensures event.interest == EPOLLET | interest && event.state == Added
    {
      hide View, Has, Ctl;
      event.interest := EPOLLET | interest;
      var op := if event.state == Added then CtlMod else CtlAdd;
      EpollCtl(op, event.fd, event.interest);
      event.state := Added;
      AddCallback(event, interest, func, running);
    }

    /** The program asserts that the interest is not empty. */
    method UpdateEvent(fd: int, interest: bv32, func: Option<nat>, running: nat)
      requires Valid() && interest != 0
      modifies this`eventSet, this`kernel, eventSet.Values
      ensures Valid()
      ensures View() == old(View())[fd := Updated(EntryOf(old(View()), fd), interest, func, running)]
    {
      hide View, Has, Ctl, Updated;
      var event := GetOrCreateEventObj(fd);
      label created:
      UpdateEventObj(event, interest, func, running);
      hide EntryFor;
      OneEntryChanged@created(event);
    }

    method ClearContexts(event: Event, target: bv32)
      modifies event`read
      ensures event.read == if Has(target, EPOLLIN) || Has(target, EPOLLOUT) then NO_HANDLER else old(event.read)
    {
      if Has(target, EPOLLIN) {
        event.read := NO_HANDLER;
      }
      if Has(target, EPOLLOUT) {
        event.read := NO_HANDLER;
      }
    }

    /** The private form, on an event object. The program asserts that it is added. */
    method CancelEventObj(event: Event, target: bv32)
      requires Valid() && event.fd in eventSet && eventSet[event.fd] == event
      requires event.state == Added
      modifies this`kernel, event
      ensures Valid()
      ensures View() == old(View())[event.fd := Cancelled(old(EntryFor(event)), target)]
      ensures EntryFor(event) == Cancelled(old(EntryFor(event)), target)
      ensures forall d :: d != event.fd ==> InKernel(d) == old(InKernel(d))
    {
      hide View, Has, Ctl, Directions;
      ghost var e := EntryFor(event);
      event.interest := Minus(event.interest, target);
      var op := if Directions(event.interest) != 0 then CtlMod else CtlDel;
      EpollCtl(op, event.fd, event.interest);
      event.state := if op == CtlDel then Deleted else event.state;
      ClearContexts(event, target);
      OneEntryChanged(event);
      assert EntryFor(event) == Cancelled(e, target);
    }

    /** The program asserts that a direction is left of the interest, or that the flag is not asked for. */
    method CancelEvent(fd: int, target: bv32)
      requires Valid() && AllInStep()
      requires !Trips(EntryOf(View(), fd), target)
      modifies this`eventSet, this`kernel, eventSet.Values
      ensures Valid() && AllInStep()
      ensures View() == old(View())[fd := CancelledIfAny(EntryOf(old(View()), fd), target)]
    {
      ghost var reg, e := View(), EntryOf(View(), fd);
      CancelKeepsInStep(reg, fd, target);
      hide View, InStep, Has, Cancelled, RegistryInStep, EntryOf, Ctl;
      var event := GetOrCreateEventObj(fd);
      assert EntryFor(event) == e;
      hide EntryFor;
      if Has(event.interest, target) {
        CancelEventObj(event, target);
      }
    }

    /** Passes one handler to the scheduler. `armed` is the program's assertion that there is one. */
    method EnqueueReader(event: Event) returns (armed: bool)
      modifies owner`taskList, owner.notifier, event`read
      ensures armed <==> !old(event.read).IsEmpty()
      ensures owner.View() == SubmittedAll(old(owner.View()), TaskOf(Taken(old(event.read)).0))
      ensures event.read == Taken(old(event.read)).1
      ensures old(event.read.co.Some?) ==>
                && owner.taskList == old(owner.taskList) + [Task(0, Routine(old(event.read.co.value)))]
                && event.read == Handler(old(event.read.func), None)
      ensures old(event.read.co.None? && event.read.func.Some?) ==>
                && owner.taskList == old(owner.taskList) + [Task(0, Callback(old(event.read.func.value)))]
                && event.read == Handler(None, None)
      ensures old(event.read.IsEmpty()) ==> owner.taskList == old(owner.taskList) && event.read == old(event.read)
    {
      SubmittedOneMore(owner.View(), [], [], Task(ANY_THREAD, Routine(0)));
      armed := event.read.func.Some? || event.read.co.Some?;
      if event.read.co.Some? {
        SubmittedOneMore(owner.View(), [], [], Task(ANY_THREAD, Routine(event.read.co.value)));
        owner.Co(Task(ANY_THREAD, Routine(event.read.co.value)));
        event.read := event.read.(co := None);
      } else if event.read.func.Some? {
        SubmittedOneMore(owner.View(), [], [], Task(ANY_THREAD, Callback(event.read.func.value)));
        owner.Co(Task(ANY_THREAD, Callback(event.read.func.value)));
        event.read := event.read.(func := None);
      }
    }

    method EnqueueWriter(event: Event) returns (armed: bool)
      modifies owner`taskList, owner.notifier, event`write
      ensures armed <==> !old(event.write).IsEmpty()
      ensures owner.View() == SubmittedAll(old(owner.View()), TaskOf(Taken(old(event.write)).0))
      ensures event.write == Taken(old(event.write)).1
      ensures old(event.write.co.Some?) ==>
                && owner.taskList == old(owner.taskList) + [Task(0, Routine(old(event.write.co.value)))]
                && event.write == Handler(old(event.write.func), None)
      ensures old(event.write.co.None? && event.write.func.Some?) ==>
                && owner.taskList == old(owner.taskList) + [Task(0, Callback(old(event.write.func.value)))]
                && event.write == Handler(None, None)
      ensures old(event.write.IsEmpty()) ==> owner.taskList == old(owner.taskList) && event.write == old(event.write)
    {
      SubmittedOneMore(owner.View(), [], [], Task(ANY_THREAD, Routine(0)));
      armed := event.write.func.Some? || event.write.co.Some?;
      if event.write.co.Some? {
        SubmittedOneMore(owner.View(), [], [], Task(ANY_THREAD, Routine(event.write.co.value)));
        owner.Co(Task(ANY_THREAD, Routine(event.write.co.value)));
        event.write := event.write.(co := None);
      } else if event.write.func.Some? {
        SubmittedOneMore(owner.View(), [], [], Task(ANY_THREAD, Callback(event.write.func.value)));
        owner.Co(Task(ANY_THREAD, Callback(event.write.func.value)));
        event.write := event.write.(func := None);
      }
    }

    /** `armed` says that every handler the events call for was there. */
    method HandleEpollEvents(event: Event, readyEvent: bv32) returns (armed: bool)
      modifies owner`taskList, owner.notifier, event`read, event`write
      ensures armed <==> HandlersAreThere(old(EntryFor(event)), readyEvent)
      ensures var (work, e) := HandedOver(old(EntryFor(event)), readyEvent);
              owner.View() == SubmittedAll(old(owner.View()), TasksOf(work)) && EntryFor(event) == e
    {
      hide Has, Taken, SubmittedAll, TaskOf, TasksOf;
      TasksHandedOver(EntryFor(event), readyEvent);
      ghost var r := if RunsReader(readyEvent) then TaskOf(Taken(event.read).0) else [];
      ghost var w := if RunsWriter(readyEvent) then TaskOf(Taken(event.write).0) else [];
      SubmittedOneMore(owner.View(), r, w, Task(ANY_THREAD, Routine(0)));
      SubmittedOneMore(SubmittedAll(owner.View(), r), [], [], Task(ANY_THREAD, Routine(0)));
      var ready := readyEvent;
      if Has(ready, EPOLLERR) {
        ready := ready | (EPOLLIN | EPOLLOUT);
      }
      assert ready == Widened(readyEvent);
      armed := true;
      if Has(ready, EPOLLIN | EPOLLRDHUP | EPOLLPRI) {
        armed := EnqueueReader(event);
      }
      if Has(ready, EPOLLOUT) {
        var armedToo := EnqueueWriter(event);
        armed := armed && armedToo;
      }
    }

    /** One descriptor of the loop over what was reported. */
    method HandleDescriptor(event: Event, events: bv32) returns (armed: bool)
      requires Valid() && event.fd in eventSet && eventSet[event.fd] == event
      requires InStep(EntryFor(event)) && !Trips(EntryFor(event), events)
      modifies this`kernel, owner`taskList, owner.notifier, event
      ensures Valid() && InStep(EntryFor(event))
      ensures armed <==> (Has(old(event.interest), events) ==> HandlersAreThere(old(EntryFor(event)), events))
      ensures var (work, e) := AfterReady(old(EntryFor(event)), events);
              && owner.View() == SubmittedAll(old(owner.View()), TasksOf(work))
              && View() == old(View())[event.fd := e] && EntryFor(event) == e
    {
      hide View, Has, HandedOver, Cancelled, HandlersAreThere, TaskOf;
      ReadyStaysInStep(EntryFor(event), events);
      SubmittedOneMore(owner.View(), [], [], Task(ANY_THREAD, Routine(0)));
      if !Has(event.interest, events) {
        armed := true;
        OneEntryChanged(event);
        return;
      }
      armed := HandleEpollEvents(event, events);
      CancelEventObj(event, events);
      OneEntryChanged(event);
    }

    /** The world a batch acts on. */
    function Surroundings(k: nat): World
      reads this, eventSet.Values, owner, owner.notifier, timerManager
    {
      World(View(), owner.View(), timerManager.timerList, k)
    }

    /** One report. */
    method HandleReport(report: Report, clock: nat -> int, k: nat, ghost bound: int)
        returns (next: nat, asserted: bool)
      requires Valid() && AllInStep() && timerManager.Valid()
      requires Usable(Surroundings(k)) && TimerIndex.Steady(clock, bound)
      requires report.Descriptor? ==> report.fd in eventSet && !Has(report.events, EPOLLET)
      modifies this`kernel, owner`taskList, owner.notifier, timerManager, eventSet.Values
      ensures Valid() && AllInStep() && timerManager.Valid()
      ensures Surroundings(next) == AfterReport(old(Surroundings(k)), report, clock, bound)
      ensures asserted <==> ReportAsserts(old(Surroundings(k)), report, clock)
    {
      next, asserted := k, true;
      match report {
        case Wakeup =>
          var ok := owner.notifier.HandleEventFd();
        case Alarm =>
          next, asserted := timerManager.HandleExpiredTimers(owner, clock, k, bound);
        case Descriptor(fd, events) =>
          var event := eventSet[fd];
          assert EntryFor(event) == View()[fd];
          CancelTripsExactlyWhen(EntryFor(event), events);
          OneMoreInStep(View(), fd, AfterReady(EntryFor(event), events).1);
          hide AfterReady, HandlersAreThere, InStep, Has, RegistryInStep, View, TimerIndex.Expire;
          asserted := HandleDescriptor(event, events);
      }
    }

    /** The kernel reports only descriptors whose event object it was given, and never the flag. */
    method HandleReadyEvents(batch: seq<Report>, clock: nat -> int, k: nat, ghost bound: int)
        returns (next: nat, asserted: bool)
      requires Valid() && AllInStep() && timerManager.Valid()
      requires Usable(Surroundings(k)) && TimerIndex.Steady(clock, bound)
      requires forall i :: 0 <= i < |batch| && batch[i].Descriptor? ==>
                 batch[i].fd in eventSet && !Has(batch[i].events, EPOLLET)
      modifies this`kernel, owner`taskList, owner.notifier, timerManager, eventSet.Values
      ensures Valid() && AllInStep() && timerManager.Valid()
      ensures Surroundings(next) == AfterBatch(old(Surroundings(k)), batch, clock, bound)
      ensures asserted <==> BatchAsserts(old(Surroundings(k)), batch, clock, bound)
    {
      next, asserted := k, true;
      ghost var before := Surroundings(k);
      for i := 0 to |batch|
        invariant Valid() && AllInStep() && timerManager.Valid() && eventSet == old(eventSet)
        invariant Surroundings(next) == AfterBatch(before, batch[..i], clock, bound)
        invariant asserted <==> BatchAsserts(before, batch[..i], clock, bound)
      {
        hide AllInStep, Surroundings, Has;
        BatchStep(before, batch, i, clock, bound);
        var held;
        next, held := HandleReport(batch[i], clock, next, bound);
        asserted := asserted && held;
      }
      assert batch[..|batch|] == batch;
    }
  }
}
