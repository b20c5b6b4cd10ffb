/** The registration of one file descriptor with the poller: the interest the
    program remembers, the two handlers, and what the kernel's epoll set holds. */
module EventRegistry {
  import opened Base

  const EPOLLIN: bv32 := 0x1
  const EPOLLPRI: bv32 := 0x2
  const EPOLLOUT: bv32 := 0x4
  const EPOLLERR: bv32 := 0x8
  const EPOLLRDHUP: bv32 := 0x2000
  const EPOLLET: bv32 := 0x8000_0000

  datatype StateIndex = New | Deleted | Added

  /** A callback and a coroutine, either of which may be absent. */
  datatype Handler = Handler(func: Option<nat>, co: Option<nat>) {
    predicate IsEmpty() {
      func.None? && co.None?
    }
  }

  const NO_HANDLER := Handler(None, None)

  /** What is passed to the scheduler. `Nothing` is an empty function object. */
  datatype Work = Call(func: nat) | Resume(co: nat) | Nothing

  /** `kernel` is the mask the epoll set holds for the descriptor, if it is registered there. */
  datatype Entry = Entry(interest: bv32, state: StateIndex, read: Handler, write: Handler, kernel: Option<bv32>)

  const UNKNOWN := Entry(0, New, NO_HANDLER, NO_HANDLER, None)

  datatype CtlOp = CtlAdd | CtlMod | CtlDel

  /** epoll_ctl refuses to add a descriptor twice, and to change or delete an absent one. */
  predicate CtlLegal(kernel: Option<bv32>, op: CtlOp) {
    op.CtlAdd? <==> kernel.None?
  }

  function Ctl(kernel: Option<bv32>, op: CtlOp, mask: bv32): Option<bv32> {
    if !CtlLegal(kernel, op) then kernel
    else if op.CtlDel? then None
    else Some(mask)
  }

  predicate Has(mask: bv32, bits: bv32) {
    mask & bits != 0
  }

  /** The directions of a mask, without the edge-trigger flag. */
  function Directions(mask: bv32): bv32 {
    mask & !EPOLLET
  }

  /** The mask without some of its bits. */
  function Minus(mask: bv32, bits: bv32): bv32 {
    mask & !bits
  }

  function UpdateOp(e: Entry): CtlOp {
    if e.state.Added? then CtlMod else CtlAdd
  }

  /** Without a callback the running coroutine is the handler. */
  function Armed(h: Handler, func: Option<nat>, running: nat): Handler {
    if func.Some? then h.(func := func) else h.(co := Some(running))
  }

  /** Replaces the interest and arms the handlers of the directions it names. */
  function Updated(e: Entry, interest: bv32, func: Option<nat>, running: nat): Entry {
    var mask := EPOLLET | interest;
    Entry(mask, Added,
          if Has(interest, EPOLLIN) then Armed(e.read, func, running) else e.read,
          if Has(interest, EPOLLOUT) then Armed(e.write, func, running) else e.write,
          Ctl(e.kernel, UpdateOp(e), mask))
  }

  function CancelOp(interest: bv32): CtlOp {
    if Directions(interest) != 0 then CtlMod else CtlDel
  }

  /** Takes bits out of the interest. Both branches clear the read handler, as in the program. */
  function Cancelled(e: Entry, target: bv32): Entry {
    var interest := Minus(e.interest, target);
    var op := CancelOp(interest);
    Entry(interest, if op.CtlDel? then Deleted else e.state,
          if Has(target, EPOLLIN) || Has(target, EPOLLOUT) then NO_HANDLER else e.read,
          e.write,
          Ctl(e.kernel, op, interest))
  }

  /** The public form does nothing unless it takes something away. */
  function CancelledIfAny(e: Entry, target: bv32): Entry {
    if Has(e.interest, target) then Cancelled(e, target) else e
  }

  /** What a handler gives the scheduler, and what is left of it. */
  function Taken(h: Handler): (Work, Handler) {
    if h.co.Some? then (Resume(h.co.value), h.(co := None))
    else if h.func.Some? then (Call(h.func.value), h.(func := None))
    else (Nothing, h)
  }

  function Widened(events: bv32): bv32 {
    if Has(events, EPOLLERR) then events | (EPOLLIN | EPOLLOUT) else events
  }

  predicate RunsReader(events: bv32) {
    Has(Widened(events), EPOLLIN | EPOLLRDHUP | EPOLLPRI)
  }

  predicate RunsWriter(events: bv32) {
    Has(Widened(events), EPOLLOUT)
  }

  /** The handlers that ready events hand over, and the entry without them. */
  function HandedOver(e: Entry, events: bv32): (seq<Work>, Entry) {
    var (r, read) := Taken(e.read);
    var (w, write) := Taken(e.write);
    ((if RunsReader(events) then [r] else []) + (if RunsWriter(events) then [w] else []),
     e.(read := if RunsReader(events) then read else e.read, write := if RunsWriter(events) then write else e.write))
  }

  /** One ready descriptor: unless the events were already taken by another thread,
      hand over the handlers and stop watching for these events. */
  function AfterReady(e: Entry, events: bv32): (seq<Work>, Entry) {
    if !Has(e.interest, events) then ([], e)
    else
      var (work, e1) := HandedOver(e, events);
      (work, Cancelled(e1, events))
  }

  // ------------------------------------------------------------------
  // Facts about masks

  lemma FlagIsNoDirection(interest: bv32)
    ensures Directions(EPOLLET | interest) == Directions(interest)
    ensures Has(EPOLLET | interest, EPOLLIN) <==> Has(interest, EPOLLIN)
    ensures Has(EPOLLET | interest, EPOLLOUT) <==> Has(interest, EPOLLOUT)
  {
  }

  lemma NoDirection(interest: bv32)
    ensures Directions(interest) == 0 <==> interest == 0 || interest == EPOLLET
  {
  }

  lemma ReaderBits(interest: bv32, events: bv32)
    ensures Has(Minus(interest, events), EPOLLIN) <==> Has(interest, EPOLLIN) && !Has(events, EPOLLIN)
    ensures Has(events, EPOLLIN) ==> RunsReader(events)
  {
  }

  lemma WriterBits(interest: bv32, events: bv32)
    ensures Has(Minus(interest, events), EPOLLOUT) <==> Has(interest, EPOLLOUT) && !Has(events, EPOLLOUT)
    ensures Has(events, EPOLLOUT) ==> RunsWriter(events)
  {
  }

  // ------------------------------------------------------------------
  // What the operations come to, bit by bit

  /** The reader runs for input, priority data, a closed peer and errors, the writer for output and errors. */
  lemma RunsByBits(events: bv32)
    ensures RunsReader(events) <==> events & (0x1 | 0x2 | 0x2000 | 0x8) != 0
    ensures RunsWriter(events) <==> events & (0x4 | 0x8) != 0
  {
  }

  /** An update sets the interest with the edge-trigger flag, and gives each direction it names the
      function, or the running coroutine when there is none, beside what was there of the other. */
  lemma UpdatedMeans(e: Entry, interest: bv32, func: Option<nat>, running: nat)
    ensures var r := Updated(e, interest, func, running);
            && r.interest == interest | 0x8000_0000 && r.state == Added
            && r.read == (if interest & 0x1 == 0 then e.read
                          else if func.Some? then Handler(func, e.read.co) else Handler(e.read.func, Some(running)))
            && r.write == (if interest & 0x4 == 0 then e.write
                           else if func.Some? then Handler(func, e.write.co) else Handler(e.write.func, Some(running)))
            && r.kernel == if e.state.Added? <==> e.kernel.Some? then Some(r.interest) else e.kernel
  {
    assert EPOLLET | interest == interest | 0x8000_0000;
  }

  lemma EitherDirection(target: bv32)
    ensures Has(target, EPOLLIN) || Has(target, EPOLLOUT) <==> target & (0x1 | 0x4) != 0
  {
  }

  lemma WithoutFlag(interest: bv32, target: bv32)
    ensures Minus(interest, target) == interest & !target
    ensures Directions(Minus(interest, target)) == interest & !target & 0x7fff_ffff
  {
  }

  /** A cancel takes the bits out, also of the kernel's mask, and the descriptor off the kernel when
      only the edge-trigger flag is left; either direction clears the reader, none the writer. */
  lemma CancelledMeans(e: Entry, target: bv32)
    ensures var r := Cancelled(e, target);
            && r.interest == e.interest & !target
            && (if e.interest & !target & 0x7fff_ffff == 0
                then r.state == Deleted && r.kernel == None
                else r.state == e.state && r.kernel == if e.kernel.Some? then Some(r.interest) else None)
            && r.read == (if target & (0x1 | 0x4) != 0 then Handler(None, None) else e.read)
            && r.write == e.write
  {
    EitherDirection(target);
    WithoutFlag(e.interest, target);
    hide Has, Directions, Minus;
  }

  /** What a handler gives first: its coroutine, and its function only without one. */
  lemma TakenMeans(h: Handler)
    ensures Taken(h) == if h.co.Some? then (Resume(h.co.value), Handler(h.func, None))
                        else if h.func.Some? then (Call(h.func.value), Handler(None, None))
                        else (Nothing, Handler(None, None))
  {
  }

  lemma ReadyByDirection(e: Entry, events: bv32)
    requires Has(e.interest, events)
    ensures var (work, r) := AfterReady(e, events);
            && work == (if RunsReader(events) then [Taken(e.read).0] else [])
                       + (if RunsWriter(events) then [Taken(e.write).0] else [])
            && r.interest == Minus(e.interest, events)
            && r.read == (if Has(events, EPOLLIN) || Has(events, EPOLLOUT) then NO_HANDLER
                          else if RunsReader(events) then Taken(e.read).1 else e.read)
            && r.write == if RunsWriter(events) then Taken(e.write).1 else e.write
  {
    hide Has, Minus, RunsReader, RunsWriter, Taken, CancelOp, Ctl;
  }

  /** Ready events that concern the interest give what the reader has first, then what the writer has,
      and are cancelled; others do nothing. */
  lemma ReadyMeans(e: Entry, events: bv32)
    ensures e.interest & events == 0 ==> AfterReady(e, events) == ([], e)
    ensures var (work, r) := AfterReady(e, events);
            e.interest & events != 0 ==>
              && work == (if events & (0x1 | 0x2 | 0x2000 | 0x8) != 0 then [Taken(e.read).0] else [])
                         + (if events & (0x4 | 0x8) != 0 then [Taken(e.write).0] else [])
              && r.interest == e.interest & !events
              && r.read == (if events & (0x1 | 0x4) != 0 then Handler(None, None)
                            else if events & (0x1 | 0x2 | 0x2000 | 0x8) != 0 then Taken(e.read).1 else e.read)
              && r.write == if events & (0x4 | 0x8) != 0 then Taken(e.write).1 else e.write
  {
    RunsByBits(events);
    EitherDirection(events);
    WithoutFlag(e.interest, events);
    assert Has(e.interest, events) <==> e.interest & events != 0;
    if e.interest & events != 0 {
      ReadyByDirection(e, events);
      hide AfterReady, Has, Minus, Taken, RunsReader, RunsWriter;
    }
  }

  // ------------------------------------------------------------------
  // The entry, its state and the kernel agree

  predicate InStep(e: Entry) {
    && (e.state.Added? <==> Directions(e.interest) != 0)
    && e.kernel == (if e.state.Added? then Some(e.interest) else None)
  }

  /** Updating always issues a legal control operation, and keeps everything in step
      exactly when the new interest names a direction. */
  lemma UpdateStaysInStepExactlyWhen(e: Entry, interest: bv32, func: Option<nat>, running: nat)
    requires InStep(e)
    ensures CtlLegal(e.kernel, UpdateOp(e))
    ensures InStep(Updated(e, interest, func, running)) <==> Directions(interest) != 0
  {
    FlagIsNoDirection(interest);
    hide Has, Directions;
  }

  /** Cancelling anything of an added entry issues a legal control operation and keeps everything in step. */
  lemma CancelStaysInStep(e: Entry, target: bv32)
    requires InStep(e) && e.state.Added?
    ensures CtlLegal(e.kernel, CancelOp(Minus(e.interest, target)))
    ensures InStep(Cancelled(e, target))
  {
    hide Has, Directions, Minus;
  }

  /** Taking bits out of the interest fails the assertion that the entry is added. */
  predicate Trips(e: Entry, target: bv32) {
    Has(e.interest, target) && !e.state.Added?
  }

  /** It does exactly when the edge-trigger flag is all that is left of the interest, and is asked for. */
  lemma CancelTripsExactlyWhen(e: Entry, target: bv32)
    requires InStep(e)
    ensures Trips(e, target) <==> e.interest == EPOLLET && Has(target, EPOLLET)
  {
    NoDirection(e.interest);
    if e.interest == EPOLLET {
      assert Has(EPOLLET, target) <==> Has(target, EPOLLET);
    }
  }

  lemma ReadyStaysInStep(e: Entry, events: bv32)
    requires InStep(e) && !Trips(e, events)
    ensures InStep(AfterReady(e, events).1)
  {
    hide Has, Directions, Minus, RunsReader, RunsWriter, CancelOp;
    if Has(e.interest, events) {
      CancelStaysInStep(HandedOver(e, events).1, events);
    }
  }

  // ------------------------------------------------------------------
  // Runs on one descriptor

  datatype Op = Update(interest: bv32, func: Option<nat>, running: nat) | Cancel(target: bv32) | Ready(events: bv32)

  /** How often each direction was registered, and how often its handler was handed over. */
  datatype Tally = Tally(e: Entry, readers: nat, readerRuns: nat, writers: nat, writerRuns: nat)

  const FIRST := Tally(UNKNOWN, 0, 0, 0, 0)

  function One(b: bool): nat {
    if b then 1 else 0
  }

  function Do(t: Tally, op: Op): Tally {
    match op
    case Update(interest, func, running) =>
      Tally(Updated(t.e, interest, func, running),
            t.readers + One(Has(interest, EPOLLIN)), t.readerRuns,
            t.writers + One(Has(interest, EPOLLOUT)), t.writerRuns)
    case Cancel(target) => t.(e := CancelledIfAny(t.e, target))
    case Ready(events) =>
      var runs := Has(t.e.interest, events);
      Tally(AfterReady(t.e, events).1,
            t.readers, t.readerRuns + One(runs && RunsReader(events)),
            t.writers, t.writerRuns + One(runs && RunsWriter(events)))
  }

  function DoAll(ops: seq<Op>): Tally {
    if ops == [] then FIRST else Do(DoAll(ops[..|ops| - 1]), ops[|ops| - 1])
  }

  /** An update names a direction, and nothing asks for the edge-trigger flag where that is all there is. */
  predicate Sensible(e: Entry, op: Op) {
    match op
    case Update(interest, _, _) => Directions(interest) != 0
    case Cancel(target) => !(e.interest == EPOLLET && Has(target, EPOLLET))
    case Ready(events) => !(e.interest == EPOLLET && Has(events, EPOLLET))
  }

  predicate OpTrips(e: Entry, op: Op) {
    match op
    case Update(_, _, _) => false
    case Cancel(target) => Trips(e, target)
    case Ready(events) => Trips(e, events)
  }

  predicate AllSensible(ops: seq<Op>) {
    ops == [] ||
    var before := ops[..|ops| - 1];
    AllSensible(before) && Sensible(DoAll(before).e, ops[|ops| - 1])
  }

  /** After every operation of the run the entry was in step, and none failed the assertion. */
  predicate SoundThroughout(ops: seq<Op>) {
    ops == [] ||
    var before := ops[..|ops| - 1];
    SoundThroughout(before) && !OpTrips(DoAll(before).e, ops[|ops| - 1]) && InStep(DoAll(ops).e)
  }

  lemma StepIsSoundExactlyWhen(t: Tally, op: Op)
    requires InStep(t.e)
    ensures Sensible(t.e, op) <==> !OpTrips(t.e, op) && InStep(Do(t, op).e)
  {
    hide Has, Directions, InStep, Updated, Cancelled, AfterReady;
    match op
    case Update(interest, func, running) => UpdateStaysInStepExactlyWhen(t.e, interest, func, running);
    case Cancel(target) =>
      CancelTripsExactlyWhen(t.e, target);
      if Has(t.e.interest, target) && !Trips(t.e, target) {
        CancelStaysInStep(t.e, target);
      }
    case Ready(events) =>
      CancelTripsExactlyWhen(t.e, events);
      if !Trips(t.e, events) {
        ReadyStaysInStep(t.e, events);
      }
  }

  /** Over every run on a descriptor: state, interest and kernel agree after each operation
      and no assertion fails, exactly when each operation was sensible where it was made. */
  lemma {:induction false} SoundExactlyWhenSensible(ops: seq<Op>)
    ensures SoundThroughout(ops) <==> AllSensible(ops)
    ensures SoundThroughout(ops) ==> InStep(DoAll(ops).e)
  {
    assert InStep(FIRST.e);
    hide Sensible, OpTrips, InStep, Do;
    if ops != [] {
      var before := ops[..|ops| - 1];
      SoundExactlyWhenSensible(before);
      if SoundThroughout(before) {
        StepIsSoundExactlyWhen(DoAll(before), ops[|ops| - 1]);
      }
    }
  }

  /** The failure is real: register a reader, cancel it, and cancel the flag that is left. */
  lemma FlagIsLeftBehind(f: nat)
    ensures var ops := [Update(EPOLLIN, Some(f), 0), Cancel(EPOLLIN)];
            && SoundThroughout(ops) && DoAll(ops).e.interest == EPOLLET
            && Trips(DoAll(ops).e, EPOLLET) && !SoundThroughout(ops + [Cancel(EPOLLET)])
  {
    var o1, o2, o3 := Update(EPOLLIN, Some(f), 0), Cancel(EPOLLIN), Cancel(EPOLLET);
    var ops := [o1, o2];
    assert ops[..1] == [o1] && [o1][..0] == [] && (ops + [o3])[..2] == ops;
    assert Has(EPOLLIN, EPOLLIN) && Directions(EPOLLIN) != 0;
    assert DoAll([o1]).e.interest == EPOLLET | EPOLLIN;
    assert DoAll(ops).e.interest == EPOLLET;
    SoundExactlyWhenSensible([o1]);
    SoundExactlyWhenSensible(ops);
    CancelTripsExactlyWhen(DoAll(ops).e, EPOLLET);
  }

  // ------------------------------------------------------------------
  // A handler runs at most once per registration

  /** The events concern directions that are still registered, and take away the ones they run. */
  predicate FreshForReader(e: Entry, events: bv32) {
    RunsReader(events) ==> Has(e.interest, EPOLLIN) && Has(events, EPOLLIN)
  }

  predicate FreshForWriter(e: Entry, events: bv32) {
    RunsWriter(events) ==> Has(e.interest, EPOLLOUT) && Has(events, EPOLLOUT)
  }

  /** Handing over uses up one pending registration exactly when the events are fresh. */
  lemma ReadyUsesUpExactlyWhen(e: Entry, events: bv32)
    requires Has(e.interest, events)
    ensures var e' := AfterReady(e, events).1;
            && (One(RunsReader(events)) + One(Has(e'.interest, EPOLLIN)) <= One(Has(e.interest, EPOLLIN))
                <==> FreshForReader(e, events))
            && (One(RunsWriter(events)) + One(Has(e'.interest, EPOLLOUT)) <= One(Has(e.interest, EPOLLOUT))
                <==> FreshForWriter(e, events))
  {
    ReaderBits(e.interest, events);
    WriterBits(e.interest, events);
    hide Has, Minus, RunsReader, RunsWriter, CancelOp;
  }

  predicate OncePerRegistration(t: Tally) {
    && t.readerRuns + One(Has(t.e.interest, EPOLLIN)) <= t.readers
    && t.writerRuns + One(Has(t.e.interest, EPOLLOUT)) <= t.writers
  }

  /** Every hand-over in the run was for directions still registered at that moment. */
  predicate AllFresh(ops: seq<Op>) {
    ops == [] ||
    var before, op := ops[..|ops| - 1], ops[|ops| - 1];
    && AllFresh(before)
    && (op.Ready? && Has(DoAll(before).e.interest, op.events) ==>
          FreshForReader(DoAll(before).e, op.events) && FreshForWriter(DoAll(before).e, op.events))
  }

  lemma {:induction false} HandlersRunOncePerRegistration(ops: seq<Op>)
    requires AllFresh(ops)
    ensures OncePerRegistration(DoAll(ops))
  {
    assert OncePerRegistration(FIRST);
    hide Has, Minus, RunsReader, RunsWriter, CancelOp, UpdateOp;
    if ops != [] {
      var before, op := ops[..|ops| - 1], ops[|ops| - 1];
      HandlersRunOncePerRegistration(before);
      var e := DoAll(before).e;
      match op
      case Update(interest, _, _) =>
        FlagIsNoDirection(interest);
      case Cancel(target) =>
        ReaderBits(e.interest, target);
        WriterBits(e.interest, target);
      case Ready(events) =>
        if Has(e.interest, events) {
          ReadyUsesUpExactlyWhen(e, events);
        }
    }
  }

  /** Two threads returned from epoll_wait, one with "readable", the other later with
      "readable and writable". The reader is handed over twice for one registration,
      the second time as an empty function. */
  lemma StaleEventsRunTheReaderTwice(f: nat)
    ensures var both := EPOLLIN | EPOLLOUT;
            var t := DoAll([Update(both, Some(f), 0), Ready(EPOLLIN), Ready(both)]);
            && t.readers == 1 && t.readerRuns == 2
            && AfterReady(DoAll([Update(both, Some(f), 0), Ready(EPOLLIN)]).e, both).0 == [Nothing, Call(f)]
  {
    var both := EPOLLIN | EPOLLOUT;
    var o1, o2, o3 := Update(both, Some(f), 0), Ready(EPOLLIN), Ready(both);
    assert [o1, o2, o3][..2] == [o1, o2] && [o1, o2][..1] == [o1] && [o1][..0] == [];
    var t1 := Do(FIRST, o1);
    assert DoAll([o1]) == t1;
    var t2 := Do(t1, o2);
    assert DoAll([o1, o2]) == t2;
    assert t2.e.read == NO_HANDLER && t2.e.write == Handler(Some(f), None);
  }

  // ------------------------------------------------------------------
  // A registered direction has a handler

  predicate Served(e: Entry) {
    && (Has(e.interest, EPOLLIN) ==> !e.read.IsEmpty())
    && (Has(e.interest, EPOLLOUT) ==> !e.write.IsEmpty())
  }

  lemma UpdateServes(e: Entry, interest: bv32, func: Option<nat>, running: nat)
    ensures Served(Updated(e, interest, func, running))
  {
    FlagIsNoDirection(interest);
    hide Has;
  }

  /** Cancelling the write direction clears the read handler: a reader that is still
      registered is lost exactly then. */
  lemma CancelServesExactlyWhen(e: Entry, target: bv32)
    requires Served(e)
    ensures Served(Cancelled(e, target)) <==>
            !(Has(target, EPOLLOUT) && Has(e.interest, EPOLLIN) && !Has(target, EPOLLIN))
  {
    ReaderBits(e.interest, target);
    WriterBits(e.interest, target);
    hide Has, Minus, CancelOp, Ctl;
  }

  /** A handler that is taken leaves nothing behind, unless a stale coroutine went first. */
  predicate LeftEmpty(h: Handler) {
    h.func.None? || h.co.None?
  }

  /** A registered reader or writer is lost exactly when its handler goes while its
      registration stays: the reader when the descriptor becomes writable and not readable, or
      by an event that runs it without being in the interest; the writer by an error. */
  lemma ReadyServesExactlyWhen(e: Entry, events: bv32)
    requires Served(e) && Has(e.interest, events)
    ensures Served(AfterReady(e, events).1) <==>
            && !(Has(e.interest, EPOLLIN) && !Has(events, EPOLLIN)
                 && (Has(events, EPOLLOUT) || (RunsReader(events) && LeftEmpty(e.read))))
            && !(Has(e.interest, EPOLLOUT) && !Has(events, EPOLLOUT) && RunsWriter(events) && LeftEmpty(e.write))
  {
    ReaderBits(e.interest, events);
    WriterBits(e.interest, events);
    hide Has, Minus, RunsReader, RunsWriter, CancelOp, Ctl;
  }

  /** What each operation must observe so that no registered direction loses its handler. */
  predicate Keeps(e: Entry, op: Op) {
    match op
    case Update(_, _, _) => true
    case Cancel(target) =>
      Has(e.interest, target) ==> !(Has(target, EPOLLOUT) && Has(e.interest, EPOLLIN) && !Has(target, EPOLLIN))
    case Ready(events) =>
      Has(e.interest, events) ==>
        && !(Has(e.interest, EPOLLIN) && !Has(events, EPOLLIN)
             && (Has(events, EPOLLOUT) || (RunsReader(events) && LeftEmpty(e.read))))
        && !(Has(e.interest, EPOLLOUT) && !Has(events, EPOLLOUT) && RunsWriter(events) && LeftEmpty(e.write))
  }

  predicate AllKeep(ops: seq<Op>) {
    ops == [] ||
    var before := ops[..|ops| - 1];
    AllKeep(before) && Keeps(DoAll(before).e, ops[|ops| - 1])
  }

  predicate ServedThroughout(ops: seq<Op>) {
    Served(DoAll(ops).e) && (ops == [] || ServedThroughout(ops[..|ops| - 1]))
  }

  /** Over every run, each registered direction has a handler at every moment exactly when each
      operation observed that. */
  lemma {:induction false} ServedExactlyWhenKept(ops: seq<Op>)
    ensures ServedThroughout(ops) <==> AllKeep(ops)
  {
    assert Served(FIRST.e);
    hide Served, Has, RunsReader, RunsWriter, LeftEmpty, Updated, Cancelled, AfterReady;
    if ops != [] {
      var before, op := ops[..|ops| - 1], ops[|ops| - 1];
      ServedExactlyWhenKept(before);
      var e := DoAll(before).e;
      if Served(e) {
        match op
        case Update(interest, func, running) => UpdateServes(e, interest, func, running);
        case Cancel(target) => CancelServesExactlyWhen(e, target);
        case Ready(events) =>
          if Has(e.interest, events) {
            ReadyServesExactlyWhen(e, events);
          }
      }
    }
  }

  /** The assertions made when handlers are handed over: those the events call for are there. */
  predicate HandlersAreThere(e: Entry, events: bv32) {
    (RunsReader(events) ==> !e.read.IsEmpty()) && (RunsWriter(events) ==> !e.write.IsEmpty())
  }

  predicate ArmsReader(op: Op) {
    op.Update? && Has(op.interest, EPOLLIN)
  }

  predicate ArmsWriter(op: Op) {
    op.Update? && Has(op.interest, EPOLLOUT)
  }

  /** A cancel of either direction clears the reader, and so do ready events that name one; events
      that only run it take what it has, of which a stale coroutine is the first. */
  predicate EmptiesReader(e: Entry, op: Op) {
    match op
    case Update(_, _, _) => false
    case Cancel(target) => Has(e.interest, target) && (Has(target, EPOLLIN) || Has(target, EPOLLOUT))
    case Ready(events) =>
      && Has(e.interest, events)
      && (Has(events, EPOLLIN) || Has(events, EPOLLOUT) || (RunsReader(events) && LeftEmpty(e.read)))
  }

  /** Nothing clears the writer but running it. */
  predicate EmptiesWriter(e: Entry, op: Op) {
    op.Ready? && Has(e.interest, op.events) && RunsWriter(op.events) && LeftEmpty(e.write)
  }

  /** The reader was not emptied after operation `j`. */
  predicate ReaderLasts(ops: seq<Op>, j: nat) {
    forall k :: j < k < |ops| ==> !EmptiesReader(DoAll(ops[..k]).e, ops[k])
  }

  /** The reader was armed, and not emptied since. */
  predicate ReaderArmedSince(ops: seq<Op>) {
    exists j :: 0 <= j < |ops| && ArmsReader(ops[j]) && ReaderLasts(ops, j)
  }

  /** The writer was not emptied after operation `j`. */
  predicate WriterLasts(ops: seq<Op>, j: nat) {
    forall k :: j < k < |ops| ==> !EmptiesWriter(DoAll(ops[..k]).e, ops[k])
  }

  /** The writer was armed, and not emptied since. */
  predicate WriterArmedSince(ops: seq<Op>) {
    exists j :: 0 <= j < |ops| && ArmsWriter(ops[j]) && WriterLasts(ops, j)
  }

  lemma ReaderAfter(t: Tally, op: Op)
    ensures !Do(t, op).e.read.IsEmpty() <==>
            ArmsReader(op) || (!t.e.read.IsEmpty() && !EmptiesReader(t.e, op))
  {
    hide Has, Minus, CancelOp, Ctl, UpdateOp;
  }

  lemma WriterAfter(t: Tally, op: Op)
    ensures !Do(t, op).e.write.IsEmpty() <==>
            ArmsWriter(op) || (!t.e.write.IsEmpty() && !EmptiesWriter(t.e, op))
  {
    hide Has, Minus, CancelOp, Ctl, UpdateOp;
  }

  lemma ReaderLastsLonger(ops: seq<Op>, j: nat)
    requires ops != [] && j < |ops| - 1
    ensures var before := ops[..|ops| - 1];
            ReaderLasts(ops, j) <==> ReaderLasts(before, j) && !EmptiesReader(DoAll(before).e, ops[|ops| - 1])
  {
    hide EmptiesReader, DoAll;
    var n := |ops| - 1;
    forall k | 0 <= k < n ensures ops[..n][..k] == ops[..k] && ops[..n][k] == ops[k] {
    }
  }

  lemma ReaderArmedLonger(ops: seq<Op>)
    requires ops != []
    ensures var before, op := ops[..|ops| - 1], ops[|ops| - 1];
            ReaderArmedSince(ops) <==>
              ArmsReader(op) || (ReaderArmedSince(before) && !EmptiesReader(DoAll(before).e, op))
  {
    hide EmptiesReader, ArmsReader, DoAll, ReaderLasts;
    var n := |ops| - 1;
    var before := ops[..n];
    if j :| 0 <= j < n && ArmsReader(ops[j]) && ReaderLasts(ops, j) {
      ReaderLastsLonger(ops, j);
      assert ArmsReader(before[j]);
    }
    if j :| 0 <= j < n && ArmsReader(before[j]) && ReaderLasts(before, j) {
      ReaderLastsLonger(ops, j);
      assert ArmsReader(ops[j]);
    }
    assert ReaderLasts(ops, n) by {
      ReaderLastsAtEnd(ops);
    }
  }

  lemma ReaderLastsAtEnd(ops: seq<Op>)
    requires ops != []
    ensures ReaderLasts(ops, |ops| - 1)
  {
  }

  lemma {:induction false} ReaderThereExactlyWhen(ops: seq<Op>)
    ensures !DoAll(ops).e.read.IsEmpty() <==> ReaderArmedSince(ops)
  {
    if ops != [] {
      hide EmptiesReader, ArmsReader, Do, ReaderArmedSince;
      var before := ops[..|ops| - 1];
      ReaderThereExactlyWhen(before);
      ReaderAfter(DoAll(before), ops[|ops| - 1]);
      ReaderArmedLonger(ops);
    }
  }

  lemma WriterLastsLonger(ops: seq<Op>, j: nat)
    requires ops != [] && j < |ops| - 1
    ensures var before := ops[..|ops| - 1];
            WriterLasts(ops, j) <==> WriterLasts(before, j) && !EmptiesWriter(DoAll(before).e, ops[|ops| - 1])
  {
    hide EmptiesWriter, DoAll;
    var n := |ops| - 1;
    forall k | 0 <= k < n ensures ops[..n][..k] == ops[..k] && ops[..n][k] == ops[k] {
    }
  }

  lemma WriterArmedLonger(ops: seq<Op>)
    requires ops != []
    ensures var before, op := ops[..|ops| - 1], ops[|ops| - 1];
            WriterArmedSince(ops) <==>
              ArmsWriter(op) || (WriterArmedSince(before) && !EmptiesWriter(DoAll(before).e, op))
  {
    hide EmptiesWriter, ArmsWriter, DoAll, WriterLasts;
    var n := |ops| - 1;
    var before := ops[..n];
    if j :| 0 <= j < n && ArmsWriter(ops[j]) && WriterLasts(ops, j) {
      WriterLastsLonger(ops, j);
      assert ArmsWriter(before[j]);
    }
    if j :| 0 <= j < n && ArmsWriter(before[j]) && WriterLasts(before, j) {
      WriterLastsLonger(ops, j);
      assert ArmsWriter(ops[j]);
    }
    assert WriterLasts(ops, n) by {
      WriterLastsAtEnd(ops);
    }
  }

  lemma WriterLastsAtEnd(ops: seq<Op>)
    requires ops != []
    ensures WriterLasts(ops, |ops| - 1)
  {
  }

  lemma {:induction false} WriterThereExactlyWhen(ops: seq<Op>)
    ensures !DoAll(ops).e.write.IsEmpty() <==> WriterArmedSince(ops)
  {
    if ops != [] {
      hide EmptiesWriter, ArmsWriter, Do, WriterArmedSince;
      var before := ops[..|ops| - 1];
      WriterThereExactlyWhen(before);
      WriterAfter(DoAll(before), ops[|ops| - 1]);
      WriterArmedLonger(ops);
    }
  }

  /** Each hand-over of the run found the handlers it called for. */
  predicate HandOversHold(ops: seq<Op>) {
    forall k :: 0 <= k < |ops| && HandsOver(ops, k) ==> HandlersAreThere(DoAll(ops[..k]).e, ops[k].events)
  }

  /** Operation `k` is one of ready events that concern the interest. */
  predicate HandsOver(ops: seq<Op>, k: nat)
    requires k < |ops|
  {
    ops[k].Ready? && Has(DoAll(ops[..k]).e.interest, ops[k].events)
  }

  /** Over every run, the assertions made at the hand-overs hold exactly when each direction that is
      run was armed, by an update that names it, and not emptied since. */
  lemma HandOversHoldExactlyWhen(ops: seq<Op>)
    ensures HandOversHold(ops) <==>
            forall k :: 0 <= k < |ops| && HandsOver(ops, k) ==>
              && (RunsReader(ops[k].events) ==> ReaderArmedSince(ops[..k]))
              && (RunsWriter(ops[k].events) ==> WriterArmedSince(ops[..k]))
  {
    hide RunsReader, RunsWriter, ReaderArmedSince, WriterArmedSince, HandsOver;
    forall k | 0 <= k < |ops|
      ensures !DoAll(ops[..k]).e.read.IsEmpty() <==> ReaderArmedSince(ops[..k])
      ensures !DoAll(ops[..k]).e.write.IsEmpty() <==> WriterArmedSince(ops[..k])
    {
      ReaderThereExactlyWhen(ops[..k]);
      WriterThereExactlyWhen(ops[..k]);
    }
  }

  /** They hold in particular when the events are fresh and the operations keep the handlers. */
  lemma {:induction false} HandOversHoldInRun(ops: seq<Op>)
    requires AllKeep(ops) && AllFresh(ops)
    ensures HandOversHold(ops)
  {
    if ops != [] {
      var n := |ops| - 1;
      var before := ops[..n];
      HandOversHoldInRun(before);
      ServedExactlyWhenKept(before);
      assert Served(DoAll(before).e);
      forall k | 0 <= k < |ops| && HandsOver(ops, k)
        ensures HandlersAreThere(DoAll(ops[..k]).e, ops[k].events)
      {
        if k < n {
          assert before[..k] == ops[..k];
          assert HandsOver(before, k);
        }
      }
    }
  }
}
