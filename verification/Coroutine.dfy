/** The states of a coroutine and the operations that move it between them. */
module CoroutineStates {
  datatype CoState = Init | Exec | Hold | Ready | Terminal | Except

  predicate Runnable(st: CoState) {
    st.Init? || st.Hold? || st.Ready?
  }

  predicate Finished(st: CoState) {
    st.Terminal? || st.Except?
  }

  datatype Op = SwapIn | YieldToHold | YieldToReady | End(threw: bool) | Reset

  /** What the program asserts before each operation. */
  predicate Allowed(st: CoState, op: Op) {
    match op
    case SwapIn => !st.Exec?
    case Reset => Finished(st) || st.Init?
    case _ => st.Exec?
  }

  function Next(op: Op): CoState {
    match op
    case SwapIn => Exec
    case YieldToHold => Hold
    case YieldToReady => Ready
    case End(threw) => if threw then Except else Terminal
    case Reset => Init
  }

  function StateAfter(st: CoState, ops: seq<Op>): CoState {
    if ops == [] then st else Next(ops[|ops| - 1])
  }

  /** Each operation is allowed in the state the ones before it lead to. */
  predicate IsLife(st: CoState, ops: seq<Op>) {
    ops == [] || (IsLife(st, ops[..|ops| - 1]) && Allowed(StateAfter(st, ops[..|ops| - 1]), ops[|ops| - 1]))
  }

  function Ends(ops: seq<Op>): nat {
    if ops == [] then 0
    else Ends(ops[..|ops| - 1]) + (if ops[|ops| - 1].End? then 1 else 0)
  }

  /** How often `op` was applied to a finished coroutine. */
  function WhenFinished(st: CoState, ops: seq<Op>, op: Op): nat {
    if ops == [] then 0
    else WhenFinished(st, ops[..|ops| - 1], op)
         + (if ops[|ops| - 1] == op && Finished(StateAfter(st, ops[..|ops| - 1])) then 1 else 0)
  }

  function Ins(ops: seq<Op>): nat {
    if ops == [] then 0
    else Ins(ops[..|ops| - 1]) + (if ops[|ops| - 1].SwapIn? then 1 else 0)
  }

  function Outs(ops: seq<Op>): nat {
    if ops == [] then 0
    else Outs(ops[..|ops| - 1])
         + (if ops[|ops| - 1].YieldToHold? || ops[|ops| - 1].YieldToReady? || ops[|ops| - 1].End? then 1 else 0)
  }

  /** Over any life of a new coroutine, slices open and close in turn, and every end
      but a last one was followed by a Reset or by a SwapIn of the finished coroutine,
      which nothing in SwapIn forbids. */
  lemma {:induction false} LifeIsAccounted(ops: seq<Op>)
    requires IsLife(Init, ops)
    ensures Ins(ops) == Outs(ops) + (if StateAfter(Init, ops).Exec? then 1 else 0)
    ensures Ends(ops) == WhenFinished(Init, ops, Reset) + WhenFinished(Init, ops, SwapIn)
                         + (if Finished(StateAfter(Init, ops)) then 1 else 0)
  {
    if ops != [] {
      var before := ops[..|ops| - 1];
      LifeIsAccounted(before);
    }
  }

  /** Such a life there is: a slice, its end, and another slice. */
  lemma FinishedIsSwappedInAgain()
    ensures var ops := [SwapIn, End(false), SwapIn];
            IsLife(Init, ops) && WhenFinished(Init, ops, SwapIn) == 1 && WhenFinished(Init, ops, Reset) == 0
  {
    var ops := [SwapIn, End(false), SwapIn];
    assert ops[..2] == [SwapIn, End(false)] && ops[..2][..1] == [SwapIn] && [SwapIn][..0] == [];
  }

  /** So a finished coroutine starts over through Reset alone exactly when it is never
      swapped in while finished. */
  lemma RestartsByResetExactlyWhen(ops: seq<Op>)
    requires IsLife(Init, ops)
    ensures Ends(ops) == WhenFinished(Init, ops, Reset) + (if Finished(StateAfter(Init, ops)) then 1 else 0)
       <==> SwapsInRunnable(ops)
  {
    LifeIsAccounted(ops);
    NeverSpentExactlyWhen(ops);
  }

  /** Every swap-in is of a coroutine that can run. */
  predicate SwapsInRunnable(ops: seq<Op>) {
    forall k :: 0 <= k < |ops| && ops[k].SwapIn? ==> Runnable(StateAfter(Init, ops[..k]))
  }

  lemma {:induction false} NeverSpentExactlyWhen(ops: seq<Op>)
    requires IsLife(Init, ops)
    ensures WhenFinished(Init, ops, SwapIn) == 0 <==> SwapsInRunnable(ops)
  {
    if ops != [] {
      var n := |ops| - 1;
      var before := ops[..n];
      NeverSpentExactlyWhen(before);
      forall k | 0 <= k < n ensures before[k] == ops[k] && before[..k] == ops[..k] {
      }
      assert SwapsInRunnable(ops)
        <==> SwapsInRunnable(before) && (ops[n].SwapIn? ==> Runnable(StateAfter(Init, before))) by {
        hide StateAfter, Runnable;
      }
    }
  }
}

/** Coroutines and the thread they run on. A context holds the flow of execution that
    continues when the context is switched to; here a flow is named by the coroutine
    whose stack it is on. The program keeps no record of who swapped in whom: it works
    out where to return to from three thread-local pointers. `nest` is that record. */
module CoroutineObject {
  import opened Base
  import opened CoroutineStates

  class Coroutine {
    const isDummyMain: bool
    const hasStack: bool
    var func: Option<nat>
    var state: CoState
    var ctx: Coroutine

    /** The main coroutine of a thread: it runs on the thread's own stack. */
    constructor Main()
      ensures !isDummyMain && !hasStack && func == None && state == Exec && ctx == this
    {
      isDummyMain, hasStack, func, state := false, false, None, Exec;
      ctx := this;
    }

    constructor (func: nat, isDummyMain: bool)
      ensures this.isDummyMain == isDummyMain && hasStack
      ensures this.func == Some(func) && state == Init && ctx == this
    {
      this.isDummyMain, hasStack, this.func, state := isDummyMain, true, Some(func), Init;
      ctx := this;
    }

    method Reset(func: Option<nat>)
      requires hasStack && (state.Terminal? || state.Except? || state.Init?)
      modifies this
      ensures state == Next(Op.Reset) == Init && this.func == func && ctx == this
    {
      this.func := func;
      ctx := this;
      state := Init;
    }
  }

  class ThreadContext {
    var current: Coroutine?
    var main: Coroutine?
    var scheduling: Coroutine?
    var flow: Coroutine?
    ghost var nest: seq<Coroutine>

    /** A thread is on its main coroutine; or on the dummy-main or a task that this swapped
        in; or on a task that the dummy-main swapped in. */
    ghost predicate HasShape()
      reads this, nest
    {
      match |nest|
      case 0 => main == null && current == null
      case 1 => nest[0] == main == current
      case 2 => nest[0] == main && nest[1] == current != main && (nest[1].isDummyMain || scheduling == main)
      case 3 => nest[0] == main && nest[1] == scheduling != main && nest[1].isDummyMain
                && nest[2] == current != main && nest[2] != nest[1] && !nest[2].isDummyMain
      case _ => false
    }

    /** The innermost coroutine may already have given up its state, being about to swap out. */
    ghost predicate Nested()
      reads this, nest
    {
      && HasShape()
      && (nest != [] ==> flow == current && !nest[0].isDummyMain)
      && (forall k :: 0 <= k < |nest| ==> nest[k].ctx == nest[k])
      && (forall k :: 0 <= k < |nest| - 1 ==> nest[k].state.Exec?)
    }

    ghost predicate Valid()
      reads this, nest
    {
      Nested() && (nest != [] ==> nest[|nest| - 1].state.Exec?)
    }

    constructor ()
      ensures Valid() && nest == []
    {
      current, main, scheduling, flow := null, null, null, null;
      nest := [];
    }

    method GetMainCoroutine() returns (m: Coroutine)
      requires Valid()
      modifies this
      ensures Valid() && m == main && scheduling == old(scheduling)
      ensures old(main) != null ==> main == old(main) && nest == old(nest)
      ensures old(main) == null ==> fresh(main) && nest == [main]
    {
      if current == null {
        m := new Coroutine.Main();
        main, current, flow := m, m, m;
        nest := [m];
      }
      m := main;
    }

    /** Called by the scheduling function, which runs on the main or the dummy-main coroutine.
        The program asserts that none is set yet, unless this takes it away. */
    method SetSchedulingCoroutine(co: Coroutine?)
      requires Valid() && nest != [] && (current == main || current.isDummyMain)
      requires co != null ==> scheduling == null
      modifies this`scheduling
      ensures Valid() && scheduling == co
    {
      scheduling := co;
    }

    method SwitchContext(from: Coroutine, to: Coroutine)
      requires flow != null && from != to
      modifies this`flow, from`ctx
      ensures from.ctx == old(flow) && flow == to.ctx
    {
      from.ctx := flow;
      flow := to.ctx;
    }

    /** What SwapIn asserts. */
    ghost predicate CanSwapIn(co: Coroutine)
      reads this, co
    {
      && current != null && current == (if co.isDummyMain then main else scheduling)
      && !co.state.Exec?
    }

    method SwapIn(co: Coroutine)
      requires Valid() && CanSwapIn(co) && co.ctx == co
      modifies this`current, this`flow, this`nest, co, nest
      ensures Valid() && nest == old(nest) + [co] && current == co
      ensures forall k :: 0 <= k < |old(nest)| ==> unchanged(old(nest)[k])
      ensures co.func == old(co.func) && co.state == Next(Op.SwapIn) == Exec
    {
      current := co;
      co.state := Exec;
      if !co.isDummyMain {
        SwitchContext(scheduling, co);
      } else {
        SwitchContext(main, co);
      }
      nest := nest + [co];
    }

    /** Returns to the coroutine that swapped this one in. */
    method SwapOut(co: Coroutine)
      requires Nested() && nest != [] && co == current != main
      modifies this`current, this`flow, this`nest, nest
      ensures Valid() && nest == old(nest)[..|old(nest)| - 1]
      ensures current == flow == old(nest)[|old(nest)| - 2]
      ensures forall k :: 0 <= k < |old(nest)| ==> unchanged(old(nest)[k])
    {
      if !co.isDummyMain {
        current := scheduling;
        SwitchContext(co, scheduling);
      } else {
        current := main;
        SwitchContext(co, main);
      }
      nest := nest[..|nest| - 1];
    }

    method YieldCurCoroutineToHold()
      requires Valid() && nest != [] && current != main
      modifies this`current, this`flow, this`nest, nest
      ensures Valid() && nest == old(nest)[..|old(nest)| - 1]
      ensures current == flow == old(nest)[|old(nest)| - 2] && unchanged(current)
      ensures old(current).state == Next(YieldToHold) == Hold && old(current).func == old(current.func)
      ensures old(current).ctx == old(current)
    {
      current.state := Hold;
      SwapOut(current);
    }

    method YieldCurCoroutineToReady()
      requires Valid() && nest != [] && current != main
      modifies this`current, this`flow, this`nest, nest
      ensures Valid() && nest == old(nest)[..|old(nest)| - 1]
      ensures current == flow == old(nest)[|old(nest)| - 2] && unchanged(current)
      ensures old(current).state == Next(YieldToReady) == Ready && old(current).func == old(current.func)
      ensures old(current).ctx == old(current)
    {
      current.state := Ready;
      SwapOut(current);
    }

    /** The end of a coroutine's function. Without a function, calling it throws; a
        function that threw is kept until the next Reset. */
    method CoroutineFunc(threw: bool)
      requires Valid() && nest != [] && current != main
      requires current.func == None ==> threw
      modifies this`current, this`flow, this`nest, nest
      ensures Valid() && nest == old(nest)[..|old(nest)| - 1]
      ensures current == flow == old(nest)[|old(nest)| - 2] && unchanged(current)
      ensures old(current).state == Next(End(threw)) == if threw then Except else Terminal
      ensures old(current).ctx == old(current)
      ensures old(current).func == if threw then old(current.func) else None
    {
      if !threw {
        current.func := None;
        current.state := Terminal;
      } else {
        current.state := Except;
      }
      SwapOut(current);
    }
  }
}
