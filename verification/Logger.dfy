/** Loggers: objects that hold appenders and a parent, and pass an event they have
    no appender for to that parent. */
module LoggerTree {
  import opened Base
  import opened LogFormat
  import opened ParentGraph

  datatype Sink = StdOut | StdErr | File(name: string)

  /** An appender. `special` says that its formatter was set for it and is not its logger's. */
  datatype Appender = Appender(sink: Sink, level: nat, special: bool, formatter: Option<seq<Item>>)

  datatype Line = Line(sink: Sink, text: string)

  /** What one appender writes for an event. */
  function Written(a: Appender, event: Event, strftime: (string, int) -> string): seq<Line> {
    if event.level >= a.level && a.formatter.Some?
    then [Line(a.sink, Formatted(a.formatter.value, event, strftime))] else []
  }

  function AllWritten(appenders: seq<Appender>, event: Event, strftime: (string, int) -> string): seq<Line> {
    if appenders == [] then []
    else AllWritten(appenders[..|appenders| - 1], event, strftime)
         + Written(appenders[|appenders| - 1], event, strftime)
  }

  /** A line is written exactly when it is that of an appender whose own level the event
      passes, and there is one line for each of those. */
  lemma {:induction false} WritesExactlyWhen(appenders: seq<Appender>, event: Event,
                                             strftime: (string, int) -> string, line: Line)
    ensures line in AllWritten(appenders, event, strftime)
       <==> exists k :: 0 <= k < |appenders| && event.level >= appenders[k].level && appenders[k].formatter.Some?
                        && line.sink == appenders[k].sink
                        && line.text == Formatted(appenders[k].formatter.value, event, strftime)
    ensures |AllWritten(appenders, event, strftime)| == Passing(appenders, event)
  {
    hide Formatted;
    if appenders != [] {
      var n := |appenders| - 1;
      WritesExactlyWhen(appenders[..n], event, strftime, line);
      assert forall k :: 0 <= k < n ==> appenders[..n][k] == appenders[k];
    }
  }

  function Passing(appenders: seq<Appender>, event: Event): nat {
    if appenders == [] then 0
    else
      var last := appenders[|appenders| - 1];
      Passing(appenders[..|appenders| - 1], event)
      + (if event.level >= last.level && last.formatter.Some? then 1 else 0)
  }

  /** The lines are in the order of the appenders: that of an appender follows those of all before it. */
  lemma {:induction false} LineIsInOrder(appenders: seq<Appender>, event: Event,
                                         strftime: (string, int) -> string, k: nat)
    requires k < |appenders| && event.level >= appenders[k].level && appenders[k].formatter.Some?
    ensures var lines, n := AllWritten(appenders, event, strftime), Passing(appenders[..k], event);
            && n < |lines|
            && lines[n] == Line(appenders[k].sink, Formatted(appenders[k].formatter.value, event, strftime))
  {
    var last := |appenders| - 1;
    var before := appenders[..last];
    if k < last {
      LineIsInOrder(before, event, strftime, k);
      assert before[..k] == appenders[..k];
    } else {
      WritesExactlyWhen(before, event, strftime, Line(StdOut, []));
    }
  }

  /** Two appenders that both write do so one after the other. */
  lemma {:induction false} PassingGrows(appenders: seq<Appender>, event: Event, j: nat, k: nat)
    requires j < k <= |appenders| && event.level >= appenders[j].level && appenders[j].formatter.Some?
    ensures Passing(appenders[..j], event) < Passing(appenders[..k], event)
    decreases k
  {
    assert appenders[..k][..k - 1] == appenders[..k - 1];
    if j < k - 1 {
      PassingGrows(appenders, event, j, k - 1);
    }
  }

  predicate CanWrite(appenders: seq<Appender>) {
    forall k :: 0 <= k < |appenders| ==> appenders[k].formatter.Some?
  }

  /** The appenders without a formatter of their own follow their logger's. */
  predicate Inherit(appenders: seq<Appender>, formatter: Option<seq<Item>>) {
    forall k :: 0 <= k < |appenders| && !appenders[k].special ==> appenders[k].formatter == formatter
  }

  /** All that was ever written, in order. */
  class Console {
    var lines: seq<Line>
  }

  /** How an event fares: held back by a level on the way, stuck at a logger with
      neither appenders nor parent, or delivered by a logger. */
  datatype Route = HeldBack | Stuck | To(logger: Logger)

  class Logger {
    const name: string
    var level: nat
    var appenders: seq<Appender>
    var formatter: Option<seq<Item>>
    var parent: Logger?

    constructor (name: string)
      ensures this.name == name && level == 1 && appenders == [] && formatter == None && parent == null
    {
      this.name := name;
      level, appenders, formatter, parent := 1, [], None, null;
    }

    method AddAppender(appender: Appender)
      modifies this`appenders
      ensures appenders == old(appenders) + [if appender.special then appender else appender.(formatter := formatter)]
      ensures Inherit(old(appenders), formatter) ==> Inherit(appenders, formatter)
    {
      var a := appender;
      if !a.special {
        a := a.(formatter := formatter);
      }
      appenders := appenders + [a];
    }

    method ClearAllAppender()
      modifies this`appenders
      ensures appenders == []
    {
      appenders := [];
    }

    /** Appenders that follow the logger follow it to the new formatter; the others keep theirs. */
    method SetFormatter(f: Option<seq<Item>>)
      modifies this`formatter, this`appenders
      ensures formatter == f && |appenders| == |old(appenders)|
      ensures forall k :: 0 <= k < |appenders| ==>
                appenders[k] == if old(appenders)[k].special then old(appenders)[k]
                                else old(appenders)[k].(formatter := f)
      ensures Inherit(appenders, formatter)
    {
      formatter := f;
      var i := 0;
      while i < |appenders|
        invariant 0 <= i <= |appenders| == |old(appenders)| && formatter == f
        invariant forall k :: 0 <= k < i ==>
                    appenders[k] == if old(appenders)[k].special then old(appenders)[k]
                                    else old(appenders)[k].(formatter := f)
        invariant forall k :: i <= k < |appenders| ==> appenders[k] == old(appenders)[k]
      {
        if !appenders[i].special {
          appenders := appenders[i := appenders[i].(formatter := f)];
        }
        i := i + 1;
      }
    }

    /** Walks up from the new parent and refuses it when the walk meets this logger. */
    method SetParent(p: Logger?, ghost all: set<Logger>) returns (threw: bool)
      requires this in all && (p != null ==> p in all)
      requires Closed(Links(all)) && Acyclic(Links(all))
      modifies this`parent
      ensures threw <==> p != null && Reaches<Logger>(old(Links(all)), p, this)
      ensures threw ==> parent == old(parent)
      ensures !threw ==> parent == p && Links(all) == old(Links(all))[this := Link(p)]
      ensures Closed(Links(all)) && Acyclic(Links(all))
    {
      ghost var g := Links(all);
      var current := p;
      while current != null
        invariant current != null ==> current in all
        invariant parent == old(parent) && Links(all) == g
        invariant p != null ==> (Reaches<Logger>(g, p, this) <==> current != null && Reaches<Logger>(g, current, this))
        invariant p == null ==> current == null
        decreases if current == null then 0 else Depth<Logger>(g, current) + 1
      {
        ReachesStep<Logger>(g, current, this);
        if current == this {
          return true;
        }
        if current.parent != null {
          DepthStep<Logger>(g, current);
        }
        current := current.parent;
      }
      if p != null {
        LinkKeepsAcyclicExactlyWhen<Logger>(g, this, p);
      } else {
        UnlinkKeepsAcyclic(g, this);
      }
      parent := p;
      threw := false;
      assert Links(all) == g[this := Link(p)];
    }

    /** The recursion of Log. It ends because the parent links have no cycle. The
        program asserts that a parent is there and that appenders have formatters. */
    method Log(event: Event, strftime: (string, int) -> string, console: Console, ghost all: set<Logger>)
      requires this in all && Closed(Links(all)) && Acyclic(Links(all))
      requires RouteOf(this, event.level, all) != Stuck
      requires RouteOf(this, event.level, all).To? ==> CanWrite(RouteOf(this, event.level, all).logger.appenders)
      modifies console
      ensures match RouteOf(this, event.level, all)
              case To(logger) => console.lines == old(console.lines) + AllWritten(logger.appenders, event, strftime)
              case _ => console.lines == old(console.lines)
      decreases Depth(Links(all), this)
    {
      if event.level >= level {
        if appenders == [] {
          DepthStep(Links(all), this);
          parent.Log(event, strftime, console, all);
        } else {
          for k := 0 to |appenders|
            invariant console.lines == old(console.lines) + AllWritten(appenders[..k], event, strftime)
          {
            assert appenders[..k + 1][..k] == appenders[..k];
            if event.level >= appenders[k].level {
              var text := Formatted(appenders[k].formatter.value, event, strftime);
              console.lines := console.lines + [Line(appenders[k].sink, text)];
            }
          }
          assert appenders[..|appenders|] == appenders;
        }
      }
    }
  }

  function Link(l: Logger?): Option<Logger> {
    if l == null then None else
      var there: Logger := l;
      Some(there)
  }

  /** The parent links of a set of loggers. */
  ghost function Links(all: set<Logger>): Graph<Logger>
    reads all
  {
    map l | l in all :: Link(l.parent)
  }

  ghost function RouteOf(l: Logger, level: nat, all: set<Logger>): Route
    requires l in all && Closed(Links(all)) && Acyclic(Links(all))
    reads all
    decreases Depth(Links(all), l)
  {
    if level < l.level then HeldBack
    else if l.appenders != [] then To(l)
    else if l.parent == null then Stuck
    else
      DepthStep(Links(all), l);
      RouteOf(l.parent, level, all)
  }

  /** A way up from `l`: each logger but the last has no appenders and the next one as its parent. */
  ghost predicate IsWayUp(l: Logger, path: seq<Logger>, all: set<Logger>)
    reads all
  {
    && path != [] && path[0] == l
    && (forall k :: 0 <= k < |path| ==> path[k] in all)
    && (forall k :: 0 <= k < |path| - 1 ==> path[k].appenders == [] && path[k].parent == path[k + 1])
  }

  /** An event reaches exactly the appenders of the nearest logger up the line that
      has any, and only if it passes the level of every logger up to that one. */
  ghost predicate DeliveredAlong(l: Logger, target: Logger, level: nat, path: seq<Logger>, all: set<Logger>)
    reads all
  {
    && IsWayUp(l, path, all)
    && path[|path| - 1] == target && target.appenders != []
    && (forall k :: 0 <= k < |path| ==> level >= path[k].level)
  }

  lemma {:induction false} RouteHasPath(l: Logger, level: nat, all: set<Logger>) returns (path: seq<Logger>)
    requires l in all && Closed(Links(all)) && Acyclic(Links(all))
    requires RouteOf(l, level, all).To?
    ensures DeliveredAlong(l, RouteOf(l, level, all).logger, level, path, all)
    decreases Depth(Links(all), l)
  {
    if l.appenders != [] {
      path := [l];
    } else {
      DepthStep(Links(all), l);
      var rest := RouteHasPath(l.parent, level, all);
      path := [l] + rest;
      assert forall k :: 0 < k < |path| ==> path[k] == rest[k - 1];
    }
  }

  lemma {:induction false} PathIsRoute(l: Logger, target: Logger, level: nat, path: seq<Logger>, all: set<Logger>)
    requires l in all && Closed(Links(all)) && Acyclic(Links(all))
    requires DeliveredAlong(l, target, level, path, all)
    ensures RouteOf(l, level, all) == To(target)
    decreases |path|
  {
    if |path| > 1 {
      assert path[0].parent == path[0 + 1];
      assert Links(all)[l] == Some(l.parent);
      var rest := path[1..];
      assert forall k :: 0 <= k < |rest| ==> rest[k] == path[k + 1];
      PathIsRoute(l.parent, target, level, rest, all);
    }
  }

  lemma DeliveryExactlyWhen(l: Logger, target: Logger, level: nat, all: set<Logger>)
    requires l in all && Closed(Links(all)) && Acyclic(Links(all))
    ensures RouteOf(l, level, all) == To(target) <==> exists path :: DeliveredAlong(l, target, level, path, all)
  {
    if RouteOf(l, level, all) == To(target) {
      var path := RouteHasPath(l, level, all);
      assert DeliveredAlong(l, target, level, path, all);
    }
    if path :| DeliveredAlong(l, target, level, path, all) {
      PathIsRoute(l, target, level, path, all);
    }
  }
}
