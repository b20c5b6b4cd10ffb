/** The logger manager and the configuration variable that drives it, as objects. */
module LoggerManagerObject {
  import opened Base
  import opened LogFormat
  import opened LogFormatterObject
  import opened LoggerTree
  import opened LoggerConfig

  class LoggerManager {
    const rootLogger: Logger
    const openable: set<string>
    var loggers: map<string, Logger>

    ghost predicate Valid()
      reads this, loggers.Values
    {
      && (forall n :: n in loggers ==> loggers[n].name == n)
      && rootLogger.name == ROOT
    }

    /** `formatter` is what the fixed pattern of the root logger denotes; `unset` is the level
        of the root logger's appender, which the program never initializes. */
    constructor (openable: set<string>, formatter: seq<Item>, unset: nat)
      ensures Valid() && this.openable == openable && fresh(rootLogger) && rootLogger.name == "SYLAR"
      ensures loggers.Keys == {ROOT}
      ensures SetupOf(rootLogger) == Setup(1, Some(formatter), [Appender(StdOut, unset, false, Some(formatter))])
    {
      var root := new Logger(ROOT);
      root.SetFormatter(Some(formatter));
      root.AddAppender(Appender(StdOut, unset, false, None));
      this.openable := openable;
      rootLogger := root;
      loggers := map[ROOT := root];
    }

    function SetupOf(l: Logger): Setup
      reads l
    {
      Setup(l.level, l.formatter, l.appenders)
    }

    function View(): Setups
      reads this, loggers.Values
    {
      map n | n in loggers :: SetupOf(loggers[n])
    }

    /** The formatter that looking up the root logger by its name would find, if need be in a new one. */
    function RootFormatter(): Option<seq<Item>>
      reads this, rootLogger, loggers.Values
    {
      if ROOT in loggers then loggers[ROOT].formatter else rootLogger.formatter
    }

    /** One logger changed, and with it one setup. */
    twostate lemma OneSetupChanged(l: Logger)
      requires old(Valid()) && Valid() && loggers == old(loggers)
      requires l.name in loggers && loggers[l.name] == l
      requires forall n :: n in loggers && n != l.name ==> unchanged(loggers[n])
      ensures View() == old(View())[l.name := SetupOf(l)]
    {
      forall n | n in loggers ensures View()[n] == old(View())[l.name := SetupOf(l)][n] {
        if n != l.name {
          assert unchanged(loggers[n]);
        }
      }
    }

    /** The walk up from the root cannot meet a logger that was just made, so its
        parent is set without a search. */
    method InitLoggerAndAppend(name: string) returns (l: Logger)
      requires Valid() && name !in loggers
      modifies this`loggers
      ensures Valid() && fresh(l) && loggers == old(loggers)[name := l]
      ensures SetupOf(l) == Setup(1, rootLogger.formatter, []) && l.parent == rootLogger
      ensures View() == old(View())[name := SetupOf(l)]
    {
      l := new Logger(name);
      l.parent := rootLogger;
      l.SetFormatter(rootLogger.formatter);
      loggers := loggers[name := l];
      forall n | n in loggers ensures View()[n] == old(View())[name := SetupOf(l)][n] {
      }
    }

    method GetLogger(name: string) returns (l: Logger)
      requires Valid()
      modifies this`loggers
      ensures Valid() && name in loggers && loggers[name] == l
      ensures name in old(loggers) ==> loggers == old(loggers)
      ensures name !in old(loggers) ==> fresh(l) && loggers == old(loggers)[name := l]
      ensures name !in old(loggers) ==> SetupOf(l) == Setup(1, rootLogger.formatter, [])
      ensures RootFormatter() == old(RootFormatter())
      ensures forall n :: n != name ==> SameAt(old(View()), View(), n)
    {
      if name in loggers {
        return loggers[name];
      }
      l := InitLoggerAndAppend(name);
    }

    /** The root logger too can be taken off the map; the manager keeps it all the same. */
    method RemoveLogger(name: string)
      requires Valid()
      modifies this`loggers
      ensures Valid() && loggers == old(loggers) - {name} && View() == old(View()) - {name}
    {
      loggers := loggers - {name};
    }

    /** An appender and its formatter, if the definition asks for one; `formatter` is what
        the logger gives it otherwise. `ok` is false when the pattern is malformed. */
    method GenerateAppender(def: AppenderDef, ghost formatter: Option<seq<Item>>)
        returns (ok: bool, made: Option<Appender>)
      requires NamesStream(def)
      ensures ok <==> AppenderMakes(def, openable)
      ensures made.Some? && def.kind == "console" && def.meta == "out" ==> made.value.sink == StdOut
      ensures made.Some? && def.kind == "console" && def.meta == "error" ==> made.value.sink == StdErr
      ensures made.Some? && def.kind == "file" ==> def.meta in openable && made.value.sink == File(def.meta)
      ensures made.Some? <==> def.kind == "console" || (def.kind == "file" && def.meta in openable)
      ensures made.Some? ==> made.value.level == def.level
      ensures ok && made.Some? ==>
                (made.value.special <==> def.pattern != "")
                && (def.pattern != "" ==> made.value.formatter == Parse(def.pattern))
      ensures ok && made.None? ==> BuiltAppender(def, formatter, openable) == []
      ensures ok && made.Some? ==>
                BuiltAppender(def, formatter, openable)
                == [if made.value.special then made.value else made.value.(formatter := formatter)]
    {
      ok, made := true, None;
      if def.kind == "console" {
        if def.meta == "out" {
          made := Some(Appender(StdOut, def.level, false, None));
        } else if def.meta == "error" {
          made := Some(Appender(StdErr, def.level, false, None));
        }
      } else if def.kind == "file" {
        if def.meta !in openable {
          return true, None;
        }
        made := Some(Appender(File(def.meta), def.level, false, None));
      } else {
        return true, None;
      }
      if def.pattern != "" {
        var f := new LogFormatter(def.pattern);
        ok := f.Init();
        if !ok {
          return;
        }
        made := Some(made.value.(special := true, formatter := Some(f.items)));
      }
    }

    /** The part of making a logger that touches nothing but the logger. Without a pattern of its
        own it takes the `inherited` formatter. */
    method Configure(l: Logger, def: LoggerDef, inherited: Option<seq<Item>>) returns (ok: bool)
      requires forall k :: 0 <= k < |def.appenders| ==> NamesStream(def.appenders[k])
      modifies l
      ensures l.parent == old(l.parent)
      ensures ok <==> Makes(def, openable)
      ensures ok ==> SetupOf(l) == Built(def, inherited, openable)
      ensures ok ==> l.level == def.level
      ensures ok ==> l.formatter == if def.pattern == "" then inherited else Parse(def.pattern)
    {
      hide Parse, BuiltAppender, AppenderMakes;
      l.level := def.level;
      var formatter := inherited;
      if def.pattern != "" {
        var f := new LogFormatter(def.pattern);
        ok := f.Init();
        if !ok {
          return;
        }
        formatter := Some(f.items);
      }
      l.SetFormatter(formatter);
      l.ClearAllAppender();
      for k := 0 to |def.appenders|
        modifies l`appenders
        invariant l.appenders == BuiltAppenders(def.appenders[..k], formatter, openable)
        invariant forall j :: 0 <= j < k ==> AppenderMakes(def.appenders[j], openable)
      {
        var appender;
        ok, appender := GenerateAppender(def.appenders[k], formatter);
        if !ok {
          return;
        }
        if appender.Some? {
          l.AddAppender(appender.value);
        }
        assert def.appenders[..k + 1][..k] == def.appenders[..k];
      }
      assert def.appenders[..|def.appenders|] == def.appenders;
      ok := true;
    }

    /** Makes or redoes the logger of a definition, the root logger's included. A definition without
        a pattern looks the root logger up by its name. When a pattern is malformed this throws half
        way, with only that logger touched. */
    method Generate(def: LoggerDef) returns (ok: bool)
      requires Valid() && def.name != ""
      requires forall k :: 0 <= k < |def.appenders| ==> NamesStream(def.appenders[k])
      modifies this`loggers, if def.name in loggers then {loggers[def.name]} else {}
      ensures Valid()
      ensures def.name != ROOT ==>
                SetupOf(rootLogger) == old(SetupOf(rootLogger)) && RootFormatter() == old(RootFormatter())
      ensures loggers.Keys == old(loggers).Keys + {def.name} + (if def.pattern == "" then {ROOT} else {})
      ensures forall n :: n in loggers ==> (n in old(loggers) && loggers[n] == old(loggers)[n]) || fresh(loggers[n])
      ensures forall n :: n != def.name ==> Kept(old(View()), View(), n)
      ensures ok <==> Makes(def, openable)
      ensures ok ==> View()[def.name] == Built(def, old(RootFormatter()), openable)
    {
      hide Built, Makes, NamesStream, Kept;
      ghost var before := View();
      BuiltByPattern(def, RootFormatter(), None, openable);
      var l: Logger := GetLogger(def.name);
      ghost var named := View();
      var inherited := Inherited(def);
      ghost var found := View();
      label Found:
      ok := Configure(l, def, inherited);
      OneSetupChanged@Found(l);
      forall n | n != def.name ensures Kept(before, View(), n) {
        KeptAll(before, named, found, View(), n);
      }
    }

    /** What a definition without a pattern takes over: the formatter of the root logger, which is
        looked up by its name and made again if that is missing. */
    method Inherited(def: LoggerDef) returns (formatter: Option<seq<Item>>)
      requires Valid() && def.name in loggers
      modifies this`loggers
      ensures Valid() && loggers.Keys == old(loggers).Keys + (if def.pattern == "" then {ROOT} else {})
      ensures forall n :: n in loggers ==> (n in old(loggers) && loggers[n] == old(loggers)[n]) || fresh(loggers[n])
      ensures RootFormatter() == old(RootFormatter()) && loggers[def.name] == old(loggers)[def.name]
      ensures forall n :: Kept(old(View()), View(), n)
      ensures formatter == if def.pattern == "" then RootFormatter() else None
    {
      formatter := None;
      if def.pattern == "" {
        var root: Logger := GetLogger(ROOT);
        formatter := root.formatter;
      }
    }

    /** The first loop of the monitor, over the new definitions. */
    method CreateOrUpdate(old_: Config, now: Config) returns (ok: bool)
      requires Valid() && Proper(now)
      modifies this`loggers, loggers.Values
      ensures Valid() && RootFormatter() == old(RootFormatter())
      ensures ok <==> forall d :: d in now && d !in old_ ==> Makes(d, openable)
      ensures ok ==> forall d :: d in now && d !in old_ ==> IsBuilt(d, View(), RootFormatter(), openable)
      ensures forall name :: !Named(now - old_, name) ==> Kept(old(View()), View(), name)
    {
      hide Makes, Built;
      var rest := now;
      while rest != {}
        invariant rest <= now && Valid() && RootFormatter() == old(RootFormatter())
        invariant forall n :: n in loggers ==> (n in old(loggers) && loggers[n] == old(loggers)[n]) || fresh(loggers[n])
        invariant forall d :: d in now && d !in rest && d !in old_ ==> Makes(d, openable)
        invariant forall d :: d in now && d !in rest && d !in old_ ==>
                    IsBuilt(d, View(), RootFormatter(), openable)
        invariant forall name :: !Named(now - old_, name) ==> Kept(old(View()), View(), name)
        decreases rest
      {
        var d :| d in rest;
        if d !in old_ {
          assert d in now - old_ && Named(now - old_, d.name);
          ghost var before := View();
          ok := Generate(d);
          forall name | !Named(now - old_, name) ensures Kept(old(View()), View(), name) {
            assert Kept(before, View(), name);
          }
          if !ok {
            return;
          }
          forall e | e in now && e !in rest && e !in old_ ensures IsBuilt(e, View(), RootFormatter(), openable) {
            assert IsBuilt(e, before, RootFormatter(), openable) && e.name != d.name;
            assert Kept(before, View(), e.name);
          }
        }
        rest := rest - {d};
      }
      ok := true;
    }

    /** The second loop of the monitor, over the old definitions. */
    method RemoveMissing(old_: Config, now: Config)
      requires Valid() && Proper(old_)
      modifies this`loggers
      ensures Valid() && RootFormatter() == old(RootFormatter())
      ensures forall name :: Named(old_, name) && !Named(now, name) ==> name !in View()
      ensures forall name :: !(Named(old_, name) && !Named(now, name)) ==> SameAt(old(View()), View(), name)
    {
      var rest := old_;
      while rest != {}
        invariant rest <= old_ && Valid() && RootFormatter() == old(RootFormatter())
        invariant forall d :: d in old_ && d !in rest && !Named(now, d.name) ==> d.name !in View()
        invariant forall name :: !(Named(old_, name) && !Named(now, name)) ==> SameAt(old(View()), View(), name)
        decreases rest
      {
        var d :| d in rest;
        if !Named(now, d.name) {
          assert Named(old_, d.name);
          RemoveLogger(d.name);
        }
        rest := rest - {d};
      }
    }

    /** The monitor: makes or redoes the loggers of new definitions, then removes the
        loggers whose definitions are gone. A malformed pattern stops it half way. */
    method Reconcile(old_: Config, now: Config) returns (ok: bool)
      requires Valid() && Proper(old_) && Proper(now)
      modifies this`loggers, loggers.Values
      ensures Valid() && RootFormatter() == old(RootFormatter())
      ensures ok <==> forall d :: d in now && d !in old_ ==> Makes(d, openable)
      ensures ok ==> Reconciled(old(View()), View(), old_, now, RootFormatter(), openable)
      ensures forall name :: !Named(now - old_, name) && !(Named(old_, name) && !Named(now, name)) ==>
                Kept(old(View()), View(), name)
    {
      hide Makes, Built;
      ok := CreateOrUpdate(old_, now);
      if ok {
        ghost var made := View();
        RemoveMissing(old_, now);
        forall d | d in now && d !in old_ ensures SameAt(made, View(), d.name) {
          assert Named(now, d.name);
        }
      }
    }
  }

  /** The configuration variable of the loggers, with the one monitor that reconciles them. */
  class ConfigVar {
    var val: Config
    const manager: LoggerManager

    constructor (manager: LoggerManager)
      ensures val == {} && this.manager == manager
    {
      val := {};
      this.manager := manager;
    }

    /** The loggers are set up for the current value. */
    ghost predicate InStep()
      reads this, manager, manager.rootLogger, manager.loggers.Values
    {
      && manager.Valid() && Proper(val)
      && SetUpFor(manager.View(), val, manager.RootFormatter(), manager.openable)
    }

    /** In step, each configured logger is what its definition says. */
    lemma SetUpAsDefined()
      requires InStep()
      ensures forall d :: d in val ==>
                && d.name in manager.loggers
                && IsSetUpAs(manager.SetupOf(manager.loggers[d.name]), d, manager.RootFormatter(), manager.openable)
    {
      forall d | d in val
        ensures d.name in manager.loggers
        ensures IsSetUpAs(manager.SetupOf(manager.loggers[d.name]), d, manager.RootFormatter(), manager.openable)
      {
        assert manager.View()[d.name] == Built(d, manager.RootFormatter(), manager.openable);
        BuiltIsSetUpAs(d, manager.RootFormatter(), manager.openable);
      }
    }

    /** `ok` is false when the monitor throws. The value has changed by then, so setting
        the same value again returns at once and leaves the loggers out of step. */
    method SetVal(v: Config) returns (ok: bool)
      requires manager.Valid() && Proper(val) && Proper(v)
      modifies this`val, manager`loggers, manager.loggers.Values
      ensures val == v && manager.Valid()
      ensures manager.RootFormatter() == old(manager.RootFormatter())
      ensures v == old(val) ==> ok && manager.loggers == old(manager.loggers)
                                && manager.View() == old(manager.View())
      ensures v != old(val) ==> (ok <==> forall d :: d in v && d !in old(val) ==> Makes(d, manager.openable))
      ensures ok && v != old(val) ==>
                Reconciled(old(manager.View()), manager.View(), old(val), v,
                           manager.RootFormatter(), manager.openable)
      ensures old(InStep()) ==> (ok <==> InStep())
      ensures old(InStep()) && ok ==>
                forall d :: d in v ==>
                  && d.name in manager.loggers
                  && IsSetUpAs(manager.SetupOf(manager.loggers[d.name]), d, manager.RootFormatter(), manager.openable)
      ensures forall name :: !Named(v - old(val), name) && !(Named(old(val), name) && !Named(v, name)) ==>
                Kept(old(manager.View()), manager.View(), name)
    {
      hide Makes, Reconciled;
      if v == val {
        if InStep() {
          SetUpAsDefined();
        }
        return true;
      }
      ghost var before := manager.View();
      var prior := val;
      val := v;
      ok := manager.Reconcile(prior, v);
      if ok && old(InStep()) {
        ReconciledIsSetUp(before, manager.View(), prior, v, manager.RootFormatter(), manager.openable);
      }
      if InStep() {
        SetUpAsDefined();
      }
    }
  }
}
