/** Loggers made from a configuration: the definitions, building a logger from one,
    and reconciling the loggers with a changed configuration by its differences. */
module LoggerConfig {
  import opened Base
  import opened LogFormat
  import opened LoggerTree

  datatype AppenderDef = AppenderDef(level: nat, pattern: string, kind: string, meta: string)

  datatype LoggerDef = LoggerDef(name: string, level: nat, pattern: string, appenders: seq<AppenderDef>)

  type Config = set<LoggerDef>

  /** What a definition decides about a logger. */
  datatype Setup = Setup(level: nat, formatter: Option<seq<Item>>, appenders: seq<Appender>)

  const ROOT := "SYLAR"

  // ------------------------------------------------------------------
  // Building from scratch

  /** The sink of an appender, if it gets one: an unknown kind, or a file that cannot be
      opened, is skipped. `openable` are the files that can be opened. */
  function SinkOf(def: AppenderDef, openable: set<string>): Option<Sink> {
    if def.kind == "console" then Some(if def.meta == "out" then StdOut else StdErr)
    else if def.kind == "file" && def.meta in openable then Some(File(def.meta))
    else None
  }

  function BuiltAppender(def: AppenderDef, formatter: Option<seq<Item>>, openable: set<string>): seq<Appender> {
    match SinkOf(def, openable)
    case None => []
    case Some(sink) =>
      [Appender(sink, def.level, def.pattern != "", if def.pattern != "" then Parse(def.pattern) else formatter)]
  }

  function BuiltAppenders(defs: seq<AppenderDef>, formatter: Option<seq<Item>>, openable: set<string>): seq<Appender> {
    if defs == [] then []
    else BuiltAppenders(defs[..|defs| - 1], formatter, openable)
         + BuiltAppender(defs[|defs| - 1], formatter, openable)
  }

  /** A logger without a pattern of its own takes the root logger's formatter. */
  function Built(def: LoggerDef, rootFormatter: Option<seq<Item>>, openable: set<string>): Setup {
    var formatter := if def.pattern == "" then rootFormatter else Parse(def.pattern);
    Setup(def.level, formatter, BuiltAppenders(def.appenders, formatter, openable))
  }

  /** A definition with a pattern of its own does not depend on the root logger. */
  lemma BuiltByPattern(def: LoggerDef, root: Option<seq<Item>>, root': Option<seq<Item>>, openable: set<string>)
    ensures def.pattern != "" ==> Built(def, root, openable) == Built(def, root', openable)
  {
  }

  /** A console appender must name one of the two streams; the program dereferences null otherwise. */
  predicate NamesStream(def: AppenderDef) {
    def.kind == "console" ==> def.meta == "out" || def.meta == "error"
  }

  /** An appender that gets made makes its formatter, and a malformed pattern throws. */
  predicate AppenderMakes(def: AppenderDef, openable: set<string>) {
    SinkOf(def, openable).Some? && def.pattern != "" ==> Parse(def.pattern).Some?
  }

  predicate Makes(def: LoggerDef, openable: set<string>) {
    && (def.pattern != "" ==> Parse(def.pattern).Some?)
    && (forall k :: 0 <= k < |def.appenders| ==> AppenderMakes(def.appenders[k], openable))
  }

  // ------------------------------------------------------------------
  // What is built, in terms of the definition

  /** The definition asks for an appender with this sink. */
  predicate AsksFor(def: AppenderDef, sink: Sink, openable: set<string>) {
    || (def.kind == "console" && def.meta == "out" && sink == StdOut)
    || (def.kind == "console" && def.meta == "error" && sink == StdErr)
    || (def.kind == "file" && def.meta in openable && sink == File(def.meta))
  }

  /** The definition gets no appender: its kind is unknown, or its file does not open. */
  predicate Skipped(def: AppenderDef, openable: set<string>) {
    (def.kind != "console" && def.kind != "file") || (def.kind == "file" && def.meta !in openable)
  }

  predicate IsMadeFrom(a: Appender, def: AppenderDef, formatter: Option<seq<Item>>, openable: set<string>) {
    && AsksFor(def, a.sink, openable) && a.level == def.level && (a.special <==> def.pattern != "")
    && a.formatter == if def.pattern != "" then Parse(def.pattern) else formatter
  }

  /** Appender `k` is made from definition `picks[k]`, in order, and all others are skipped. */
  predicate AreMadeFrom(appenders: seq<Appender>, picks: seq<nat>, defs: seq<AppenderDef>,
                        formatter: Option<seq<Item>>, openable: set<string>)
  {
    && |picks| == |appenders|
    && (forall k :: 0 <= k < |picks| ==> picks[k] < |defs|)
    && (forall k :: 0 <= k < |picks| ==> IsMadeFrom(appenders[k], defs[picks[k]], formatter, openable))
    && (forall j, k :: 0 <= j < k < |picks| ==> picks[j] < picks[k])
    && (forall i: nat :: i < |defs| && i !in picks ==> Skipped(defs[i], openable))
  }

  lemma OneMoreSkipped(appenders: seq<Appender>, picks: seq<nat>, defs: seq<AppenderDef>,
                       formatter: Option<seq<Item>>, openable: set<string>)
    requires defs != [] && Skipped(defs[|defs| - 1], openable)
    requires AreMadeFrom(appenders, picks, defs[..|defs| - 1], formatter, openable)
    ensures AreMadeFrom(appenders, picks, defs, formatter, openable)
  {
    hide IsMadeFrom, Skipped;
    var before := defs[..|defs| - 1];
    forall i: nat | i < |defs| && i !in picks ensures Skipped(defs[i], openable) {
      assert i < |before| ==> before[i] == defs[i];
    }
  }

  lemma OneMoreMade(appenders: seq<Appender>, a: Appender, picks: seq<nat>, defs: seq<AppenderDef>,
                    formatter: Option<seq<Item>>, openable: set<string>)
    requires defs != [] && IsMadeFrom(a, defs[|defs| - 1], formatter, openable)
    requires AreMadeFrom(appenders, picks, defs[..|defs| - 1], formatter, openable)
    ensures AreMadeFrom(appenders + [a], picks + [|defs| - 1], defs, formatter, openable)
  {
    hide IsMadeFrom, Skipped;
    var n := |defs| - 1;
    var before, picks' := defs[..n], picks + [n];
    forall i: nat | i < |defs| && i !in picks' ensures Skipped(defs[i], openable) {
      assert i !in picks && picks'[|picks|] == n;
      assert before[i] == defs[i];
    }
    forall k | 0 <= k < |picks'| ensures IsMadeFrom((appenders + [a])[k], defs[picks'[k]], formatter, openable) {
      if k < n && k < |picks| {
        assert IsMadeFrom(appenders[k], before[picks[k]], formatter, openable);
      }
    }
  }

  lemma {:induction false} BuiltInOrder(defs: seq<AppenderDef>, formatter: Option<seq<Item>>, openable: set<string>)
    returns (picks: seq<nat>)
    requires forall k :: 0 <= k < |defs| ==> NamesStream(defs[k])
    ensures AreMadeFrom(BuiltAppenders(defs, formatter, openable), picks, defs, formatter, openable)
  {
    if defs == [] {
      picks := [];
    } else {
      var n := |defs| - 1;
      var before, last := defs[..n], BuiltAppender(defs[n], formatter, openable);
      picks := BuiltInOrder(before, formatter, openable);
      assert last == [] ==> Skipped(defs[n], openable);
      assert last != [] ==> last == [last[0]] && IsMadeFrom(last[0], defs[n], formatter, openable);
      hide IsMadeFrom, Skipped, BuiltAppender, AreMadeFrom;
      if last == [] {
        OneMoreSkipped(BuiltAppenders(before, formatter, openable), picks, defs, formatter, openable);
      } else {
        OneMoreMade(BuiltAppenders(before, formatter, openable), last[0], picks, defs, formatter, openable);
        picks := picks + [n];
      }
    }
  }

  /** A logger is set up as a definition says: its level, its formatter or the root logger's, and in
      order one appender for each definition that is not skipped. */
  ghost predicate IsSetUpAs(setup: Setup, def: LoggerDef, root: Option<seq<Item>>, openable: set<string>) {
    && setup.level == def.level
    && setup.formatter == (if def.pattern != "" then Parse(def.pattern) else root)
    && exists picks :: AreMadeFrom(setup.appenders, picks, def.appenders, setup.formatter, openable)
  }

  lemma BuiltIsSetUpAs(def: LoggerDef, root: Option<seq<Item>>, openable: set<string>)
    requires forall k :: 0 <= k < |def.appenders| ==> NamesStream(def.appenders[k])
    ensures IsSetUpAs(Built(def, root, openable), def, root, openable)
  {
    var formatter := if def.pattern == "" then root else Parse(def.pattern);
    var picks := BuiltInOrder(def.appenders, formatter, openable);
  }

  /** A definition is refused exactly for a malformed pattern, its own or that of an appender it gets. */
  lemma MakesExactlyWhen(def: LoggerDef, openable: set<string>)
    ensures Makes(def, openable) <==>
            && (def.pattern != "" ==> Parse(def.pattern).Some?)
            && forall k :: 0 <= k < |def.appenders| && def.appenders[k].pattern != "" ==>
                 Skipped(def.appenders[k], openable) || Parse(def.appenders[k].pattern).Some?
  {
    forall k | 0 <= k < |def.appenders|
      ensures AppenderMakes(def.appenders[k], openable) <==>
              (def.appenders[k].pattern != "" ==>
                 Skipped(def.appenders[k], openable) || Parse(def.appenders[k].pattern).Some?)
    {
    }
  }

  predicate UniqueNames(config: Config) {
    forall d, e :: d in config && e in config && d.name == e.name ==> d == e
  }

  predicate Named(config: Config, name: string) {
    exists d :: d in config && d.name == name
  }

  /** A configuration this part of the program is meant for. */
  predicate Proper(config: Config) {
    && UniqueNames(config) && !Named(config, ROOT)
    && (forall d :: d in config ==> d.name != "")
    && (forall d :: d in config ==> forall k :: 0 <= k < |d.appenders| ==> NamesStream(d.appenders[k]))
  }

  // ------------------------------------------------------------------
  // Reconciling by difference equals rebuilding

  type Setups = map<string, Setup>

  predicate IsBuilt(d: LoggerDef, setups: Setups, root: Option<seq<Item>>, openable: set<string>) {
    d.name in setups && setups[d.name] == Built(d, root, openable)
  }

  /** Every configured logger could be made and is set up as its definition says. */
  ghost predicate SetUpFor(setups: Setups, config: Config, root: Option<seq<Item>>, openable: set<string>) {
    forall d :: d in config ==> Makes(d, openable) && IsBuilt(d, setups, root, openable)
  }

  ghost predicate SameAt(before: Setups, after: Setups, name: string) {
    (name in after <==> name in before) && (name in after ==> after[name] == before[name])
  }

  /** As it was, but that the root logger, if it was missing, may have been made again by looking it up. */
  ghost predicate Kept(before: Setups, after: Setups, name: string) {
    SameAt(before, after, name) || (name == ROOT && name !in before)
  }

  lemma KeptAll(before: Setups, named: Setups, found: Setups, after: Setups, name: string)
    requires SameAt(before, named, name) && Kept(named, found, name) && SameAt(found, after, name)
    ensures Kept(before, after, name)
  {
  }

  /** What the monitor does when nothing throws: definitions that were not there before
      are built, loggers that no definition names any more are removed, all others are
      left alone. */
  ghost predicate Reconciled(before: Setups, after: Setups, old_: Config, now: Config,
                             root: Option<seq<Item>>, openable: set<string>) {
    && (forall d :: d in now && d !in old_ ==>
          Makes(d, openable) && IsBuilt(d, after, root, openable))
    && (forall name :: Named(old_, name) && !Named(now, name) ==> name !in after)
    && (forall name :: !Named(now - old_, name) && !(Named(old_, name) && !Named(now, name)) ==>
          Kept(before, after, name))
  }

  function Names(config: Config): set<string> {
    set d | d in config :: d.name
  }

  ghost function DefNamed(config: Config, name: string): (d: LoggerDef)
    requires name in Names(config)
    ensures d in config && d.name == name
  {
    var d :| d in config && d.name == name;
    d
  }

  /** The loggers a configuration asks for, built from nothing. */
  ghost function Rebuilt(config: Config, root: Option<seq<Item>>, openable: set<string>): Setups {
    map name | name in Names(config) :: Built(DefNamed(config, name), root, openable)
  }

  /** Skipping the definitions that did not change loses nothing: the configured loggers
      are set up for the new configuration if they were for the old one. */
  lemma ReconciledIsSetUp(before: Setups, after: Setups, old_: Config, now: Config,
                          root: Option<seq<Item>>, openable: set<string>)
    requires UniqueNames(old_) && UniqueNames(now)
    requires SetUpFor(before, old_, root, openable)
    requires Reconciled(before, after, old_, now, root, openable)
    ensures SetUpFor(after, now, root, openable)
    ensures forall name :: Named(old_, name) && !Named(now, name) ==> name !in after
    ensures forall name :: !Named(old_, name) && !Named(now, name) ==> Kept(before, after, name)
  {
    forall d | d in now && d in old_ ensures SameAt(before, after, d.name) {
      assert !Named(now - old_, d.name);
      assert Named(now, d.name);
    }
    forall name | !Named(now, name) ensures !Named(now - old_, name) {
    }
  }

  /** A run of updates: `setups[k]` is there after the first `k` of them. */
  ghost predicate IsUpdateRun(setups: seq<Setups>, configs: seq<Config>,
                              root: Option<seq<Item>>, openable: set<string>)
  {
    && |setups| == |configs| > 0
    && (forall k :: 0 <= k < |configs| ==> UniqueNames(configs[k]) && !Named(configs[k], ROOT))
    && (forall k :: 0 < k < |configs| ==>
          Reconciled(setups[k - 1], setups[k], configs[k - 1], configs[k], root, openable))
  }

  ghost predicate EverNamed(configs: seq<Config>, name: string) {
    exists k :: 0 <= k < |configs| && Named(configs[k], name)
  }

  /** After any run of updates, of all the names ever configured exactly those of the
      latest configuration have a logger, set up as a rebuild from nothing would; and
      names that were never configured are as they were. */
  lemma {:induction false} UpdatesEqualRebuild(setups: seq<Setups>, configs: seq<Config>,
                                               root: Option<seq<Item>>, openable: set<string>)
    requires IsUpdateRun(setups, configs, root, openable)
    requires SetUpFor(setups[0], configs[0], root, openable)
    ensures var now, last := configs[|configs| - 1], setups[|setups| - 1];
            && SetUpFor(last, now, root, openable)
            && (forall name :: EverNamed(configs, name) ==> (name in last <==> name in Names(now)))
            && (forall name :: name in Names(now) ==> name in last && last[name] == Rebuilt(now, root, openable)[name])
            && (forall name :: !EverNamed(configs, name) ==> Kept(setups[0], last, name))
    decreases |configs|
  {
    hide Built, Makes, Reconciled;
    var n := |configs| - 1;
    if n > 0 {
      var configs', setups' := configs[..n], setups[..n];
      assert forall k :: 0 < k < n ==>
          Reconciled(setups'[k - 1], setups'[k], configs'[k - 1], configs'[k], root, openable);
      UpdatesEqualRebuild(setups', configs', root, openable);
      ReconciledIsSetUp(setups[n - 1], setups[n], configs[n - 1], configs[n], root, openable);
      forall name ensures EverNamed(configs, name) <==> EverNamed(configs', name) || Named(configs[n], name) {
        if k :| 0 <= k < |configs'| && Named(configs'[k], name) {
          assert Named(configs[k], name);
        }
        if k :| 0 <= k < |configs| && Named(configs[k], name) {
          assert k < n ==> Named(configs'[k], name);
        }
      }
    } else {
      assert forall name :: EverNamed(configs, name) <==> Named(configs[0], name);
    }
    SetUpAsRebuilt(setups[n], configs[n], root, openable);
  }

  lemma SetUpAsRebuilt(setups: Setups, config: Config, root: Option<seq<Item>>, openable: set<string>)
    requires UniqueNames(config) && SetUpFor(setups, config, root, openable)
    ensures forall name :: name in Names(config) <==> Named(config, name)
    ensures forall name :: name in Names(config) ==>
              name in setups && setups[name] == Rebuilt(config, root, openable)[name]
  {
    forall name | name in Names(config)
      ensures name in setups && setups[name] == Rebuilt(config, root, openable)[name]
    {
      assert DefNamed(config, name) in config;
    }
  }

  /** A new root formatter, on the other hand, does not reach the loggers already built:
      they match a rebuild exactly when each has a pattern of its own. */
  lemma RootChangeKeepsStepExactlyWhen(setups: Setups, config: Config, root: Option<seq<Item>>,
                                       root': Option<seq<Item>>, openable: set<string>)
    requires SetUpFor(setups, config, root, openable) && root != root'
    ensures SetUpFor(setups, config, root', openable) <==> forall d :: d in config ==> d.pattern != ""
  {
    forall d | d in config ensures IsBuilt(d, setups, root', openable) <==> d.pattern != "" {
    }
  }
}
