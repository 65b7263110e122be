/**
 What holds over every sequence of starts of the node: the saved configuration is a
 simple fold over the starts that succeeded, when budgets are pinned, when a bare
 restart rewrites the file, and which saved gateways survive.
 */
module StartupTheorems {
  import opened Wrappers
  import opened Gateways
  import opened Startup

  // ----- The configuration file is decided by the successful starts -----

  /** The file that a successful start leaves behind. */
  function NextFile(config: Option<FileConfig>, s: Start): FileConfig {
    Serialised(ResolveConfig(Effective(config, s), s.machine, []), s.machine)
  }

  /** What is on disk after a sequence of starts. */
  function Run(d: Disk, starts: seq<Start>): Disk {
    if starts == [] then d else Boot(Run(d, starts[..|starts| - 1]), starts[|starts| - 1]).0
  }

  predicate Succeeds(d: Disk, s: Start) {
    Boot(d, s).1.Ok?
  }

  function Successes(d: Disk, starts: seq<Start>): seq<Start> {
    if starts == [] then []
    else
      var front, last := starts[..|starts| - 1], starts[|starts| - 1];
      Successes(d, front) + (if Succeeds(Run(d, front), last) then [last] else [])
  }

  /** The file after starts that all succeed. */
  function Fold(config: Option<FileConfig>, starts: seq<Start>): Option<FileConfig> {
    if starts == [] then config
    else Some(NextFile(Fold(config, starts[..|starts| - 1]), starts[|starts| - 1]))
  }

  /** A start rewrites config.toml exactly when it succeeds, and then from the file it read alone. */
  lemma BootConfig(d: Disk, s: Start)
    ensures Boot(d, s).0.config == if Succeeds(d, s) then Some(NextFile(d.config, s)) else d.config
    ensures Boot(d, s).0.layout ==
      if Succeeds(d, s) then WrittenLayout(NextFile(d.config, s), s.machine) else d.layout
    ensures Succeeds(d, s) ==>
      var c, a := Boot(d, s).1.value, Effective(d.config, s);
      && c == ResolveConfig(a, s.machine, c.gateways)
      && Validate(a).None?
  {
    hide ResolvedValue, MergeFile, Resolve, Validate, Blocked;
  }

  lemma {:induction false} RunConfig(d: Disk, starts: seq<Start>)
    ensures Run(d, starts).config == Fold(d.config, Successes(d, starts))
  {
    hide Boot, NextFile, Succeeds;
    if starts == [] {
    } else {
      var front, last := starts[..|starts| - 1], starts[|starts| - 1];
      RunConfig(d, front);
      BootConfig(Run(d, front), last);
      var ss := Successes(d, front);
      assert (ss + [last])[..|ss|] == ss && ss + [] == ss;
    }
  }

  // ----- Plain settings -----

  function Get(m: Settings, s: Setting): Option<Value> {
    if s in m then Some(m[s]) else None
  }

  /** The value given by the last start that gave one. */
  function LatestExplicit(s: Setting, starts: seq<Start>): Option<Value> {
    if starts == [] then None
    else OrElse(Get(starts[|starts| - 1].args.values, s), LatestExplicit(s, starts[..|starts| - 1]))
  }

  /** The value that holds if no start ever gives one. */
  function Held(s: Setting, config: Option<FileConfig>, first: Start): Option<Value> {
    if config.None? then Default(s, ModeOf(first.args), first.machine)
    else
      var parsed := ParsedValue(config.value, s, first.machine);
      if parsed.Some? then Some(Normalised(s, parsed.value)) else None
  }

  /** Leaving out a value that equals the built-in one loses nothing. */
  lemma NotMergedIsDefault(s: Setting, v: Value, mode: Mode, m: Machine)
    requires NotMergedBack(s, v)
    ensures Default(s, mode, m) == Some(v) && Normalised(s, v) == v
  {
  }

  lemma NextValue(config: Option<FileConfig>, st: Start, s: Setting)
    ensures Get(NextFile(config, st).values, s)
         == if s in st.args.values then Some(Normalised(s, st.args.values[s])) else Held(s, config, st)
  {
    var a := Effective(config, st);
    hide Default, NotMergedBack, Normalised;
    assert Get(NextFile(config, st).values, s) == ResolvedValue(a, s, st.machine);
    if config.Some? {
      var parsed := ParsedValue(config.value, s, st.machine);
      assert Get(a.values, s) == MergedValue(st.args.values, config.value, s, st.machine);
      if parsed.Some? && NotMergedBack(s, parsed.value) {
        NotMergedIsDefault(s, parsed.value, ModeOf(a), st.machine);
      }
      if parsed.None? {
        UnsetHasNoDefault(s, Network, st.machine);
        UnsetHasNoDefault(s, ModeOf(a), st.machine);
      }
    }
  }

  lemma UnsetHasNoDefault(s: Setting, mode: Mode, m: Machine)
    ensures Default(s, mode, m).None? <==> MayStayUnset(s)
    ensures Default(s, mode, m).Some? ==> Normalised(s, Default(s, mode, m).value) == Default(s, mode, m).value
  {
  }

  lemma NormalisedTwice(s: Setting, v: Value)
    ensures Normalised(s, Normalised(s, v)) == Normalised(s, v)
  {
  }

  /** A file as the node writes it: nothing is missing and everything is in normal form. */
  ghost predicate Written(f: FileConfig) {
    && (forall s :: !MayStayUnset(s) ==> s in f.values)
    && (forall s :: s in f.values ==> Normalised(s, f.values[s]) == f.values[s])
    && f.moduleCache.Some?
  }

  lemma HeldNormal(s: Setting, config: Option<FileConfig>, first: Start)
    ensures Held(s, config, first).Some? ==>
      Normalised(s, Held(s, config, first).value) == Held(s, config, first).value
    ensures !MayStayUnset(s) ==> Held(s, config, first).Some?
  {
    UnsetHasNoDefault(s, ModeOf(first.args), first.machine);
    UnsetHasNoDefault(s, Network, first.machine);
    if config.Some? && ParsedValue(config.value, s, first.machine).Some? {
      NormalisedTwice(s, ParsedValue(config.value, s, first.machine).value);
    }
    hide Default, Normalised, MayStayUnset;
  }

  lemma NextFileWritten(config: Option<FileConfig>, st: Start)
    ensures Written(NextFile(config, st))
  {
    hide NextFile, Held, Normalised, MayStayUnset;
    forall s
      ensures !MayStayUnset(s) ==> s in NextFile(config, st).values
      ensures s in NextFile(config, st).values ==>
        Normalised(s, NextFile(config, st).values[s]) == NextFile(config, st).values[s]
    {
      NextValue(config, st, s);
      HeldNormal(s, config, st);
      if s in st.args.values { NormalisedTwice(s, st.args.values[s]); }
    }
    NextFileModuleCache(config, st);
  }

  lemma NextFileModuleCache(config: Option<FileConfig>, st: Start)
    ensures NextFile(config, st).moduleCache.Some?
  {
  }

  /** What a written file holds is what its keys say, on any machine. */
  lemma WrittenHolds(f: FileConfig, s: Setting, st: Start)
    requires Written(f)
    ensures Held(s, Some(f), st) == Get(f.values, s)
  {
    UnsetHasNoDefault(s, Network, st.machine);
    hide Default, Normalised, MayStayUnset;
  }

  /**
   Every plain setting: the latest explicit command-line value among the successful
   starts, else the value already held at the first of them.
   */
  lemma {:induction false} SettingsFold(config: Option<FileConfig>, starts: seq<Start>, s: Setting)
    requires starts != []
    ensures Fold(config, starts).Some?
    ensures Get(Fold(config, starts).value.values, s)
         == match LatestExplicit(s, starts)
            case Some(v) => Some(Normalised(s, v))
            case None => Held(s, config, starts[0])
  {
    hide NextFile, Held, Normalised, Written;
    var front, last := starts[..|starts| - 1], starts[|starts| - 1];
    NextValue(Fold(config, front), last, s);
    if front == [] {
    } else {
      SettingsFold(config, front, s);
      NextFileWritten(Fold(config, front[..|front| - 1]), front[|front| - 1]);
      WrittenHolds(Fold(config, front).value, s, last);
    }
  }

  // ----- Flags and mode -----

  function LatestMode(starts: seq<Start>): Option<Mode> {
    if starts == [] then None
    else OrElse(starts[|starts| - 1].args.mode, LatestMode(starts[..|starts| - 1]))
  }

  ghost predicate Any(starts: seq<Start>, flag: Args -> bool) {
    exists i :: 0 <= i < |starts| && flag(starts[i].args)
  }

  lemma AnySnoc(starts: seq<Start>, last: Start, flag: Args -> bool)
    ensures Any(starts + [last], flag) <==> Any(starts, flag) || flag(last.args)
  {
    var all := starts + [last];
    if Any(starts, flag) {
      var i :| 0 <= i < |starts| && flag(starts[i].args);
      assert all[i] == starts[i];
    }
    if flag(last.args) { assert all[|starts|] == last; }
    if Any(all, flag) {
      var i :| 0 <= i < |all| && flag(all[i].args);
      if i < |starts| { assert all[i] == starts[i]; }
    }
  }

  const IS_GATEWAY: Args -> bool := (a: Args) => a.isGateway
  const SKIP_LOAD: Args -> bool := (a: Args) => a.skipLoad
  const REFERENCE_PING: Args -> bool := (a: Args) => a.referencePing
  const IFACE_TX: Args -> bool := (a: Args) => a.ifaceTx
  const NO_TELEMETRY: Args -> bool := (a: Args) => !a.telemetry

  lemma NextFlags(config: Option<FileConfig>, st: Start)
    ensures var f := NextFile(config, st);
      && f.isGateway == (st.args.isGateway || (config.Some? && config.value.isGateway))
      && f.skipLoad == (st.args.skipLoad || (config.Some? && config.value.skipLoad))
      && f.referencePing == (st.args.referencePing || (config.Some? && config.value.referencePing))
      && f.ifaceTx == (st.args.ifaceTx || (config.Some? && config.value.ifaceTx))
      && f.telemetry == (st.args.telemetry && (config.Some? ==> config.value.telemetry))
      && f.mode == (if st.args.mode.Some? then st.args.mode.value
                    else if config.Some? then config.value.mode else Network)
  {
    hide ResolvedValue, MergedValues, MergedHosting, MergedModuleCache;
  }

  /**
   The sticky flags are on as soon as one of the starts, or the file before them, had
   them on; telemetry is off likewise; the mode is the last one given.
   */
  ghost predicate FlagsFolded(f: FileConfig, config: Option<FileConfig>, starts: seq<Start>) {
    && (f.isGateway <==> Any(starts, IS_GATEWAY) || (config.Some? && config.value.isGateway))
    && (f.skipLoad <==> Any(starts, SKIP_LOAD) || (config.Some? && config.value.skipLoad))
    && (f.referencePing <==> Any(starts, REFERENCE_PING) || (config.Some? && config.value.referencePing))
    && (f.ifaceTx <==> Any(starts, IFACE_TX) || (config.Some? && config.value.ifaceTx))
    && (f.telemetry <==> !Any(starts, NO_TELEMETRY) && (config.Some? ==> config.value.telemetry))
    && f.mode == (match LatestMode(starts)
                  case Some(mode) => mode
                  case None => if config.Some? then config.value.mode else Network)
  }

  lemma {:induction false} FlagsFold(config: Option<FileConfig>, starts: seq<Start>)
    requires starts != []
    ensures Fold(config, starts).Some? && FlagsFolded(Fold(config, starts).value, config, starts)
  {
    hide NextFile, FlagsFolded;
    var front, last := starts[..|starts| - 1], starts[|starts| - 1];
    if front == [] {
      assert starts == [last];
      FirstFlags(config, last);
    } else {
      FlagsFold(config, front);
      FlagsStep(config, Fold(config, front).value, front, last);
      assert starts == front + [last];
    }
  }

  lemma FirstFlags(config: Option<FileConfig>, first: Start)
    ensures FlagsFolded(NextFile(config, first), config, [first])
  {
    hide NextFile, Any;
    NextFlags(config, first);
    AnyOne(first, IS_GATEWAY);
    AnyOne(first, SKIP_LOAD);
    AnyOne(first, REFERENCE_PING);
    AnyOne(first, IFACE_TX);
    AnyOne(first, NO_TELEMETRY);
    LatestModeSnoc([], first);
    assert [] + [first] == [first];
  }

  lemma AnyOne(first: Start, flag: Args -> bool)
    ensures Any([first], flag) == flag(first.args)
  {
    assert [first][0] == first;
  }

  lemma FlagsStep(config: Option<FileConfig>, f: FileConfig, starts: seq<Start>, last: Start)
    requires FlagsFolded(f, config, starts)
    ensures FlagsFolded(NextFile(Some(f), last), config, starts + [last])
  {
    hide NextFile, Any, LatestMode;
    NextFlags(Some(f), last);
    AnySnoc(starts, last, IS_GATEWAY);
    AnySnoc(starts, last, SKIP_LOAD);
    AnySnoc(starts, last, REFERENCE_PING);
    AnySnoc(starts, last, IFACE_TX);
    AnySnoc(starts, last, NO_TELEMETRY);
    LatestModeSnoc(starts, last);
  }

  lemma LatestModeSnoc(starts: seq<Start>, last: Start)
    ensures LatestMode(starts + [last]) == OrElse(last.args.mode, LatestMode(starts))
  {
    assert (starts + [last])[..|starts|] == starts;
  }

  /**
   The saved configuration after any sequence of starts, failed ones included, is the
   fold over the successful ones.
   */
  lemma RunRefinesFold(d: Disk, starts: seq<Start>)
    ensures Successes(d, starts) == [] ==> Run(d, starts).config == d.config
    ensures var ss := Successes(d, starts);
      ss != [] ==>
        && Run(d, starts).config.Some?
        && var f := Run(d, starts).config.value;
           && (forall s :: Get(f.values, s)
                           == match LatestExplicit(s, ss)
                              case Some(v) => Some(Normalised(s, v))
                              case None => Held(s, d.config, ss[0]))
           && FlagsFolded(f, d.config, ss)
  {
    RunConfig(d, starts);
    hide Run, Fold, Held, Normalised, Successes, LatestExplicit, FlagsFolded;
    var ss := Successes(d, starts);
    if ss != [] {
      FlagsFold(d.config, ss);
      forall s
        ensures Get(Run(d, starts).config.value.values, s)
             == match LatestExplicit(s, ss)
                case Some(v) => Some(Normalised(s, v))
                case None => Held(s, d.config, ss[0])
      {
        SettingsFold(d.config, ss, s);
      }
    } else {
      FoldNothing(d.config, ss);
    }
  }

  lemma FoldNothing(config: Option<FileConfig>, starts: seq<Start>)
    requires starts == []
    ensures Fold(config, starts) == config
  {
  }

  // ----- The configuration that a start runs with -----

  /** A start runs with what it saves; a budget that is not written is the derived one. */
  lemma RunsWhatItSaves(d: Disk, s: Start)
    requires Succeeds(d, s)
    ensures Boot(d, s).0.config.Some?
    ensures var c, f := Boot(d, s).1.value, Boot(d, s).0.config.value;
      && c.mode == f.mode && c.values == f.values
      && c.isGateway == f.isGateway && c.skipLoad == f.skipLoad && c.telemetry == f.telemetry
      && c.referencePing == f.referencePing && c.ifaceTx == f.ifaceTx
      && c.hosting == (if f.hosting.Some? then f.hosting.value else s.machine.hostingBudget)
      && f.moduleCache == Some(c.moduleCache)
      && c.peerId == (if PublicAddress in c.values && PublicPort in c.values
                      then Some((c.values[PublicAddress], c.values[PublicPort])) else None)
  {
    BootConfig(d, s);
    hide Boot, Effective, ResolvedValue, PeerId;
    var c := Boot(d, s).1.value;
    ResolvedIdentity(Effective(d.config, s), s.machine, c.gateways);
  }

  lemma ResolvedIdentity(a: Args, m: Machine, gateways: seq<Gateway>)
    ensures var values := ResolveConfig(a, m, gateways).values;
      PeerId(a) == (if PublicAddress in values && PublicPort in values
                    then Some((values[PublicAddress], values[PublicPort])) else None)
  {
    hide Default;
    var values := ResolveConfig(a, m, gateways).values;
    UnsetHasNoDefault(PublicAddress, ModeOf(a), m);
    UnsetHasNoDefault(PublicPort, ModeOf(a), m);
    assert Get(values, PublicAddress) == ResolvedValue(a, PublicAddress, m);
    assert Get(values, PublicPort) == ResolvedValue(a, PublicPort, m);
    hide ResolveConfig;
  }

  /** A setting on the command line is used as given, but for a sweep interval of 0 and repeated blocked addresses. */
  lemma ExplicitSettingUsed(d: Disk, st: Start, s: Setting)
    requires Succeeds(d, st) && s in st.args.values
    ensures var values, v := Boot(d, st).1.value.values, st.args.values[s];
      && s in values
      && values[s] ==
         (if s == InactiveUserSweepIntervalSecs && v == Num(0) then Num(3_600)
          else if s == BlockedAddresses && v.Items? then Members(set x | x in v.items)
          else v)
  {
    RunsWhatItSaves(d, st);
    BootConfig(d, st);
    NextValue(d.config, st, s);
    hide Boot, NextFile;
  }

  /** Without a file the node listens on the loopback address locally, on all addresses otherwise. */
  lemma DefaultAddresses(d: Disk, st: Start, s: Setting)
    requires Succeeds(d, st) && d.config.None? && s in {WsAddress, NetworkAddress} && s !in st.args.values
    ensures var values := Boot(d, st).1.value.values;
      s in values && values[s] == Text(if st.args.mode == Some(Local) then "::1" else "::")
  {
    RunsWhatItSaves(d, st);
    BootConfig(d, st);
    NextValue(d.config, st, s);
    hide Boot, NextFile;
  }

  // ----- A gateway always knows its public identity -----

  predicate Identified(f: FileConfig) {
    f.isGateway ==> PublicAddress in f.values && PublicPort in f.values
  }

  /** Whatever was on disk, a successful start as a gateway has a peer id, and saves what it takes to have one again. */
  lemma GatewayIdentity(d: Disk, s: Start)
    requires Succeeds(d, s)
    ensures var c := Boot(d, s).1.value;
      && (c.isGateway ==> c.peerId.Some?)
      && (d.config.Some? && d.config.value.isGateway ==> c.isGateway)
    ensures Boot(d, s).0.config.Some? && Identified(Boot(d, s).0.config.value)
  {
    BootConfig(d, s);
    hide Boot, Default, MergedValues, MergedHosting, MergedModuleCache;
  }

  lemma {:induction false} GatewayRoleKeepsIdentity(d: Disk, starts: seq<Start>)
    requires d.config.Some? ==> Identified(d.config.value)
    ensures Run(d, starts).config.Some? ==> Identified(Run(d, starts).config.value)
  {
    if starts == [] {
    } else {
      var front, last := starts[..|starts| - 1], starts[|starts| - 1];
      GatewayRoleKeepsIdentity(d, front);
      hide Identified, Boot;
      if Succeeds(Run(d, front), last) {
        GatewayIdentity(Run(d, front), last);
      } else {
        BootConfig(Run(d, front), last);
      }
    }
  }

  /** After validation the resolution's exemption of gateways without a peer id covers no case. */
  lemma GatewayExemptionIsIdle(a: Args, m: Machine)
    requires Validate(a).None?
    ensures var i := GatewayInputs(a, m); i.isGateway ==> i.hasPeerId
  {
  }

  // ----- Derived budgets -----

  function HostingAt(config: Option<FileConfig>, s: Start): nat {
    ResolvedHosting(Effective(config, s), s.machine)
  }

  function ModuleCacheAt(config: Option<FileConfig>, s: Start): nat {
    ResolvedModuleCache(Effective(config, s), s.machine)
  }

  /** What a successful start within any run uses is decided by the successful starts before it. */
  lemma UsedBudgets(d: Disk, starts: seq<Start>, s: Start)
    requires Succeeds(Run(d, starts), s)
    ensures var c, file := Boot(Run(d, starts), s).1.value, Fold(d.config, Successes(d, starts));
      c.hosting == HostingAt(file, s) && c.moduleCache == ModuleCacheAt(file, s)
  {
    RunConfig(d, starts);
    BootConfig(Run(d, starts), s);
    hide Boot, Run, Fold, Effective;
  }

  /** A budget on the command line wins over the file, the legacy value included. */
  lemma ExplicitBudgetsWin(d: Disk, s: Start)
    requires Succeeds(d, s)
    ensures s.args.hosting.Some? ==> Boot(d, s).1.value.hosting == s.args.hosting.value
    ensures s.args.moduleCache.Some? ==> Boot(d, s).1.value.moduleCache == s.args.moduleCache.value
  {
    BootConfig(d, s);
    hide Boot, ResolvedValue, MergedValues;
  }

  lemma NextHosting(config: Option<FileConfig>, s: Start)
    ensures NextFile(config, s).hosting
         == if HostingAt(config, s) == s.machine.hostingBudget then None else Some(HostingAt(config, s))
    ensures s.args.hosting.Some? ==> HostingAt(config, s) == s.args.hosting.value
    ensures s.args.hosting.None? ==>
      HostingAt(config, s) ==
      if config.Some? && config.value.hosting.Some? && config.value.hosting.value != LEGACY_HOSTING
      then config.value.hosting.value else s.machine.hostingBudget
  {
    hide ResolvedValue, MergedValues;
  }

  ghost predicate Unpinned(config: Option<FileConfig>) {
    config.Some? ==> config.value.hosting == None || config.value.hosting == Some(LEGACY_HOSTING)
  }

  /**
   The hosting budget is never pinned: from no key or the legacy value, as long as no
   start gives one, every successful start uses its own machine's derived budget.
   */
  lemma {:induction false} HostingNeverPinned(d: Disk, starts: seq<Start>)
    requires Unpinned(d.config)
    requires forall i :: 0 <= i < |starts| ==> starts[i].args.hosting.None?
    ensures Unpinned(Run(d, starts).config)
    ensures forall i :: 0 <= i < |starts| && Succeeds(Run(d, starts[..i]), starts[i]) ==>
      Boot(Run(d, starts[..i]), starts[i]).1.value.hosting == starts[i].machine.hostingBudget
  {
    if starts == [] {
    } else {
      var front, last := starts[..|starts| - 1], starts[|starts| - 1];
      HostingNeverPinned(d, front);
      var before := Run(d, front);
      NextHosting(before.config, last);
      BootConfig(before, last);
      hide Boot, Run, NextFile;
      assert Run(d, starts) == Boot(before, last).0 by { RunSnoc(d, starts); }
      forall i | 0 <= i < |starts| && Succeeds(Run(d, starts[..i]), starts[i])
        ensures Boot(Run(d, starts[..i]), starts[i]).1.value.hosting == starts[i].machine.hostingBudget
      {
        if i < |front| { assert front[..i] == starts[..i] && front[i] == starts[i]; }
      }
    }
  }

  lemma RunSnoc(d: Disk, starts: seq<Start>)
    requires starts != []
    ensures Run(d, starts) == Boot(Run(d, starts[..|starts| - 1]), starts[|starts| - 1]).0
  {
  }

  /** The budget that the `i`th of a series of successful starts uses. */
  ghost function HostingIn(config: Option<FileConfig>, starts: seq<Start>, i: nat): nat
    requires i < |starts|
  {
    HostingAt(Fold(config, starts[..i]), starts[i])
  }

  /** The `k`th start still uses `v` although nobody repeats it. */
  ghost predicate Survives(v: nat, starts: seq<Start>, k: nat)
    requires 0 < k < |starts|
  {
    || starts[k].machine.hostingBudget == v
    || (v != LEGACY_HOSTING && starts[k - 1].machine.hostingBudget != v)
  }

  lemma {:induction false} FoldedHostingSurvives(config: Option<FileConfig>, starts: seq<Start>, v: nat)
    requires starts != [] && starts[0].args.hosting == Some(v)
    requires forall i :: 1 <= i < |starts| ==> starts[i].args.hosting.None?
    ensures (forall i :: 0 <= i < |starts| ==> HostingIn(config, starts, i) == v)
       <==> (forall k :: 1 <= k < |starts| ==> Survives(v, starts, k))
  {
    hide NextFile, HostingAt, HostingIn, Survives;
    var n := |starts| - 1;
    if n == 0 {
      ExplicitHostingFirst(config, starts, v);
    } else {
      var front := starts[..n];
      FoldedHostingSurvives(config, front, v);
      HostingPrefix(config, starts, v);
      if HostingIn(config, starts, n - 1) == v { HostingStep(config, starts, v); }
    }
  }

  lemma ExplicitHostingFirst(config: Option<FileConfig>, starts: seq<Start>, v: nat)
    requires starts != [] && starts[0].args.hosting == Some(v)
    ensures HostingIn(config, starts, 0) == v
  {
    NextHosting(Fold(config, starts[..0]), starts[0]);
    hide HostingAt, NextFile;
  }

  lemma HostingPrefix(config: Option<FileConfig>, starts: seq<Start>, v: nat)
    requires |starts| > 1
    ensures var n := |starts| - 1;
      && (forall i :: 0 <= i < n ==> HostingIn(config, starts[..n], i) == HostingIn(config, starts, i))
      && (forall k :: 1 <= k < n ==> Survives(v, starts[..n], k) == Survives(v, starts, k))
  {
    hide HostingAt, Fold;
    var n := |starts| - 1;
    forall i | 0 <= i < n ensures HostingIn(config, starts[..n], i) == HostingIn(config, starts, i) {
      assert starts[..n][..i] == starts[..i];
    }
  }

  lemma HostingStep(config: Option<FileConfig>, starts: seq<Start>, v: nat)
    requires |starts| > 1 && starts[|starts| - 1].args.hosting.None?
    requires HostingIn(config, starts, |starts| - 2) == v
    ensures HostingIn(config, starts, |starts| - 1) == v <==> Survives(v, starts, |starts| - 1)
  {
    hide HostingAt, NextFile;
    var n := |starts| - 1;
    FoldSplit(config, starts);
    NextHosting(Fold(config, starts[..n - 1]), starts[n - 1]);
    NextHosting(Fold(config, starts[..n]), starts[n]);
  }

  ghost function ModuleCacheIn(config: Option<FileConfig>, starts: seq<Start>, i: nat): nat
    requires i < |starts|
  {
    ModuleCacheAt(Fold(config, starts[..i]), starts[i])
  }

  lemma NextModuleCache(config: Option<FileConfig>, s: Start)
    ensures NextFile(config, s).moduleCache == Some(ModuleCacheAt(config, s))
    ensures s.args.moduleCache.None? && config.Some? && config.value.moduleCache.Some? ==>
      ModuleCacheAt(config, s) ==
      if config.value.moduleCache.value != LEGACY_MODULE_CACHE then config.value.moduleCache.value
      else s.machine.moduleCacheBudget
  {
    hide ResolvedValue, MergedValues;
  }

  lemma {:induction false} FoldedModuleCachePinned(config: Option<FileConfig>, starts: seq<Start>, v: nat)
    requires starts != [] && ModuleCacheIn(config, starts, 0) == v
    requires forall i :: 1 <= i < |starts| ==> starts[i].args.moduleCache.None?
    ensures (forall i :: 0 <= i < |starts| ==> ModuleCacheIn(config, starts, i) == v)
       <==> (forall k :: 1 <= k < |starts| ==> v != LEGACY_MODULE_CACHE || starts[k].machine.moduleCacheBudget == v)
  {
    hide NextFile, ModuleCacheAt, ModuleCacheIn;
    var n := |starts| - 1;
    if n == 0 {
    } else {
      ModuleCachePrefix(config, starts);
      FoldedModuleCachePinned(config, starts[..n], v);
      if ModuleCacheIn(config, starts, n - 1) == v { ModuleCacheStep(config, starts, v); }
    }
  }

  lemma ModuleCachePrefix(config: Option<FileConfig>, starts: seq<Start>)
    requires |starts| > 1
    ensures var n := |starts| - 1;
      forall i :: 0 <= i < n ==> ModuleCacheIn(config, starts[..n], i) == ModuleCacheIn(config, starts, i)
  {
    hide ModuleCacheAt, Fold;
    var n := |starts| - 1;
    forall i | 0 <= i < n ensures ModuleCacheIn(config, starts[..n], i) == ModuleCacheIn(config, starts, i) {
      assert starts[..n][..i] == starts[..i];
    }
  }

  lemma ModuleCacheStep(config: Option<FileConfig>, starts: seq<Start>, v: nat)
    requires |starts| > 1 && starts[|starts| - 1].args.moduleCache.None?
    requires ModuleCacheIn(config, starts, |starts| - 2) == v
    ensures ModuleCacheIn(config, starts, |starts| - 1) == v
       <==> v != LEGACY_MODULE_CACHE || starts[|starts| - 1].machine.moduleCacheBudget == v
  {
    hide ModuleCacheAt, NextFile;
    var n := |starts| - 1;
    FoldSplit(config, starts);
    NextModuleCache(Fold(config, starts[..n - 1]), starts[n - 1]);
    NextModuleCache(Fold(config, starts[..n]), starts[n]);
  }

  lemma FoldSplit(config: Option<FileConfig>, starts: seq<Start>)
    requires |starts| > 1
    ensures var n := |starts| - 1;
      Fold(config, starts[..n]) == Some(NextFile(Fold(config, starts[..n - 1]), starts[n - 1]))
  {
    var n := |starts| - 1;
    assert starts[..n][..n - 1] == starts[..n - 1];
  }

  /** Where the `i`th start of a run stands among the successful ones. */
  lemma {:induction false} SuccessAt(d: Disk, starts: seq<Start>, i: nat)
    requires i < |starts| && Succeeds(Run(d, starts[..i]), starts[i])
    ensures var ss, j := Successes(d, starts), |Successes(d, starts[..i])|;
      j < |ss| && ss[..j] == Successes(d, starts[..i]) && ss[j] == starts[i]
    decreases |starts|
  {
    hide Succeeds, Run;
    var n := |starts| - 1;
    if i == n {
    } else {
      assert starts[..n][..i] == starts[..i];
      SuccessAt(d, starts[..n], i);
    }
  }

  /** Every successful start stands somewhere in the run. */
  lemma {:induction false} SuccessFrom(d: Disk, starts: seq<Start>, j: nat) returns (i: nat)
    requires j < |Successes(d, starts)|
    ensures i < |starts| && Succeeds(Run(d, starts[..i]), starts[i]) && |Successes(d, starts[..i])| == j
    decreases |starts|
  {
    hide Succeeds, Run;
    var n := |starts| - 1;
    if j < |Successes(d, starts[..n])| {
      i := SuccessFrom(d, starts[..n], j);
      assert starts[..n][..i] == starts[..i];
    } else {
      i := n;
    }
  }

  ghost predicate HostingAlways(d: Disk, starts: seq<Start>, v: nat) {
    forall i :: 0 <= i < |starts| && Succeeds(Run(d, starts[..i]), starts[i]) ==>
      Boot(Run(d, starts[..i]), starts[i]).1.value.hosting == v
  }

  ghost predicate ModuleCacheAlways(d: Disk, starts: seq<Start>, v: nat) {
    forall i :: 0 <= i < |starts| && Succeeds(Run(d, starts[..i]), starts[i]) ==>
      Boot(Run(d, starts[..i]), starts[i]).1.value.moduleCache == v
  }

  lemma UsedAt(d: Disk, starts: seq<Start>, i: nat)
    requires i < |starts| && Succeeds(Run(d, starts[..i]), starts[i])
    ensures var ss, j := Successes(d, starts), |Successes(d, starts[..i])|;
      var c := Boot(Run(d, starts[..i]), starts[i]).1.value;
      && j < |ss|
      && c.hosting == HostingIn(d.config, ss, j)
      && c.moduleCache == ModuleCacheIn(d.config, ss, j)
  {
    hide Boot, Run, Successes, HostingAt, ModuleCacheAt, Fold;
    SuccessAt(d, starts, i);
    UsedBudgets(d, starts[..i], starts[i]);
  }

  lemma AlwaysInSuccesses(d: Disk, starts: seq<Start>, v: nat)
    ensures HostingAlways(d, starts, v) <==>
      forall j :: 0 <= j < |Successes(d, starts)| ==> HostingIn(d.config, Successes(d, starts), j) == v
    ensures ModuleCacheAlways(d, starts, v) <==>
      forall j :: 0 <= j < |Successes(d, starts)| ==> ModuleCacheIn(d.config, Successes(d, starts), j) == v
  {
    hide Boot, Run, Successes, HostingIn, ModuleCacheIn;
    var ss := Successes(d, starts);
    forall i: nat | i < |starts| && Succeeds(Run(d, starts[..i]), starts[i])
      ensures exists j ::
        0 <= j < |ss| && Boot(Run(d, starts[..i]), starts[i]).1.value.hosting == HostingIn(d.config, ss, j)
      ensures exists j ::
        0 <= j < |ss| && Boot(Run(d, starts[..i]), starts[i]).1.value.moduleCache == ModuleCacheIn(d.config, ss, j)
    {
      UsedAt(d, starts, i);
    }
    forall j: nat | j < |ss|
      ensures HostingAlways(d, starts, v) ==> HostingIn(d.config, ss, j) == v
      ensures ModuleCacheAlways(d, starts, v) ==> ModuleCacheIn(d.config, ss, j) == v
    {
      var i := SuccessFrom(d, starts, j);
      UsedAt(d, starts, i);
    }
  }

  /**
   When an explicit hosting budget survives bare restarts, failed starts in between or
   not: exactly when no successful start whose derived budget happens to equal it is
   followed by one whose derived budget differs, and, for the legacy value, when every
   later derived budget equals it.
   */
  lemma ExplicitHostingSurvivesExactly(d: Disk, starts: seq<Start>, v: nat)
    requires var ss := Successes(d, starts);
      && ss != [] && ss[0].args.hosting == Some(v)
      && forall i :: 1 <= i < |ss| ==> ss[i].args.hosting.None?
    ensures HostingAlways(d, starts, v) <==>
      forall k :: 1 <= k < |Successes(d, starts)| ==> Survives(v, Successes(d, starts), k)
  {
    hide Successes, HostingIn, HostingAlways, Survives, ModuleCacheIn, ModuleCacheAlways;
    AlwaysInSuccesses(d, starts, v);
    FoldedHostingSurvives(d.config, Successes(d, starts), v);
  }

  /** In particular a budget outside the derived range always survives. */
  lemma OutOfRangeHostingSurvives(d: Disk, starts: seq<Start>, v: nat)
    requires var ss := Successes(d, starts);
      && ss != [] && ss[0].args.hosting == Some(v)
      && (forall i :: 1 <= i < |ss| ==> ss[i].args.hosting.None?)
      && forall i :: 0 <= i < |ss| ==> MIN_HOSTING <= ss[i].machine.hostingBudget <= MAX_HOSTING
    requires v < MIN_HOSTING || v > MAX_HOSTING
    ensures HostingAlways(d, starts, v)
  {
    hide Successes, HostingAlways;
    var ss := Successes(d, starts);
    ExplicitHostingSurvivesExactly(d, starts, v);
    forall k | 1 <= k < |ss| ensures Survives(v, ss, k) {
      assert MIN_HOSTING <= ss[k - 1].machine.hostingBudget <= MAX_HOSTING;
    }
  }

  /**
   The module cache budget, in contrast, is pinned by the first successful start,
   whether it was given or derived: bare restarts keep it exactly when it is not the
   legacy value, or every later machine derives the legacy value again.
   */
  lemma ModuleCachePinnedExactly(d: Disk, starts: seq<Start>, v: nat)
    requires var ss := Successes(d, starts);
      && ss != [] && ModuleCacheAt(d.config, ss[0]) == v
      && forall i :: 1 <= i < |ss| ==> ss[i].args.moduleCache.None?
    ensures ModuleCacheAlways(d, starts, v) <==>
      forall k :: 1 <= k < |Successes(d, starts)| ==>
        v != LEGACY_MODULE_CACHE || Successes(d, starts)[k].machine.moduleCacheBudget == v
  {
    hide Successes, HostingIn, HostingAlways, ModuleCacheAlways, ModuleCacheAt;
    AlwaysInSuccesses(d, starts, v);
    var ss := Successes(d, starts);
    assert ModuleCacheIn(d.config, ss, 0) == v by { FoldNothing(d.config, ss[..0]); }
    hide ModuleCacheIn;
    FoldedModuleCachePinned(d.config, ss, v);
  }

  /** A pair of starts at which an explicit budget is forgotten: the first machine happens to derive it. */
  lemma ExplicitHostingForgotten(m: Machine, v: nat, v': nat)
    requires v != v' && m.remote != [] && !m.readFails && !m.setupFails
    ensures var first := Start(BARE.(hosting := Some(v)), m.(hostingBudget := v));
      var second := Start(BARE, m.(hostingBudget := v'));
      && Succeeds(EMPTY_DISK, first)
      && Boot(EMPTY_DISK, first).1.value.hosting == v
      && var d := Boot(EMPTY_DISK, first).0;
         Succeeds(d, second) && Boot(d, second).1.value.hosting == v'
  {
    hide Boot, NextFile, HostingAt;
    var first := Start(BARE.(hosting := Some(v)), m.(hostingBudget := v));
    var second := Start(BARE, m.(hostingBudget := v'));
    PlainStartSucceeds(first);
    BootConfig(EMPTY_DISK, first);
    NextFlags(None, first);
    NextHosting(None, first);
    HostingUsed(EMPTY_DISK, first);
    var d := Boot(EMPTY_DISK, first).0;
    BareRestartSucceedsExactly(EMPTY_DISK, first, second);
    NextHosting(d.config, second);
    HostingUsed(d, second);
  }

  lemma HostingUsed(d: Disk, s: Start)
    requires Succeeds(d, s)
    ensures Boot(d, s).1.value.hosting == HostingAt(d.config, s)
  {
    BootConfig(d, s);
    hide Boot, Effective;
  }

  // ----- A bare restart -----

  /** No flag at all, gateway flags aside. */
  predicate Bare(a: Args) {
    && a.mode.None? && a.values == map[]
    && !a.isGateway && !a.skipLoad && a.telemetry && !a.referencePing && !a.ifaceTx
    && a.hosting.None? && a.moduleCache.None?
  }

  lemma BareKeepsTheRest(f: FileConfig, s: Start)
    requires Written(f) && Bare(s.args)
    ensures var f' := NextFile(Some(f), s);
      f' == f.(hosting := f'.hosting, moduleCache := f'.moduleCache)
  {
    var f' := NextFile(Some(f), s);
    NextFlags(Some(f), s);
    hide NextFile, Held, Written;
    forall k ensures Get(f'.values, k) == Get(f.values, k) {
      NextValue(Some(f), s, k);
      WrittenHolds(f, k, s);
    }
    SameGetsSame(f'.values, f.values);
  }

  lemma SameGetsSame(a: Settings, b: Settings)
    requires forall k :: Get(a, k) == Get(b, k)
    ensures a == b
  {
    assert forall k :: k in a <==> Get(a, k).Some?;
    assert forall k :: k in b <==> Get(b, k).Some?;
    assert forall k :: k in a ==> a[k] == Get(a, k).value == Get(b, k).value == b[k];
  }

  /** A budget that a bare start on the machine does not write back as it is. */
  predicate Migrates(f: FileConfig, m: Machine) {
    || f.hosting == Some(LEGACY_HOSTING)
    || f.hosting == Some(m.hostingBudget)
    || (f.moduleCache == Some(LEGACY_MODULE_CACHE) && m.moduleCacheBudget != LEGACY_MODULE_CACHE)
  }

  /** A complete file keeps its content in a bare start exactly when no budget migrates. */
  lemma BareFixpoint(f: FileConfig, s: Start)
    requires Written(f) && Bare(s.args)
    ensures NextFile(Some(f), s) == f <==> !Migrates(f, s.machine)
  {
    assert f.moduleCache.Some?;
    hide NextFile, HostingAt, ModuleCacheAt, Written;
    BareKeepsTheRest(f, s);
    NextHosting(Some(f), s);
    NextModuleCache(Some(f), s);
  }

  /**
   When a successful bare start rewrites the config.toml it found, however an operator or
   an older release left it: exactly when a key is missing or not in normal form, a
   budget migrates, the text is not as the serialiser writes it, or the blocked
   addresses come out in another order.
   */
  lemma BareStartRewritesExactly(d: Disk, s: Start)
    requires d.config.Some? && Bare(s.args) && Succeeds(d, s)
    ensures Rewrites(d, s) <==>
      || !Written(d.config.value)
      || Migrates(d.config.value, s.machine)
      || !d.layout.canonical
      || d.layout.blockedOrder != s.machine.listing(Blocked(d.config.value))
  {
    BootConfig(d, s);
    NextFileWritten(d.config, s);
    hide Boot, NextFile, Written, Migrates, Blocked;
    if Written(d.config.value) {
      BareFixpoint(d.config.value, s);
    }
  }

  /** `order` names every member of `members` once. */
  ghost predicate Lists(order: seq<string>, members: set<string>) {
    && (forall x :: x in order <==> x in members)
    && (forall i, j :: 0 <= i < j < |order| ==> order[i] != order[j])
  }

  /** Only a set of two or more can come out in different orders. */
  lemma SmallSetsListOneWay(a: seq<string>, b: seq<string>, members: set<string>)
    requires Lists(a, members) && Lists(b, members) && |members| < 2
    ensures a == b
  {
    ShortList(a, members);
    ShortList(b, members);
  }

  lemma ShortList(order: seq<string>, members: set<string>)
    requires Lists(order, members) && |members| < 2
    ensures forall x :: x in members ==> order == [x]
    ensures members == {} ==> order == []
  {
    forall i | 0 <= i < |order| ensures order[i] in members { assert order[i] in order; }
    if |order| > 0 {
      var rest := members - {order[0]};
      assert |rest| == |members| - 1 == 0;
      assert members == {order[0]};
      assert order[|order| - 1] in members;
      assert |order| == 1;
    }
  }

  /** What a successful start leaves, as far as a bare restart is concerned. */
  lemma AfterStart(d: Disk, s: Start)
    requires Succeeds(d, s)
    ensures var d' := Boot(d, s).0;
      && d'.config.Some? && Written(d'.config.value)
      && d'.config.value.hosting != Some(s.machine.hostingBudget)
      && d'.layout == WrittenLayout(d'.config.value, s.machine)
    ensures Bare(s.args) ==> !Migrates(Boot(d, s).0.config.value, s.machine)
  {
    BootConfig(d, s);
    NextFileWritten(d.config, s);
    NextHosting(d.config, s);
    NextModuleCache(d.config, s);
    hide Boot, NextFile, Written, Blocked, HostingAt;
  }

  /**
   A successful bare restart on a machine with the same derived budgets.  It keeps the
   content of the file exactly unless a budget holds its migration value while the
   machine derives another; and it rewrites the file exactly in that case or when two
   or more blocked addresses come out in another order.
   */
  lemma BareRestartIsFixpoint(d: Disk, before: Start, s: Start)
    requires Succeeds(d, before) && Succeeds(Boot(d, before).0, s)
    requires Bare(s.args)
    requires s.machine.hostingBudget == before.machine.hostingBudget
    requires s.machine.moduleCacheBudget == before.machine.moduleCacheBudget
    requires var f := NextFile(d.config, before);
      Lists(before.machine.listing(Blocked(f)), Blocked(f)) && Lists(s.machine.listing(Blocked(f)), Blocked(f))
    ensures var d' := Boot(d, before).0;
      && d'.config.Some?
      && var f := d'.config.value;
         var migrates :=
           || f.hosting == Some(LEGACY_HOSTING)
           || (f.moduleCache == Some(LEGACY_MODULE_CACHE) && s.machine.moduleCacheBudget != LEGACY_MODULE_CACHE);
         && (Boot(d', s).0.config == d'.config <==> !migrates)
         && (Rewrites(d', s) <==>
             || migrates
             || (|Blocked(f)| >= 2 && s.machine.listing(Blocked(f)) != before.machine.listing(Blocked(f))))
  {
    var d' := Boot(d, before).0;
    BootConfig(d, before);
    AfterStart(d, before);
    BootConfig(d', s);
    hide Boot, NextFile, Written, Lists, Blocked;
    var f := d'.config.value;
    BareFixpoint(f, s);
    BareStartRewritesExactly(d', s);
    if |Blocked(f)| < 2 {
      SmallSetsListOneWay(before.machine.listing(Blocked(f)), s.machine.listing(Blocked(f)), Blocked(f));
    }
  }

  /**
   From anything on disk, the second of two bare starts with the same derived budgets
   keeps the content, and rewrites the file only for the order of blocked addresses.
   */
  lemma BareRestartsConverge(d: Disk, s: Start, s': Start)
    requires Bare(s.args) && Bare(s'.args)
    requires Succeeds(d, s) && Succeeds(Boot(d, s).0, s')
    requires s'.machine.hostingBudget == s.machine.hostingBudget
    requires s'.machine.moduleCacheBudget == s.machine.moduleCacheBudget
    ensures var d' := Boot(d, s).0;
      && d'.config.Some?
      && Boot(d', s').0.config == d'.config
      && (Rewrites(d', s') <==>
          s'.machine.listing(Blocked(d'.config.value)) != s.machine.listing(Blocked(d'.config.value)))
  {
    var d' := Boot(d, s).0;
    AfterStart(d, s);
    BootConfig(d', s');
    hide Boot, NextFile, Written, Blocked;
    BareFixpoint(d'.config.value, s');
    BareStartRewritesExactly(d', s');
  }

  /** A command line without any flag. */
  const BARE := Args(None, map[], false, false, true, false, false, None, None, NoInline, None)

  /**
   An unchanged restart is not always without effect: with two blocked addresses, the
   second process may list them the other way round and so write the same configuration
   out again.
   */
  lemma BlockedOrderRewrites(m: Machine, a: string, b: string,
                             first: set<string> -> seq<string>, second: set<string> -> seq<string>)
    requires a != b && first({a, b}) == [a, b] && second({a, b}) == [b, a]
    requires m.remote != [] && !m.readFails && !m.setupFails
    ensures var before := Start(BARE.(values := map[BlockedAddresses := Items([a, b])]), m.(listing := first));
      var after := Start(BARE, m.(listing := second));
      && Succeeds(EMPTY_DISK, before)
      && var d := Boot(EMPTY_DISK, before).0;
         && Succeeds(d, after)
         && Boot(d, after).0.config == d.config
         && Rewrites(d, after)
  {
    hide Boot, NextFile, Written, Migrates, Blocked;
    var before := Start(BARE.(values := map[BlockedAddresses := Items([a, b])]), m.(listing := first));
    var after := Start(BARE, m.(listing := second));
    PlainStartSucceeds(before);
    BlockedStart(before, a, b);
    var d := Boot(EMPTY_DISK, before).0;
    AfterStart(EMPTY_DISK, before);
    BareRestartSucceedsExactly(EMPTY_DISK, before, after);
    SameMigration(d.config.value, before.machine, after.machine);
    BareFixpoint(d.config.value, after);
    BootConfig(d, after);
    BareStartRewritesExactly(d, after);
    assert [a, b][0] != [b, a][0];
  }

  lemma SameMigration(f: FileConfig, m: Machine, m': Machine)
    requires m.hostingBudget == m'.hostingBudget && m.moduleCacheBudget == m'.moduleCacheBudget
    ensures Migrates(f, m) == Migrates(f, m')
  {
  }

  /** The file after a first start that blocks two addresses. */
  lemma BlockedStart(s: Start, a: string, b: string)
    requires s.args == BARE.(values := map[BlockedAddresses := Items([a, b])]) && Succeeds(EMPTY_DISK, s)
    ensures var d := Boot(EMPTY_DISK, s).0;
      && d.config.Some?
      && var f := d.config.value;
         Blocked(f) == {a, b} && !f.skipLoad && !Migrates(f, s.machine)
  {
    hide Boot, NextFile, HostingAt, ModuleCacheAt;
    BootConfig(EMPTY_DISK, s);
    NextFlags(None, s);
    NextValue(None, s, BlockedAddresses);
    NextHosting(None, s);
    NextModuleCache(None, s);
    PlainBudgets(s);
    assert (set x | x in [a, b]) == {a, b};
  }

  /** The first start of a node without special role, with the index at hand. */
  lemma PlainStartSucceeds(s: Start)
    requires s.args.mode.None? && !s.args.isGateway && !s.args.skipLoad && AllowedSourceCidrs !in s.args.values
    requires s.args.gateway.None? && !s.machine.setupFails && s.machine.remote != []
    ensures Succeeds(EMPTY_DISK, s)
  {
    hide Dedup, ResolveConfig, Serialised;
  }

  lemma PlainBudgets(s: Start)
    requires s.args.hosting.None? && s.args.moduleCache.None?
    ensures HostingAt(None, s) == s.machine.hostingBudget && ModuleCacheAt(None, s) == s.machine.moduleCacheBudget
  {
  }

  /** What a bare restart sees of a file that the node wrote. */
  lemma RestartArgs(f: FileConfig, s: Start)
    requires Bare(s.args) && Identified(f)
    ensures var a := Effective(Some(f), s);
      && ModeOf(a) == f.mode && a.skipLoad == f.skipLoad && a.isGateway == f.isGateway
      && a.gateway == s.args.gateway && a.inlined == s.args.inlined
      && (PeerId(a).Some? <==> PublicAddress in f.values && PublicPort in f.values)
      && Validate(a).None?
  {
    UnsetHasNoDefault(PublicAddress, Network, s.machine);
    UnsetHasNoDefault(PublicPort, Network, s.machine);
    hide Default, MergedHosting, MergedModuleCache;
  }

  /** The source ranges that were accepted once come back as accepted, or as none. */
  lemma CidrsStayAccepted(config: Option<FileConfig>, before: Start, s: Start)
    requires Bare(s.args) && CidrsAccepted(Effective(config, before), before.machine)
    requires s.machine.acceptsCidrs == before.machine.acceptsCidrs
    ensures CidrsAccepted(Effective(Some(NextFile(config, before)), s), s.machine)
  {
    hide MergedHosting, MergedModuleCache, Effective;
    var a := Effective(config, before);
    var f := NextFile(config, before);
    assert Get(f.values, AllowedSourceCidrs) == ResolvedValue(a, AllowedSourceCidrs, before.machine);
    RestartCidrs(f, s);
  }

  lemma RestartCidrs(f: FileConfig, s: Start)
    requires Bare(s.args) && AllowedSourceCidrs in f.values
    ensures Get(Effective(Some(f), s).values, AllowedSourceCidrs)
         == if f.values[AllowedSourceCidrs] == Items([]) then None else Some(f.values[AllowedSourceCidrs])
  {
    hide Default, MergedHosting, MergedModuleCache;
  }

  /**
   When a start without any flag succeeds after a successful one: exactly unless the
   node stays isolated from the network without being a gateway, and gateways.toml is
   malformed, or missing while the node has no public address and port.
   */
  lemma BareRestartSucceedsExactly(d: Disk, before: Start, s: Start)
    requires Succeeds(d, before)
    requires Bare(s.args) && s.args.gateway.None? && s.args.inlined.NoInline?
    requires !s.machine.readFails && !s.machine.setupFails && s.machine.acceptsCidrs == before.machine.acceptsCidrs
    ensures var d' := Boot(d, before).0;
      && d'.config.Some?
      && var f := d'.config.value;
         Succeeds(d', s) <==>
           !(&& f.mode == Network && f.skipLoad && !f.isGateway
             && (d'.gateways.Malformed?
                 || (d'.gateways.Missing? && !(PublicAddress in f.values && PublicPort in f.values))))
  {
    GatewayIdentity(d, before);
    BootConfig(d, before);
    var d' := Boot(d, before).0;
    var f := d'.config.value;
    NextFileWritten(d.config, before);
    AcceptedAtSuccess(d, before);
    CidrsStayAccepted(d.config, before, s);
    RestartArgs(f, s);
    if !f.skipLoad { NotSkippedIsSaved(d, before); }
    hide NextFile, Effective, Validate, PeerId, Identified, CidrsAccepted, ResolveConfig, Serialised, Default;
    RestartOutcome(d', f, s);
  }

  const EMPTY_DISK := Disk(None, Missing, Layout([], true))

  /** The first start, without any flag and with nothing on disk, succeeds exactly when the index can be fetched. */
  lemma FreshStartSucceedsExactly(s: Start)
    requires Bare(s.args) && s.args.gateway.None? && s.args.inlined.NoInline? && !s.machine.setupFails
    ensures Succeeds(EMPTY_DISK, s) <==> s.machine.remote != []
  {
    hide Dedup, ResolveConfig, Serialised;
  }

  lemma AcceptedAtSuccess(d: Disk, s: Start)
    requires Succeeds(d, s)
    ensures CidrsAccepted(Effective(d.config, s), s.machine)
  {
    hide Effective, Validate, Resolve, ResolveConfig, CidrsAccepted;
  }

  lemma NotSkippedIsSaved(d: Disk, s: Start)
    requires Succeeds(d, s) && Boot(d, s).0.config.Some? && !Boot(d, s).0.config.value.skipLoad
    ensures Boot(d, s).0.gateways.Saved?
  {
    hide Effective, Validate, Resolve, ResolvedValue;
  }

  lemma RestartOutcome(d: Disk, f: FileConfig, s: Start)
    requires d.config == Some(f) && LogLevel in f.values
    requires !s.machine.readFails && !s.machine.setupFails
    requires !f.skipLoad ==> d.gateways.Saved?
    requires s.args.gateway.None? && s.args.inlined.NoInline?
    requires var a := Effective(Some(f), s);
      && ModeOf(a) == f.mode && a.skipLoad == f.skipLoad && a.isGateway == f.isGateway
      && a.gateway == s.args.gateway && a.inlined == s.args.inlined
      && (PeerId(a).Some? <==> PublicAddress in f.values && PublicPort in f.values)
      && Validate(a).None? && CidrsAccepted(a, s.machine)
    ensures Succeeds(d, s) <==>
      !(&& f.mode == Network && f.skipLoad && !f.isGateway
        && (d.gateways.Malformed?
            || (d.gateways.Missing? && !(PublicAddress in f.values && PublicPort in f.values))))
  {
    hide Effective, Validate, PeerId, CidrsAccepted, ResolveConfig, Serialised, Dedup;
  }

  // ----- Saved gateways -----

  function CliList(s: Start): seq<Gateway> {
    if s.args.gateway.Some? && AllParsed(s.args.gateway.value) then CliGateways(s.args.gateway.value) else []
  }

  function SavedList(file: GatewaysFile): seq<Gateway> {
    if file.Saved? then file.gateways else []
  }

  predicate OnNetwork(config: Option<FileConfig>, s: Start) {
    ModeOf(Effective(config, s)) == Network
  }

  predicate SkipsLoad(config: Option<FileConfig>, s: Start) {
    Effective(config, s).skipLoad
  }

  /** What a successful start does to gateways.toml. */
  lemma BootGateways(d: Disk, s: Start)
    requires Succeeds(d, s)
    ensures SkipsLoad(d.config, s) ==> Boot(d, s).0.gateways == d.gateways
    ensures !SkipsLoad(d.config, s) ==>
      var list := if !OnNetwork(d.config, s) then []
                  else if s.machine.remote != [] then s.machine.remote
                  else SavedList(d.gateways);
      && Boot(d, s).0.gateways.Saved?
      && Boot(d, s).0.gateways.gateways
         == (if s.args.gateway.Some? then Dedup(CliList(s) + list) else list)
      && (OnNetwork(d.config, s) && s.machine.remote == [] ==> !d.gateways.Malformed?)
  {
    var a := Effective(d.config, s);
    EffectiveGateway(d.config, s);
    hide Dedup, ResolveConfig, Serialised, Effective, Validate, CliGateways;
  }

  lemma EffectiveGateway(config: Option<FileConfig>, s: Start)
    ensures Effective(config, s).gateway == s.args.gateway && Effective(config, s).inlined == s.args.inlined
  {
  }

  /**
   The gateways that a successful start runs with are those chosen from its inputs, and
   they are what is saved for the next start unless the network is skipped.
   */
  lemma RunningGateways(d: Disk, s: Start)
    requires Succeeds(d, s)
    ensures Resolve(GatewayInputs(Effective(d.config, s), s.machine), d.gateways) == Ok(Boot(d, s).1.value.gateways)
    ensures !SkipsLoad(d.config, s) ==> Boot(d, s).0.gateways == Saved(Boot(d, s).1.value.gateways)
  {
    hide Effective, Validate, Resolve, ResolvedValue;
  }

  /** A node that skips the network without being isolated runs with the list somebody else manages. */
  lemma SkippingStart(d: Disk, s: Start, saved: seq<Gateway>)
    requires Succeeds(d, s) && d.gateways == Saved(saved) && s.args.gateway.None?
    requires OnNetwork(d.config, s) && SkipsLoad(d.config, s) && !Effective(d.config, s).isGateway
    ensures Boot(d, s).0.gateways == d.gateways
    ensures s.args.inlined.NoInline? ==> Boot(d, s).1.value.gateways == saved
    ensures s.args.inlined.InlineEntries? ==>
      Addresses(Boot(d, s).1.value.gateways) == Addresses(saved) + Addresses(s.args.inlined.gateways)
  {
    RunningGateways(d, s);
    BootGateways(d, s);
    EffectiveGateway(d.config, s);
    hide Boot, Resolve, Effective, Dedup, FirstIndex;
    var i := GatewayInputs(Effective(d.config, s), s.machine);
    ResolveFailsExactly(i, d.gateways);
    SkippingList(i, saved);
    AddressesAppend(saved, []);
    assert saved + [] == saved;
  }

  /** An isolated node runs with what its command line gives, in front and inline. */
  lemma IsolatedStartList(d: Disk, s: Start)
    requires Succeeds(d, s) && OnNetwork(d.config, s) && SkipsLoad(d.config, s)
    requires Effective(d.config, s).isGateway || (s.args.gateway.Some? && s.args.gateway.value != [])
    ensures Addresses(Boot(d, s).1.value.gateways) == Addresses(CliList(s)) +
      (if s.args.inlined.InlineEntries? then Addresses(s.args.inlined.gateways) else {})
    ensures Dedup(CliList(s)) <= Boot(d, s).1.value.gateways
  {
    RunningGateways(d, s);
    EffectiveGateway(d.config, s);
    hide Boot, Resolve, Effective, Dedup, FirstIndex, CliGateways;
    var i := GatewayInputs(Effective(d.config, s), s.machine);
    IsolatedList(i, d.gateways);
    if i.cli.Some? {
      CliGatewaysLead(i, d.gateways);
    } else {
      DedupOfEmpty(CliList(s));
    }
  }

  /** A start that finds no remote index: it fails, or it falls back on the saved list. */
  predicate FallsBack(d: Disk, s: Start) {
    s.machine.remote == [] && (Succeeds(d, s) ==> OnNetwork(d.config, s) && !SkipsLoad(d.config, s))
  }

  ghost predicate AllFallBack(d: Disk, starts: seq<Start>) {
    forall i :: 0 <= i < |starts| ==> FallsBack(Run(d, starts[..i]), starts[i])
  }

  /** The command-line lists, latest first. */
  function CliLists(starts: seq<Start>): seq<Gateway> {
    if starts == [] then [] else CliList(starts[|starts| - 1]) + CliLists(starts[..|starts| - 1])
  }

  /**
   Over any run of starts that find no remote index, failed ones included, the saved
   list is, up to repetitions, the command-line lists of the successful ones, latest
   first, before the list there was at the beginning: no saved address is ever lost.
   */
  lemma {:induction false} FallbackNeverForgets(d: Disk, starts: seq<Start>)
    requires AllFallBack(d, starts)
    ensures if Successes(d, starts) == [] then Run(d, starts).gateways == d.gateways
            else Run(d, starts).gateways.Saved?
    ensures var saved, initial := SavedList(Run(d, starts).gateways), SavedList(d.gateways);
      && Dedup(saved) == Dedup(CliLists(Successes(d, starts)) + initial)
      && Addresses(initial) <= Addresses(saved)
  {
    hide Run, Boot, Dedup, FallsBack, CliList, SavedList, CliLists, AllFallBack, Succeeds;
    var initial := SavedList(d.gateways);
    if starts == [] {
      RunNothing(d, starts);
      assert CliLists(Successes(d, starts)) + initial == initial by { NoLists(Successes(d, starts)); }
    } else {
      var front, last := starts[..|starts| - 1], starts[|starts| - 1];
      FallbackPrefix(d, starts);
      FallbackNeverForgets(d, front);
      FallbackStep(d, starts);
      if Succeeds(Run(d, front), last) {
        var mid, saved := SavedList(Run(d, front).gateways), SavedList(Run(d, starts).gateways);
        var before := Successes(d, front);
        AppendedLists(CliList(last), CliLists(before) + initial, mid, saved);
        CliListsSnoc(before, last, initial);
      } else {
        assert Successes(d, starts) == Successes(d, front);
      }
      KeptAddresses(SavedList(Run(d, starts).gateways), CliLists(Successes(d, starts)), initial);
    }
  }

  lemma NoLists(starts: seq<Start>)
    requires starts == []
    ensures CliLists(starts) == []
  {
  }

  lemma CliListsSnoc(starts: seq<Start>, last: Start, rest: seq<Gateway>)
    ensures CliList(last) + (CliLists(starts) + rest) == CliLists(starts + [last]) + rest
  {
    hide CliList;
    assert (starts + [last])[..|starts|] == starts;
  }

  /** The saved list after one more such start. */
  lemma FallbackStep(d: Disk, starts: seq<Start>)
    requires starts != [] && AllFallBack(d, starts)
    ensures var before, last := Run(d, starts[..|starts| - 1]), starts[|starts| - 1];
      if !Succeeds(before, last) then Run(d, starts).gateways == before.gateways
      else
        && Run(d, starts).gateways.Saved?
        && var cli, mid, saved := CliList(last), SavedList(before.gateways), SavedList(Run(d, starts).gateways);
           saved == Dedup(cli + mid) || (saved == mid && cli == [])
  {
    hide Run, Boot, Dedup, SkipsLoad, OnNetwork, CliGateways;
    RunSnoc(d, starts);
    var n := |starts| - 1;
    var before, last := Run(d, starts[..n]), starts[n];
    assert FallsBack(before, last);
    if Succeeds(before, last) {
      BootGateways(before, last);
    } else {
      FailedStartChanges(before, last);
    }
  }

  lemma RunNothing(d: Disk, starts: seq<Start>)
    requires starts == []
    ensures Run(d, starts) == d
  {
  }

  lemma FallbackPrefix(d: Disk, starts: seq<Start>)
    requires starts != [] && AllFallBack(d, starts)
    ensures AllFallBack(d, starts[..|starts| - 1])
  {
    hide FallsBack, Run;
    var front := starts[..|starts| - 1];
    forall i | 0 <= i < |front| ensures FallsBack(Run(d, front[..i]), front[i]) {
      assert front[..i] == starts[..i] && front[i] == starts[i];
    }
  }

  lemma AppendedLists(cli: seq<Gateway>, history: seq<Gateway>, mid: seq<Gateway>, saved: seq<Gateway>)
    requires Dedup(mid) == Dedup(history)
    requires saved == Dedup(cli + mid) || (saved == mid && cli == [])
    ensures Dedup(saved) == Dedup(cli + history)
  {
    hide Dedup;
    DedupRight(cli, mid);
    DedupRight(cli, history);
    DedupIdempotent(cli + mid);
    if cli == [] { assert cli + mid == mid && cli + history == history; }
  }

  lemma KeptAddresses(saved: seq<Gateway>, lists: seq<Gateway>, initial: seq<Gateway>)
    requires Dedup(saved) == Dedup(lists + initial)
    ensures Addresses(initial) <= Addresses(saved)
  {
    hide Dedup;
    DedupAddresses(saved);
    DedupAddresses(lists + initial);
    AddressesAppend(lists, initial);
  }

  /**
   When a successful start keeps every saved address: exactly when it skips the
   network, falls back on the saved list, or every saved address is listed again.
   */
  lemma SavedAddressesKeptExactly(d: Disk, s: Start)
    requires Succeeds(d, s) && d.gateways.Saved?
    ensures Boot(d, s).0.gateways.Saved?
    ensures Addresses(d.gateways.gateways) <= Addresses(Boot(d, s).0.gateways.gateways) <==>
      || SkipsLoad(d.config, s)
      || (OnNetwork(d.config, s) && s.machine.remote == [])
      || Addresses(d.gateways.gateways)
         <= Addresses(CliList(s)) + (if OnNetwork(d.config, s) then Addresses(s.machine.remote) else {})
  {
    BootGateways(d, s);
    hide Boot, Dedup, OnNetwork, SkipsLoad, CliGateways;
    var list := if !OnNetwork(d.config, s) then []
                else if s.machine.remote != [] then s.machine.remote
                else d.gateways.gateways;
    DedupAddresses(CliList(s) + list);
    AddressesAppend(CliList(s), list);
  }

  /** So a start in local mode that does not skip the network empties the saved list. */
  lemma LocalStartErasesSavedGateways(d: Disk, s: Start)
    requires Succeeds(d, s) && !OnNetwork(d.config, s) && !SkipsLoad(d.config, s) && s.args.gateway.None?
    ensures Boot(d, s).0.gateways == Saved([])
  {
    BootGateways(d, s);
  }

  /** The list of an isolated node depends on its own arguments alone. */
  lemma IsolatedStart(d: Disk, s: Start, gateways': GatewaysFile, remote': seq<Gateway>)
    requires var a := Effective(d.config, s);
      a.skipLoad && (a.isGateway || (s.args.gateway.Some? && s.args.gateway.value != []))
    ensures var s' := s.(machine := s.machine.(remote := remote'));
      && Boot(d.(gateways := gateways'), s').1 == Boot(d, s).1
      && Boot(d, s).0.gateways == d.gateways
  {
    EffectiveGateway(d.config, s);
    var s' := s.(machine := s.machine.(remote := remote'));
    RemoteUnread(d.config, s, remote');
    hide Effective, Validate, ResolveConfig, Resolve, FileAfterResolve;
    var a := Effective(d.config, s);
    Isolation(GatewayInputs(a, s.machine), d.gateways, gateways', remote');
    SameConfig(a, s.machine, remote');
  }

  lemma RemoteUnread(config: Option<FileConfig>, s: Start, remote': seq<Gateway>)
    ensures Effective(config, s.(machine := s.machine.(remote := remote'))) == Effective(config, s)
  {
    if config.Some? {
      hide Default, NotMergedBack;
      var m, m' := s.machine, s.machine.(remote := remote');
      forall k ensures MergedValue(s.args.values, config.value, k, m) == MergedValue(s.args.values, config.value, k, m') {
        RemoteUnreadDefault(k, m, remote');
      }
    }
  }

  lemma RemoteUnreadDefault(k: Setting, m: Machine, remote': seq<Gateway>)
    ensures forall mode :: Default(k, mode, m.(remote := remote')) == Default(k, mode, m)
  {
  }

  lemma SameConfig(a: Args, m: Machine, remote': seq<Gateway>)
    ensures forall gateways ::
      ResolveConfig(a, m.(remote := remote'), gateways) == ResolveConfig(a, m, gateways)
  {
    var m' := m.(remote := remote');
    hide Default, Normalised;
    forall k ensures ResolvedValue(a, k, m') == ResolvedValue(a, k, m) { RemoteUnreadDefault(k, m, remote'); }
  }

  /** What the warning lists is what a replacement by the remote index loses, up to command-line entries. */
  lemma RemoteReplaceLosesExactly(d: Disk, s: Start, a: Address)
    requires Succeeds(d, s) && OnNetwork(d.config, s) && !SkipsLoad(d.config, s)
    requires s.machine.remote != [] && d.gateways.Saved? && a in Addresses(d.gateways.gateways)
    ensures Boot(d, s).0.gateways.Saved?
    ensures a !in Addresses(Boot(d, s).0.gateways.gateways) <==>
      a in DroppedByRemote(d.gateways.gateways, s.machine.remote) && a !in Addresses(CliList(s))
  {
    BootGateways(d, s);
    hide Boot, Dedup, OnNetwork, SkipsLoad, CliGateways, DroppedByRemote;
    DroppedExactly(d.gateways.gateways, s.machine.remote, a);
    DedupAddresses(CliList(s) + s.machine.remote);
    AddressesAppend(CliList(s), s.machine.remote);
  }

  /**
   A failed start leaves config.toml alone, but not always gateways.toml: a fetched
   index is saved before the checks that can still fail.
   */
  lemma FailedStartChanges(d: Disk, s: Start)
    requires !Succeeds(d, s)
    ensures Boot(d, s).0.config == d.config
    ensures Boot(d, s).0.gateways ==
      if && Parses(d.config, s.machine) && Validate(Effective(d.config, s)).None? && !s.machine.setupFails
         && OnNetwork(d.config, s) && !SkipsLoad(d.config, s) && s.machine.remote != []
      then Saved(s.machine.remote) else d.gateways
  {
    hide Effective, Validate, Resolve, ResolveConfig;
  }

  /** What the start takes for its role and its public identity: the command line's, or the file's. */
  predicate ActsAsGateway(config: Option<FileConfig>, s: Start) {
    s.args.isGateway || (config.Some? && config.value.isGateway)
  }

  predicate Given(config: Option<FileConfig>, s: Start, setting: Setting) {
    setting in s.args.values || (config.Some? && setting in config.value.values)
  }

  /** When a start fails before it looks for gateways, and with what. */
  lemma EarlyFailuresExactly(d: Disk, s: Start)
    ensures Boot(d, s).1 == Err(Unreadable) <==>
      d.config.Some? && (s.machine.readFails || LogLevel !in d.config.value.values)
    ensures Boot(d, s).1 == Err(MissingPublicAddress) <==>
      Parses(d.config, s.machine) && ActsAsGateway(d.config, s) && !Given(d.config, s, PublicAddress)
    ensures Boot(d, s).1 == Err(MissingPublicPort) <==>
      && Parses(d.config, s.machine) && ActsAsGateway(d.config, s)
      && Given(d.config, s, PublicAddress) && !Given(d.config, s, PublicPort)
    ensures Boot(d, s).1 == Err(SetupFailed) <==>
      && Parses(d.config, s.machine) && s.machine.setupFails
      && (ActsAsGateway(d.config, s) ==> Given(d.config, s, PublicAddress) && Given(d.config, s, PublicPort))
  {
    RoleAndIdentity(d.config, s);
    hide Effective, Resolve, ResolveConfig, CidrsAccepted, FileAfterResolve;
  }

  lemma RoleAndIdentity(config: Option<FileConfig>, s: Start)
    ensures var a := Effective(config, s);
      && a.isGateway == ActsAsGateway(config, s)
      && (PublicAddress in a.values <==> Given(config, s, PublicAddress))
      && (PublicPort in a.values <==> Given(config, s, PublicPort))
  {
    UnsetHasNoDefault(PublicAddress, Network, s.machine);
    UnsetHasNoDefault(PublicPort, Network, s.machine);
    hide Default, MergedHosting, MergedModuleCache;
  }

  /** Such a failure: a malformed `--gateway` value next to a reachable index. */
  lemma FailedStartReplacesSavedGateways(d: Disk, s: Start)
    requires Parses(d.config, s.machine) && Validate(Effective(d.config, s)).None? && !s.machine.setupFails
    requires OnNetwork(d.config, s) && !SkipsLoad(d.config, s) && s.machine.remote != []
    requires s.args.gateway == Some([Unparsable])
    ensures !Succeeds(d, s) && Boot(d, s).0.gateways == Saved(s.machine.remote)
  {
    EffectiveGateway(d.config, s);
    hide Effective, Validate;
    assert !AllParsed([Unparsable]) by { assert [Unparsable][0] == Unparsable; }
  }
}
