/**
 One start of the node (`ConfigArgs::build_with_gateways_index` in `config.rs`):
 command line over saved file over derived default, validation, gateway resolution,
 and writing the result back for the next start.

 Parsed files and fetch results are values; a write replaces a value.  Of the text of
 config.toml the model keeps what the parsed value does not determine: the order in
 which the blocked addresses are listed, and whether the rest is as the serialiser
 would write it.
 */
module Startup {
  import opened Wrappers
  import opened Gateways

  /** The settings with a plain value. */
  datatype Setting =
    | WsAddress | WsPort | TokenTtlSeconds | TokenCleanupIntervalSeconds | AllowedHosts | AllowedSourceCidrs
    | HostedMode | PerUserOpRateLimit | PerUserOpBurst | PerUserExportMinIntervalSecs
    | NetworkAddress | NetworkPort | TransientBudget | TransientTtlSecs | MinConnections | MaxConnections
    | StreamingThreshold | LedbatMinSsthresh | CongestionControl | EventLoopChannelCapacity
    | LogLevel | HostingDiskPct | MaxHostingDisk | PerUserSecretQuotaBytes | PerUserInactiveTtlSecs
    | InactiveUserSweepIntervalSecs | ShutdownDrainSecs | MaxBlockingThreads
    | TelemetryEndpoint | TransportSnapshotIntervalSecs
    // settings that may stay unset
    | PublicAddress | PublicPort | BandwidthLimit | TotalBandwidthLimit | MinBandwidthPerConnection
    | BlockedAddresses | BbrStartupRate | Location | EnableEventLog

  /** `Members` is a hash set: the blocked addresses, once collected from their list. */
  datatype Value =
    | Num(n: int) | Dec(r: real) | Text(s: string) | Items(items: seq<string>) | Flag(b: bool)
    | Members(members: set<string>)

  type Settings = map<Setting, Value>

  /** What the machine and the network contribute to one start. */
  datatype Machine = Machine(
    hostingBudget: nat,               // derived from memory
    moduleCacheBudget: nat,           // derived from memory
    freePort: int,                    // found at random
    blockingThreads: int,             // derived from the processor count
    remote: seq<Gateway>,             // the remote gateway index; empty when it cannot be fetched
    readFails: bool,                  // config.toml exists but cannot be read or parsed
    setupFails: bool,                 // directories or key files cannot be set up
    acceptsCidrs: Value -> bool,      // `validate_source_cidr` on every entry
    listing: set<string> -> seq<string>)  // the order in which this process iterates a hash set

  /** The command line; also the arguments after the saved file was merged in. */
  datatype Args = Args(
    mode: Option<Mode>, values: Settings,
    isGateway: bool, skipLoad: bool, telemetry: bool, referencePing: bool, ifaceTx: bool,
    hosting: Option<nat>, moduleCache: Option<nat>,
    inlined: Inline, gateway: Option<seq<CliEntry>>)

  /** config.toml as parsed; keys that may be missing from a file are optional. */
  datatype FileConfig = FileConfig(
    mode: Mode, values: Settings,
    isGateway: bool, skipLoad: bool, telemetry: bool, referencePing: bool, ifaceTx: bool,
    hosting: Option<nat>, moduleCache: Option<nat>)

  datatype Config = Config(
    mode: Mode, values: Settings,
    isGateway: bool, skipLoad: bool, telemetry: bool, referencePing: bool, ifaceTx: bool,
    hosting: nat, moduleCache: nat,
    peerId: Option<(Value, Value)>, gateways: seq<Gateway>)

  /** The text of config.toml beyond its parsed value. */
  datatype Layout = Layout(blockedOrder: seq<string>, canonical: bool)

  datatype Disk = Disk(config: Option<FileConfig>, gateways: GatewaysFile, layout: Layout)

  datatype Start = Start(args: Args, machine: Machine)

  datatype BootError =
    | Unreadable | MissingPublicAddress | MissingPublicPort | SetupFailed
    | GatewayFailure(error: GatewayError) | RejectedCidr

  /** 1 GiB, the flat hosting budget that older releases wrote out. */
  const LEGACY_HOSTING: nat := 1_073_741_824

  /** 1.5 GiB, the module cache clamp that older releases wrote out. */
  const LEGACY_MODULE_CACHE: nat := 1_610_612_736

  /** `clamp(total_ram / 8, 128 MiB, 1 GiB)`: the range of a derived hosting budget. */
  const MIN_HOSTING: nat := 134_217_728
  const MAX_HOSTING: nat := 1_073_741_824

  // ----- Defaults -----

  predicate MayStayUnset(s: Setting) {
    match s
    case PublicAddress | PublicPort | BandwidthLimit | TotalBandwidthLimit | MinBandwidthPerConnection
       | BlockedAddresses | BbrStartupRate | Location | EnableEventLog => true
    case _ => false
  }

  function AddressDefault(mode: Mode): Value {
    Text(if mode == Local then "::1" else "::")
  }

  /** The value of a setting that neither the command line nor the file gave. */
  function Default(s: Setting, mode: Mode, m: Machine): Option<Value> {
    if MayStayUnset(s) then None else Some(
      match s
      case WsAddress => AddressDefault(mode)
      case NetworkAddress => AddressDefault(mode)
      case NetworkPort => Num(m.freePort)
      case MaxBlockingThreads => Num(m.blockingThreads)
      case WsPort => Num(7509)
      case TokenTtlSeconds => Num(86_400)
      case TokenCleanupIntervalSeconds => Num(300)
      case AllowedHosts => Items([])
      case AllowedSourceCidrs => Items([])
      case HostedMode => Flag(false)
      case PerUserOpRateLimit => Num(10)
      case PerUserOpBurst => Num(100)
      case PerUserExportMinIntervalSecs => Num(10)
      case TransientBudget => Num(2048)
      case TransientTtlSecs => Num(30)
      case MinConnections => Num(25)
      case MaxConnections => Num(200)
      case StreamingThreshold => Num(65_536)
      case LedbatMinSsthresh => Num(102_400)
      case CongestionControl => Text("fixedrate")
      case EventLoopChannelCapacity => Num(2048)
      case LogLevel => Text("info")
      case HostingDiskPct => Dec(0.5)
      case MaxHostingDisk => Num(34_359_738_368)
      case PerUserSecretQuotaBytes => Num(4_194_304)
      case PerUserInactiveTtlSecs => Num(2_592_000)
      case InactiveUserSweepIntervalSecs => Num(3_600)
      case ShutdownDrainSecs => Num(30)
      case TelemetryEndpoint => Text("http://nova.locut.us:4318")
      case _ => Num(30))
  }

  /** What parsing fills in for a missing key: the addresses do not depend on the mode here. */
  function ParsedValue(f: FileConfig, s: Setting, m: Machine): Option<Value> {
    if s in f.values then Some(f.values[s]) else Default(s, Network, m)
  }

  // ----- Merge -----

  /** These are merged back only when they differ from the built-in value. */
  predicate NotMergedBack(s: Setting, v: Value) {
    match s
    case AllowedHosts => v == Items([])
    case AllowedSourceCidrs => v == Items([])
    case StreamingThreshold => v == Num(65_536)
    case CongestionControl => v == Text("fixedrate")
    case _ => false
  }

  /** Blocked addresses pass through a list here, which the resolution collects into a set again. */
  function MergedValue(given: Settings, f: FileConfig, s: Setting, m: Machine): Option<Value> {
    if s in given then Some(given[s])
    else
      var parsed := ParsedValue(f, s, m);
      if parsed.Some? && !NotMergedBack(s, parsed.value) then parsed else None
  }

  function MergedValues(given: Settings, f: FileConfig, m: Machine): Settings {
    map s: Setting | MergedValue(given, f, s, m).Some? :: MergedValue(given, f, s, m).value
  }

  /** The file's hosting budget, unless it is the legacy value; a missing key parses as the derived one. */
  function MergedHosting(args: Args, f: FileConfig, m: Machine): Option<nat> {
    var parsed := if f.hosting.Some? then f.hosting.value else m.hostingBudget;
    OrElse(args.hosting, if parsed != LEGACY_HOSTING then Some(parsed) else None)
  }

  function MergedModuleCache(args: Args, f: FileConfig, m: Machine): Option<nat> {
    var parsed := if f.moduleCache.Some? then f.moduleCache.value else m.moduleCacheBudget;
    OrElse(args.moduleCache, if parsed != LEGACY_MODULE_CACHE then Some(parsed) else None)
  }

  /** Command-line arguments filled up from the saved file. */
  function MergeFile(args: Args, f: FileConfig, m: Machine): Args {
    Args(
      OrElse(args.mode, Some(f.mode)),
      MergedValues(args.values, f, m),
      args.isGateway || f.isGateway,
      args.skipLoad || f.skipLoad,
      args.telemetry && f.telemetry,
      args.referencePing || f.referencePing,
      args.ifaceTx || f.ifaceTx,
      MergedHosting(args, f, m),
      MergedModuleCache(args, f, m),
      args.inlined, args.gateway)
  }

  /** The settings that the file can still fill in. */
  function FromFileValues(given: Settings, f: FileConfig, m: Machine): Settings {
    map s: Setting |
      s !in given && ParsedValue(f, s, m).Some? && !NotMergedBack(s, ParsedValue(f, s, m).value) ::
      ParsedValue(f, s, m).value
  }

  lemma FillsIn(given: Settings, f: FileConfig, m: Machine)
    ensures given + FromFileValues(given, f, m) == MergedValues(given, f, m)
  {
    hide ParsedValue, NotMergedBack;
  }

  function Effective(config: Option<FileConfig>, s: Start): Args {
    if config.None? then s.args else MergeFile(s.args, config.value, s.machine)
  }

  /** The mutable argument record of the source, merged field by field. */
  class ConfigArgs {
    var mode: Option<Mode>
    var values: Settings
    var isGateway: bool
    var skipLoad: bool
    var telemetry: bool
    var referencePing: bool
    var ifaceTx: bool
    var hosting: Option<nat>
    var moduleCache: Option<nat>
    const inlined: Inline
    const gateway: Option<seq<CliEntry>>

    function View(): Args
      reads this
    {
      Args(mode, values, isGateway, skipLoad, telemetry, referencePing, ifaceTx, hosting, moduleCache, inlined, gateway)
    }

    constructor (a: Args)
      ensures View() == a
    {
      mode, values := a.mode, a.values;
      isGateway, skipLoad, telemetry, referencePing, ifaceTx :=
        a.isGateway, a.skipLoad, a.telemetry, a.referencePing, a.ifaceTx;
      hosting, moduleCache, inlined, gateway := a.hosting, a.moduleCache, a.inlined, a.gateway;
    }

    method Merge(f: FileConfig, m: Machine)
      modifies this
      ensures View() == MergeFile(old(View()), f, m)
    {
      if mode.None? { mode := Some(f.mode); }
      FillsIn(values, f, m);
      hide MergedValues, FromFileValues;
      values := values + FromFileValues(values, f, m);
      MergeFlags(f);
      MergeBudgets(f, m);
    }

    /** The on/off flags can only be turned one way by the file. */
    method MergeFlags(f: FileConfig)
      modifies this`isGateway, this`skipLoad, this`telemetry, this`referencePing, this`ifaceTx
      ensures isGateway == (old(isGateway) || f.isGateway)
      ensures skipLoad == (old(skipLoad) || f.skipLoad)
      ensures telemetry == (old(telemetry) && f.telemetry)
      ensures referencePing == (old(referencePing) || f.referencePing)
      ensures ifaceTx == (old(ifaceTx) || f.ifaceTx)
    {
      if f.isGateway { isGateway := true; }
      if f.skipLoad { skipLoad := true; }
      if !f.telemetry { telemetry := false; }
      if f.referencePing { referencePing := true; }
      if f.ifaceTx { ifaceTx := true; }
    }

    method MergeBudgets(f: FileConfig, m: Machine)
      modifies this`hosting, this`moduleCache
      ensures hosting == MergedHosting(old(View()), f, m)
      ensures moduleCache == MergedModuleCache(old(View()), f, m)
    {
      var parsedHosting := if f.hosting.Some? then f.hosting.value else m.hostingBudget;
      if parsedHosting != LEGACY_HOSTING && hosting.None? { hosting := Some(parsedHosting); }
      var parsedCache := if f.moduleCache.Some? then f.moduleCache.value else m.moduleCacheBudget;
      if parsedCache != LEGACY_MODULE_CACHE && moduleCache.None? { moduleCache := Some(parsedCache); }
    }
  }

  // ----- Validation and resolution -----

  function Validate(a: Args): Option<BootError> {
    if a.isGateway && PublicAddress !in a.values then Some(MissingPublicAddress)
    else if a.isGateway && PublicPort !in a.values then Some(MissingPublicPort)
    else None
  }

  function ModeOf(a: Args): Mode {
    if a.mode.Some? then a.mode.value else Network
  }

  function PeerId(a: Args): Option<(Value, Value)> {
    if PublicAddress in a.values && PublicPort in a.values
    then Some((a.values[PublicAddress], a.values[PublicPort])) else None
  }

  /** An interval of zero means the default interval; blocked addresses are collected into a set. */
  function Normalised(s: Setting, v: Value): Value {
    if s == InactiveUserSweepIntervalSecs && v == Num(0) then Num(3_600)
    else if s == BlockedAddresses && v.Items? then Members(set x | x in v.items)
    else v
  }

  function ResolvedValue(a: Args, s: Setting, m: Machine): Option<Value> {
    if s in a.values then Some(Normalised(s, a.values[s])) else Default(s, ModeOf(a), m)
  }

  function ResolvedHosting(a: Args, m: Machine): nat {
    if a.hosting.Some? then a.hosting.value else m.hostingBudget
  }

  function ResolvedModuleCache(a: Args, m: Machine): nat {
    if a.moduleCache.Some? then a.moduleCache.value else m.moduleCacheBudget
  }

  function ResolveConfig(a: Args, m: Machine, gateways: seq<Gateway>): Config {
    Config(
      ModeOf(a),
      map s: Setting | ResolvedValue(a, s, m).Some? :: ResolvedValue(a, s, m).value,
      a.isGateway, a.skipLoad, a.telemetry, a.referencePing, a.ifaceTx,
      ResolvedHosting(a, m), ResolvedModuleCache(a, m),
      PeerId(a), gateways)
  }

  /** Serialisation: peer id and gateways are not written, nor is a hosting budget equal to the derived one. */
  function Serialised(c: Config, m: Machine): FileConfig {
    FileConfig(
      c.mode, c.values, c.isGateway, c.skipLoad, c.telemetry, c.referencePing, c.ifaceTx,
      if c.hosting == m.hostingBudget then None else Some(c.hosting),
      Some(c.moduleCache))
  }

  function Blocked(f: FileConfig): set<string> {
    if BlockedAddresses in f.values && f.values[BlockedAddresses].Members? then f.values[BlockedAddresses].members
    else {}
  }

  /** The text that the serialiser produces in this process. */
  function WrittenLayout(f: FileConfig, m: Machine): Layout {
    Layout(m.listing(Blocked(f)), true)
  }

  function GatewayInputs(a: Args, m: Machine): Inputs {
    Inputs(ModeOf(a), a.skipLoad, a.isGateway, PeerId(a).Some?, m.remote, a.inlined, a.gateway)
  }

  /** A config file without a log level does not parse: that key has no default. */
  predicate Parses(config: Option<FileConfig>, m: Machine) {
    config.Some? ==> !m.readFails && LogLevel in config.value.values
  }

  predicate CidrsAccepted(a: Args, m: Machine) {
    AllowedSourceCidrs in a.values ==> m.acceptsCidrs(a.values[AllowedSourceCidrs])
  }

  /** One start on what is on disk: what is there afterwards, and the outcome. */
  function Boot(d: Disk, s: Start): (Disk, Result<Config, BootError>) {
    if !Parses(d.config, s.machine) then (d, Err(Unreadable))
    else
      var a := Effective(d.config, s);
      if Validate(a).Some? then (d, Err(Validate(a).value))
      else if s.machine.setupFails then (d, Err(SetupFailed))
      else
        var i := GatewayInputs(a, s.machine);
        var saved := FileAfterResolve(i, d.gateways);
        match Resolve(i, d.gateways)
        case Err(e) => (d.(gateways := saved), Err(GatewayFailure(e)))
        case Ok(gateways) =>
          if !CidrsAccepted(a, s.machine) then (d.(gateways := saved), Err(RejectedCidr))
          else
            var c := ResolveConfig(a, s.machine, gateways);
            var file := Serialised(c, s.machine);
            (Disk(Some(file), if a.skipLoad then saved else Saved(gateways), WrittenLayout(file, s.machine)), Ok(c))
  }

  /** Whether the start writes config.toml: it succeeds, and the text differs from the one there. */
  predicate Rewrites(d: Disk, s: Start) {
    var (d', r) := Boot(d, s);
    r.Ok? && (d.config != d'.config || d.layout != d'.layout)
  }

  /** The two files of a data directory, rewritten in the order the source writes them. */
  class DataDir {
    var config: Option<FileConfig>
    var gateways: GatewaysFile
    var layout: Layout
    ghost var rewrites: nat           // times config.toml was written

    function View(): Disk
      reads this
    {
      Disk(config, gateways, layout)
    }

    constructor (d: Disk)
      ensures View() == d && rewrites == 0
    {
      config, gateways, layout, rewrites := d.config, d.gateways, d.layout, 0;
    }

    method Build(s: Start) returns (r: Result<Config, BootError>)
      modifies this
      ensures (View(), r) == Boot(old(View()), s)
      ensures rewrites == old(rewrites) + (if Rewrites(old(View()), s) then 1 else 0)
    {
      hide Serialised, ResolveConfig, Resolve, FileAfterResolve, MergeFile, Blocked;
      var args := new ConfigArgs(s.args);
      if config.Some? {
        if s.machine.readFails || LogLevel !in config.value.values {
          return Err(Unreadable);
        }
        args.Merge(config.value, s.machine);
      }
      var a := args.View();
      assert a == Effective(config, s);
      var invalid := Validate(a);
      if invalid.Some? {
        return Err(invalid.value);
      }
      if s.machine.setupFails {
        return Err(SetupFailed);
      }
      var list := ResolveGateways(GatewayInputs(a, s.machine));
      if list.Err? {
        return Err(GatewayFailure(list.error));
      }
      if AllowedSourceCidrs in a.values && !s.machine.acceptsCidrs(a.values[AllowedSourceCidrs]) {
        return Err(RejectedCidr);
      }
      var c := ResolveConfig(a, s.machine, list.value);
      if !a.skipLoad {
        gateways := Saved(list.value);
      }
      var next := Serialised(c, s.machine);
      Persist(next, WrittenLayout(next, s.machine));
      r := Ok(c);
    }

    /** Writes config.toml unless the text there is already the same. */
    method Persist(next: FileConfig, text: Layout)
      modifies this`config, this`layout, this`rewrites
      ensures config == Some(next) && layout == text
      ensures rewrites == old(rewrites) + (if old(config) != config || old(layout) != layout then 1 else 0)
    {
      if config != Some(next) || layout != text {
        config, layout := Some(next), text;
        rewrites := rewrites + 1;
      }
    }

    /** Decides on the gateway list; a fetched index is saved on the way. */
    method ResolveGateways(i: Inputs) returns (r: Result<seq<Gateway>, GatewayError>)
      modifies this`gateways
      ensures r == Resolve(i, old(gateways)) && gateways == FileAfterResolve(i, old(gateways))
    {
      var loaded: seq<Gateway> := [];
      if i.mode == Network {
        if !i.skipLoad {
          loaded := i.remote;
        } else {
          match i.inlined {
            case NoInline =>
            case MalformedInline => return Err(BadInlineEntry);
            case InlineEntries(entries) => loaded := entries;
          }
        }
      }
      var list: seq<Gateway> := [];
      if i.mode == Local {
      } else if !i.skipLoad && loaded != [] {
        gateways := Saved(loaded);
        list := loaded;
      } else if i.skipLoad && (i.isGateway || HasCliGateways(i)) {
        list := loaded;
      } else {
        match gateways {
          case Malformed => return Err(BadGatewaysFile);
          case Missing =>
            if !i.hasPeerId && !i.isGateway && loaded == [] && !HasCliGateways(i) {
              return Err(NoGateways);
            }
          case Saved(saved) => list := saved;
        }
        if loaded != [] {
          var merged := new GatewayList(list);
          merged.MergeAndDeduplicate(loaded);
          list := merged.gateways;
        }
      }
      if i.cli.None? {
        return Ok(list);
      }
      r := MergeCliEntries(i.cli.value, list);
    }
  }
}
