/**
 A long-lived Config shared by many actions, with an SDK that overwrites fields of the Configuration a
 client-side dry run is handed. Installs and lists never expose the shared Configuration to that; a client
 dry run of an upgrade or a rollback does, and decides exactly what becomes of it.
 */
module Isolation {
  import opened Prelude
  import ChartSource

  /** Clients and storage are bound to a namespace when a Configuration is initialised. */
  datatype KubeClient = Cluster(namespace: string) | FakeClient(id: nat)

  datatype Store = Stored(namespace: string, driver: string) | MemoryStore(id: nat)

  datatype ConfigOptions = ConfigOptions(kubeconfigPath: string, storageDriver: string)

  /** The SDK's action.Configuration; the last five fields are references it is never told to follow. */
  class Configuration {
    var kubeClient: KubeClient
    var releases: Store
    var capabilities: Option<nat>
    var registryClient: Option<nat>
    var restClientGetter: nat
    var logger: nat
    var templateFuncs: nat
    var hookOutput: nat

    /** action.NewConfiguration followed by a successful Init. */
    constructor (options: ConfigOptions, namespace: string, getter: nat, logger: nat)
      ensures kubeClient == Cluster(namespace)
      ensures releases == Stored(namespace, options.storageDriver)
      ensures capabilities.None? && registryClient.None?
      ensures restClientGetter == getter && this.logger == logger
    {
      kubeClient := Cluster(namespace);
      releases := Stored(namespace, options.storageDriver);
      capabilities := None;
      registryClient := None;
      restClientGetter := getter;
      this.logger := logger;
      templateFuncs := 0;
      hookOutput := 0;
    }
  }

  /** Everything a caller can observe of a Configuration. */
  datatype View = View(
    kubeClient: KubeClient,
    releases: Store,
    capabilities: Option<nat>,
    registryClient: Option<nat>,
    restClientGetter: nat,
    logger: nat,
    templateFuncs: nat,
    hookOutput: nat)

  function ViewOf(c: Configuration): View
    reads c
  {
    View(c.kubeClient, c.releases, c.capabilities, c.registryClient,
         c.restClientGetter, c.logger, c.templateFuncs, c.hookOutput)
  }

  // ---- Dry runs -----------------------------------------------------------

  datatype DryRun = DryNone | DryClient | DryServer

  /** strconv.ParseBool. */
  function ParseBool(s: string): Option<bool> {
    if s in ["1", "t", "T", "TRUE", "true", "True"] then Some(true)
    else if s in ["0", "f", "F", "FALSE", "false", "False"] then Some(false)
    else None
  }

  /** What --dry-run accepts. */
  function ParseDryRun(s: string): Option<DryRun> {
    if s == "" || s == "none" then Some(DryNone)
    else if s == "client" then Some(DryClient)
    else if s == "server" then Some(DryServer)
    else
      var b := ParseBool(s);
      if b.None? then None else if b.value then Some(DryClient) else Some(DryNone)
  }

  /** The word of each strategy, as the SDK and the command line spell it. */
  function WordOf(d: DryRun): string {
    match d
    case DryNone => "none"
    case DryClient => "client"
    case DryServer => "server"
  }

  /** The spellings of a client dry run. */
  predicate SaysClient(s: string) {
    s == "client" || s == "1" || s == "t" || s == "T" || s == "true" || s == "True" || s == "TRUE"
  }

  /** Those of no dry run, an absent option included. */
  predicate SaysNone(s: string) {
    s == "" || s == "none" || s == "0" || s == "f" || s == "F" || s == "false" || s == "False" || s == "FALSE"
  }

  /** The whole language of the option: words, legacy booleans, and nothing else. */
  lemma ParseDryRunIs(s: string)
    ensures ParseDryRun(s) == Some(DryClient) <==> SaysClient(s)
    ensures ParseDryRun(s) == Some(DryNone) <==> SaysNone(s)
    ensures ParseDryRun(s) == Some(DryServer) <==> s == "server"
    ensures ParseDryRun(s).None? <==> !SaysClient(s) && !SaysNone(s) && s != "server"
  {
  }

  /** Parsing the word of a strategy gives the strategy back. */
  lemma WordsParse(d: DryRun)
    ensures ParseDryRun(WordOf(d)) == Some(d)
  {
    ParseDryRunIs(WordOf(d));
  }

  /** Words of different strategies differ, so no spelling stands for two. */
  lemma SpellingsDiffer(s: string)
    ensures !(SaysClient(s) && SaysNone(s)) && !(SaysClient(s) && s == "server") && !(SaysNone(s) && s == "server")
  {
    ParseDryRunIs(s);
  }

  predicate InteractsWithServer(d: DryRun) {
    d.DryNone? || d.DryServer?
  }

  /** What the SDK puts into the Configuration of a client-side dry run. */
  datatype Fakes = Fakes(kubeClient: KubeClient, releases: Store, capabilities: Option<nat>)

  /** Any SDK action: against the server it leaves its Configuration alone, otherwise it swaps in fakes. */
  method SdkRun(c: Configuration, dryRun: DryRun, fakes: Fakes)
    modifies if InteractsWithServer(dryRun) then {} else {c}
    ensures ViewOf(c) == if InteractsWithServer(dryRun) then old(ViewOf(c))
                         else old(ViewOf(c)).(kubeClient := fakes.kubeClient, releases := fakes.releases,
                                              capabilities := fakes.capabilities)
  {
    if !InteractsWithServer(dryRun) {
      c.kubeClient := fakes.kubeClient;
      c.releases := fakes.releases;
      c.capabilities := fakes.capabilities;
    }
  }

  // ---- The shared Config --------------------------------------------------

  class Config {
    const cfg: Configuration
    const namespace: string
    const options: ConfigOptions

    constructor (cfg: Configuration, namespace: string, options: ConfigOptions)
      ensures this.cfg == cfg && this.namespace == namespace && this.options == options
    {
      this.cfg := cfg;
      this.namespace := namespace;
      this.options := options;
    }

    /** The shared Configuration for its own namespace, a fresh sibling for any other; null if Init fails. */
    method ForNamespace(namespace: string, initOk: bool, getter: nat, logger: nat) returns (c: Configuration?)
      ensures namespace == this.namespace ==> c == cfg
      ensures namespace != this.namespace && !initOk ==> c == null
      ensures namespace != this.namespace && initOk ==>
                && c != null && fresh(c)
                && c.kubeClient == Cluster(namespace)
                && c.releases == Stored(namespace, options.storageDriver)
                && c.registryClient.None?
    {
      if namespace == this.namespace {
        return cfg;
      }
      if !initOk {
        return null;
      }
      c := new Configuration(options, namespace, getter, logger);
    }

    /** A throwaway copy: same clients, storage and settings, its own struct. */
    method DetachedConfiguration() returns (cp: Configuration)
      ensures fresh(cp) && ViewOf(cp) == ViewOf(cfg)
    {
      cp := new Configuration(options, namespace, cfg.restClientGetter, cfg.logger);
      cp.restClientGetter := cfg.restClientGetter;
      cp.releases := cfg.releases;
      cp.kubeClient := cfg.kubeClient;
      cp.registryClient := cfg.registryClient;
      cp.capabilities := cfg.capabilities;
      cp.templateFuncs := cfg.templateFuncs;
      cp.hookOutput := cfg.hookOutput;
    }

    /** Binding (or, with None, unbinding) a registry client: the one mutation a caller may ask for. */
    method SetRegistryClient(client: Option<nat>)
      modifies cfg
      ensures ViewOf(cfg) == old(ViewOf(cfg)).(registryClient := client)
    {
      cfg.registryClient := client;
    }
  }

  // ---- Actions ------------------------------------------------------------

  /** The config's own namespace, which an empty option stands for too. */
  predicate Own(cfg: Config, namespace: string) {
    namespace == "" || namespace == cfg.namespace
  }

  predicate Accepted(dryRun: string) {
    SaysNone(dryRun) || SaysClient(dryRun) || dryRun == "server"
  }

  /** The Configuration a new install action is built on. */
  method NewInstall(cfg: Config, namespace: string, dryRun: string, initOk: bool, getter: nat, logger: nat)
    returns (c: Configuration?, strategy: Option<DryRun>)
    ensures strategy.Some? <==> Accepted(dryRun)
    ensures strategy == Some(DryClient) <==> SaysClient(dryRun)
    ensures strategy == Some(DryServer) <==> dryRun == "server"
    ensures c != null <==> Accepted(dryRun) && (Own(cfg, namespace) || initOk)
    ensures c != null && SaysClient(dryRun) ==> fresh(c)
    ensures c != null && !SaysClient(dryRun) && Own(cfg, namespace) ==> c == cfg.cfg
    ensures c != null && Own(cfg, namespace) ==> ViewOf(c) == ViewOf(cfg.cfg)
    ensures c != null && !Own(cfg, namespace) ==>
              && fresh(c)
              && c.kubeClient == Cluster(namespace)
              && c.releases == Stored(namespace, cfg.options.storageDriver)
              && c.registryClient.None?
  {
    ParseDryRunIs(dryRun);
    c := null;
    strategy := ParseDryRun(dryRun);
    if strategy.None? {
      return;
    }
    var target := namespace;
    if target == "" {
      target := cfg.namespace;
    }
    c := cfg.ForNamespace(target, initOk, getter, logger);
    if c != null && !InteractsWithServer(strategy.value) {
      var wrapped := new Config(c, target, cfg.options);
      c := wrapped.DetachedConfiguration();
    }
  }

  /**
   `fakes` is what the SDK would put in on a client dry run; `checksPass` says whether everything else that
   stands between the call and the SDK (guard, values, chart, other options) lets it through.
   */
  datatype Action =
    | Install(namespace: string, dryRun: string, initOk: bool, fakes: Fakes)
    | List(allNamespaces: bool, initOk: bool, fakes: Fakes)
    | Upgrade(namespace: string, dryRun: string, checksPass: bool, fakes: Fakes)
    | Rollback(dryRun: string, checksPass: bool, fakes: Fakes)
    | Status(fakes: Fakes)
    | Bind(client: Option<nat>)

  /** A client dry run that gets as far as the SDK, on the shared Configuration. */
  predicate Exposes(a: Action, namespace: string) {
    match a
    case Upgrade(ns, dryRun, checksPass, _) =>
      checksPass && (ns == "" || ns == namespace) && SaysClient(dryRun)
    case Rollback(dryRun, checksPass, _) => checksPass && SaysClient(dryRun)
    case _ => false
  }

  /** The fakes of the last such dry run, if there was one. */
  function LastFakes(acts: seq<Action>, namespace: string): Option<Fakes> {
    if acts == [] then None
    else if Exposes(acts[|acts| - 1], namespace) then Some(acts[|acts| - 1].fakes)
    else LastFakes(acts[..|acts| - 1], namespace)
  }

  function FakesOf(v: View): Fakes {
    Fakes(v.kubeClient, v.releases, v.capabilities)
  }

  function WithFakes(v: View, fakes: Option<Fakes>): View {
    if fakes.None? then v
    else v.(kubeClient := fakes.value.kubeClient, releases := fakes.value.releases,
            capabilities := fakes.value.capabilities)
  }

  lemma {:induction false} NoneExposed(acts: seq<Action>, namespace: string)
    ensures LastFakes(acts, namespace).None? <==> forall a | a in acts :: !Exposes(a, namespace)
  {
    if acts != [] {
      var n := |acts| - 1;
      NoneExposed(acts[..n], namespace);
      assert acts == acts[..n] + [acts[n]];
    }
  }

  /** The registry client after `acts`, starting from `start`: that of the last binding. */
  function LastBinding(acts: seq<Action>, start: Option<nat>): Option<nat> {
    if acts == [] then start
    else if acts[|acts| - 1].Bind? then acts[|acts| - 1].client
    else LastBinding(acts[..|acts| - 1], start)
  }

  /**
   An install, start to end. It writes to no object that existed before. `ranOn` is the Configuration the
   SDK was given, `pullClient` the registry client a remote chart is pulled with.
   */
  method RunInstall(cfg: Config, a: Action, getter: nat, logger: nat)
    returns (ranOn: Configuration?, pullClient: Option<nat>)
    requires a.Install?
    ensures ranOn != null <==> Accepted(a.dryRun) && (Own(cfg, a.namespace) || a.initOk)
    ensures pullClient == cfg.cfg.registryClient
    ensures ranOn != null && !SaysClient(a.dryRun) ==>
              && (Own(cfg, a.namespace) ==> ranOn == cfg.cfg)
              && (!Own(cfg, a.namespace) ==>
                    && fresh(ranOn)
                    && ranOn.kubeClient == Cluster(a.namespace)
                    && ranOn.releases == Stored(a.namespace, cfg.options.storageDriver))
    ensures ranOn != null && SaysClient(a.dryRun) ==> fresh(ranOn) && FakesOf(ViewOf(ranOn)) == a.fakes
  {
    var strategy;
    ranOn, strategy := NewInstall(cfg, a.namespace, a.dryRun, a.initOk, getter, logger);
    pullClient := cfg.cfg.registryClient;
    if ranOn != null {
      SdkRun(ranOn, strategy.value, a.fakes);
    }
  }

  /** A list runs on the shared Configuration, or on a sibling bound to no namespace. */
  method RunList(cfg: Config, a: Action, getter: nat, logger: nat) returns (ranOn: Configuration?)
    requires a.List?
    ensures !a.allNamespaces ==> ranOn == cfg.cfg
    ensures a.allNamespaces && cfg.namespace != "" ==>
              && (ranOn == null <==> !a.initOk)
              && (ranOn != null ==> fresh(ranOn) && ranOn.releases == Stored("", cfg.options.storageDriver))
  {
    ranOn := cfg.cfg;
    if a.allNamespaces {
      ranOn := cfg.ForNamespace("", a.initOk, getter, logger);
    }
    if ranOn != null {
      SdkRun(ranOn, DryNone, a.fakes);
    }
  }

  /** An upgrade runs on the shared Configuration, in its namespace only, whatever the dry run asked for. */
  method RunUpgrade(cfg: Config, a: Action)
    requires a.Upgrade?
    modifies if Exposes(a, cfg.namespace) then {cfg.cfg} else {}
    ensures ViewOf(cfg.cfg) == if a.checksPass && Own(cfg, a.namespace) && SaysClient(a.dryRun)
                               then WithFakes(old(ViewOf(cfg.cfg)), Some(a.fakes)) else old(ViewOf(cfg.cfg))
  {
    ParseDryRunIs(a.dryRun);
    if a.namespace != "" && a.namespace != cfg.namespace {
      return;
    }
    var strategy := ParseDryRun(a.dryRun);
    if strategy.Some? && a.checksPass {
      SdkRun(cfg.cfg, strategy.value, a.fakes);
    }
  }

  method RunRollback(cfg: Config, a: Action)
    requires a.Rollback?
    modifies if Exposes(a, cfg.namespace) then {cfg.cfg} else {}
    ensures ViewOf(cfg.cfg) == if a.checksPass && SaysClient(a.dryRun)
                               then WithFakes(old(ViewOf(cfg.cfg)), Some(a.fakes)) else old(ViewOf(cfg.cfg))
  {
    ParseDryRunIs(a.dryRun);
    var strategy := ParseDryRun(a.dryRun);
    if strategy.Some? && a.checksPass {
      SdkRun(cfg.cfg, strategy.value, a.fakes);
    }
  }

  /** `v` with the registry client last bound. */
  function Rebound(v: View, acts: seq<Action>): View {
    v.(registryClient := LastBinding(acts, v.registryClient))
  }

  /**
   Any sequence of actions on one Config. Afterwards the registry client is the one last bound, the other
   fields are as they were or as the last exposing dry run left them, and so the shared Configuration is
   preserved exactly when there was no such dry run or its fakes are what was there already.
   */
  method RunAll(cfg: Config, acts: seq<Action>, getter: nat, logger: nat)
    modifies cfg.cfg
    ensures ViewOf(cfg.cfg) ==
            WithFakes(Rebound(old(ViewOf(cfg.cfg)), acts), LastFakes(acts, cfg.namespace))
    ensures ViewOf(cfg.cfg) == Rebound(old(ViewOf(cfg.cfg)), acts) <==>
            || (forall a | a in acts :: !Exposes(a, cfg.namespace))
            || LastFakes(acts, cfg.namespace) == Some(FakesOf(old(ViewOf(cfg.cfg))))
  {
    var i := 0;
    while i < |acts|
      invariant 0 <= i <= |acts|
      invariant ViewOf(cfg.cfg) ==
                WithFakes(Rebound(old(ViewOf(cfg.cfg)), acts[..i]), LastFakes(acts[..i], cfg.namespace))
    {
      assert acts[..i + 1][..i] == acts[..i];
      match acts[i] {
        case Install(_, _, _, _) =>
          var ranOn, client := RunInstall(cfg, acts[i], getter, logger);
        case List(_, _, _) =>
          var ranOn := RunList(cfg, acts[i], getter, logger);
        case Upgrade(_, _, _, _) => RunUpgrade(cfg, acts[i]);
        case Rollback(_, _, _) => RunRollback(cfg, acts[i]);
        case Status(fakes) => SdkRun(cfg.cfg, DryNone, fakes);
        case Bind(client) => cfg.SetRegistryClient(client);
      }
      i := i + 1;
    }
    assert acts[..i] == acts;
    NoneExposed(acts, cfg.namespace);
  }

  /**
   After any actions, exposing dry runs and installs on siblings or copies included, a remote chart is pulled
   with the registry client last bound.
   */
  method PullAfter(cfg: Config, acts: seq<Action>, ref: string, repoURL: string, getter: nat, logger: nat)
    returns (s: ChartSource.Source)
    modifies cfg.cfg
    ensures s == ChartSource.PullChartRef(LastBinding(acts, old(cfg.cfg.registryClient)), ref, repoURL)
  {
    RunAll(cfg, acts, getter, logger);
    s := ChartSource.PullChartRef(cfg.cfg.registryClient, ref, repoURL);
  }

  /** One client dry run of an upgrade or a rollback preserves the shared Configuration iff it changes nothing. */
  lemma DryRunPreservesIff(v: View, a: Action, namespace: string)
    requires Exposes(a, namespace)
    ensures WithFakes(Rebound(v, [a]), LastFakes([a], namespace)) == v <==> a.fakes == FakesOf(v)
  {
    assert [a][..0] == [];
    assert LastBinding([a], v.registryClient) == LastBinding([], v.registryClient);
    assert LastFakes([a], namespace) == Some(a.fakes);
  }

  /** A binding hides every earlier one; the other actions hide none. */
  lemma {:induction false} LastBindingConcat(a: seq<Action>, b: seq<Action>, start: Option<nat>)
    ensures LastBinding(a + b, start) == LastBinding(b, LastBinding(a, start))
    ensures (forall i: nat | i < |b| :: !b[i].Bind?) ==> LastBinding(a + b, start) == LastBinding(a, start)
  {
    if b == [] {
      assert a + b == a;
    } else {
      var n := |b| - 1;
      assert (a + b)[..|a + b| - 1] == a + b[..n];
      LastBindingConcat(a, b[..n], start);
    }
  }
}
