/**
 Temporary files and directories: three nested scratch directories on the way to a remote chart, one
 around dependency resolution, and the kubeconfig file a Config owns. Every SDK call may succeed, fail or
 panic. Names are conserved on every path but a few panics, and exactly those are identified.
 */
module Scratch {
  import opened Prelude

  /** How a call into the SDK or the file system can end. */
  datatype Out = Good | Fails | Panics

  /** `mk` says whether MkdirTemp succeeds; the others are SDK or decoding calls in order. */
  datatype PullRun = PullRun(client: Out, mk: bool, run: Out)

  datatype RefRun = RefRun(remote: bool, mk: bool, pull: PullRun, archive: bool, load: Out)

  datatype ShowRun = ShowRun(format: bool, client: Out, local: bool, mk: bool, ref: RefRun, save: Out, render: Out)

  datatype DepsRun = DepsRun(verify: bool, mk: bool, writeRepos: Out, client: Out, resolve: Out)

  /** How a chart is resolved for install or upgrade. */
  datatype ChartRun =
    | Handle(ok: bool, check: Out)
    | LocalPath(load: Out, isDir: bool, accessor: Out, check: Out, update: bool, deps: DepsRun, reload: Out)
    | Remote(ref: RefRun, check: Out)

  datatype ConfigRun = ConfigRun(exclusive: bool, content: bool, create: bool, write: bool, init: Out)

  // ---- How a call ends: as the first of its steps that is not good ---------

  function Then(first: Out, second: Out): Out {
    if first.Good? then second else first
  }

  function Test(b: bool): Out {
    if b then Good else Fails
  }

  function PullResult(o: PullRun): Out {
    Then(o.client, Then(Test(o.mk), o.run))
  }

  function RefResult(o: RefRun): Out {
    Then(Test(o.remote), Then(Test(o.mk), Then(PullResult(o.pull), Then(Test(o.archive), o.load))))
  }

  function PathResult(o: ShowRun): Out {
    if o.local then Good else Then(Test(o.mk), Then(RefResult(o.ref), o.save))
  }

  function ShowResult(o: ShowRun): Out {
    Then(Test(o.format), Then(o.client, Then(PathResult(o), o.render)))
  }

  function ManagerResult(o: DepsRun): Out {
    Then(Test(o.verify), Then(Test(o.mk), Then(o.writeRepos, o.client)))
  }

  function ChartResult(o: ChartRun): Out {
    match o
    case Handle(ok, check) => Then(Test(ok), check)
    case LocalPath(load, isDir, accessor, check, update, deps, reload) =>
      Then(load, Then(accessor,
        if check.Fails? && update && isDir then Then(ManagerResult(deps), Then(deps.resolve, reload)) else check))
    case Remote(ref, check) => Then(RefResult(ref), check)
  }

  function ConfigResult(o: ConfigRun): Out {
    Then(Test(!o.exclusive), Then(Test(!o.content || (o.create && o.write)), o.init))
  }

  // ---- Which panics strand a name -----------------------------------------

  /** The ways a panic strands a directory: it strikes between creation and the first deferred removal. */
  predicate PullPanics(o: PullRun) {
    o.client.Panics? || (o.client.Good? && o.mk && o.run.Panics?)
  }

  predicate PullGood(o: PullRun) {
    o.client.Good? && o.mk && o.run.Good?
  }

  predicate RefPanics(o: RefRun) {
    o.remote && o.mk && (PullPanics(o.pull) || (PullGood(o.pull) && o.archive && o.load.Panics?))
  }

  predicate RefGood(o: RefRun) {
    o.remote && o.mk && PullGood(o.pull) && o.archive && o.load.Good?
  }

  predicate ShowStrands(o: ShowRun) {
    o.format && o.client.Good? && !o.local && o.mk && (RefPanics(o.ref) || (RefGood(o.ref) && o.save.Panics?))
  }

  predicate DepsStrand(o: DepsRun) {
    o.verify && o.mk && (o.writeRepos.Panics? || (o.writeRepos.Good? && o.client.Panics?))
  }

  predicate ChartStrands(o: ChartRun) {
    o.LocalPath? && o.load.Good? && o.accessor.Good? && o.check.Fails? && o.update && o.isDir && DepsStrand(o.deps)
  }

  predicate ConfigStrands(o: ConfigRun) {
    !o.exclusive && o.content && o.create && o.write && o.init.Panics?
  }

  datatype Call =
    | Show(show: ShowRun)
    | Dependencies(deps: DepsRun)
    | ResolveChart(chart: ChartRun)
    | Pull(pull: PullRun)
    | NewConf(conf: ConfigRun)
    | CloseConf(i: nat)

  predicate Strands(c: Call) {
    match c
    case Show(o) => ShowStrands(o)
    case Dependencies(o) => DepsStrand(o)
    case ResolveChart(o) => ChartStrands(o)
    case NewConf(o) => ConfigStrands(o)
    case _ => false
  }

  /** The temporary files that open Configs own. */
  function Owned(configs: seq<Option<nat>>): set<nat> {
    set c | c in configs && c.Some? :: c.value
  }

  /** No two Configs own the same file. */
  ghost predicate Distinct(configs: seq<Option<nat>>) {
    forall i: nat, j: nat | i < j < |configs| && configs[i].Some? :: configs[i] != configs[j]
  }

  lemma OwnedSnoc(configs: seq<Option<nat>>, c: Option<nat>)
    ensures Owned(configs + [c]) == Owned(configs) + (if c.Some? then {c.value} else {})
  {
    forall x | x in Owned(configs) + (if c.Some? then {c.value} else {})
      ensures x in Owned(configs + [c])
    {
      assert x in Owned(configs) ==> Some(x) in configs + [c];
      assert c == Some(x) ==> (configs + [c])[|configs|] == Some(x);
    }
  }

  lemma OwnedClose(configs: seq<Option<nat>>, i: nat)
    requires i < |configs| && configs[i].Some? && Distinct(configs)
    ensures Owned(configs[i := None]) == Owned(configs) - {configs[i].value}
  {
    var after := configs[i := None];
    forall x | x in Owned(configs) - {configs[i].value}
      ensures x in Owned(after)
    {
      var j :| 0 <= j < |configs| && configs[j] == Some(x);
      assert after[j] == Some(x);
    }
    forall x | x in Owned(after)
      ensures x in Owned(configs) - {configs[i].value}
    {
      var j :| 0 <= j < |after| && after[j] == Some(x);
      assert configs[j] == Some(x);
    }
  }

  lemma MoreUnowned(before: set<nat>, after: set<nat>, owned: set<nat>)
    requires owned <= before < after
    ensures before - owned < after - owned
  {
    var x :| x in after && x !in before;
    assert x in after - owned;
  }

  /** The temporary directory, and the Configs created so far with the file each still owns. */
  class Host {
    var names: set<nat>
    var next: nat
    var configs: seq<Option<nat>>

    /** `next` stands for the random suffix: a name not taken so far. */
    ghost predicate Valid()
      reads this
    {
      && (forall n | n in names :: n < next)
      && Distinct(configs)
      && Owned(configs) <= names
    }

    constructor (present: set<nat>, next: nat)
      requires forall n | n in present :: n < next
      ensures Valid() && names == present && configs == []
    {
      names := present;
      this.next := next;
      configs := [];
    }

    method MkTemp() returns (dir: nat)
      requires Valid()
      modifies this`names, this`next
      ensures Valid() && dir !in old(names) && names == old(names) + {dir}
    {
      dir := next;
      next := next + 1;
      names := names + {dir};
    }

    method RemoveBestEffort(dir: nat)
      requires Valid() && dir !in Owned(configs)
      modifies this`names
      ensures Valid() && names == old(names) - {dir}
    {
      names := names - {dir};
    }

    /** Innermost: the download cache. The removal is deferred, so it runs on every way out. */
    method PullChart(o: PullRun) returns (r: Out)
      requires Valid()
      modifies this`names, this`next
      ensures Valid() && names == old(names)
      ensures r == PullResult(o)
      ensures r.Good? <==> PullGood(o)
      ensures r.Panics? <==> PullPanics(o)
    {
      if !o.client.Good? {
        return o.client;
      }
      if !o.mk {
        return Fails;
      }
      var scratch := MkTemp();
      r := o.run;
      RemoveBestEffort(scratch);
    }

    /** Middle: the download target, also removed by a deferred call. */
    method PullChartRef(o: RefRun) returns (r: Out)
      requires Valid()
      modifies this`names, this`next
      ensures Valid() && names == old(names)
      ensures r == RefResult(o)
      ensures r.Good? <==> RefGood(o)
      ensures r.Panics? <==> RefPanics(o)
    {
      if !o.remote || !o.mk {
        return Fails;
      }
      var dir := MkTemp();
      r := PullChart(o.pull);
      if r.Good? {
        r := if o.archive then o.load else Fails;
      }
      RemoveBestEffort(dir);
    }

    /** Outermost: the directory outlives the call, and the caller is handed its removal. */
    method LocalChartPath(o: ShowRun) returns (r: Out, cleanup: Option<nat>)
      requires Valid()
      modifies this`names, this`next
      ensures Valid() && r == PathResult(o)
      ensures r.Good? ==> names == old(names) + (if cleanup.Some? then {cleanup.value} else {})
      ensures r.Good? && cleanup.Some? ==> cleanup.value !in old(names)
      ensures r.Fails? ==> names == old(names)
      ensures o.format && o.client.Good? && r.Panics? ==> ShowStrands(o) && old(names) < names
      ensures o.format && o.client.Good? && !r.Panics? ==> !ShowStrands(o)
    {
      cleanup := None;
      if o.local {
        return Good, None;
      }
      if !o.mk {
        return Fails, None;
      }
      var dir := MkTemp();
      r := PullChartRef(o.ref);
      if r.Panics? {
        return;
      }
      if r.Good? {
        r := o.save;
        if r.Panics? {
          return;
        }
      }
      if r.Fails? {
        RemoveBestEffort(dir);
        return;
      }
      cleanup := Some(dir);
    }

    /** All three directories are gone again, unless a panic strikes before ShowChart defers the removal. */
    method ShowChart(o: ShowRun) returns (r: Out)
      requires Valid()
      modifies this`names, this`next
      ensures Valid() && old(names) <= names
      ensures names == old(names) <==> !ShowStrands(o)
      ensures ShowStrands(o) ==> r.Panics?
      ensures r == ShowResult(o)
    {
      if !o.format {
        return Fails;
      }
      if !o.client.Good? {
        return o.client;
      }
      var cleanup;
      r, cleanup := LocalChartPath(o);
      if !r.Good? {
        return;
      }
      r := o.render;
      if cleanup.Some? {
        RemoveBestEffort(cleanup.value);
      }
    }

    method DependencyManager(o: DepsRun) returns (r: Out, cacheDir: nat)
      requires Valid()
      modifies this`names, this`next
      ensures Valid() && r == ManagerResult(o)
      ensures r.Good? ==> cacheDir !in old(names) && names == old(names) + {cacheDir}
      ensures r.Fails? ==> names == old(names)
      ensures r.Panics? <==> DepsStrand(o)
      ensures r.Panics? ==> old(names) < names
    {
      cacheDir := 0;
      if !o.verify || !o.mk {
        return Fails, 0;
      }
      cacheDir := MkTemp();
      r := o.writeRepos;
      if r.Good? {
        r := o.client;
      }
      if r.Fails? {
        RemoveBestEffort(cacheDir);
      }
    }

    /** DependencyUpdate and DependencyBuild, which differ only in what they ask the manager for. */
    method ResolveDependencies(o: DepsRun) returns (r: Out)
      requires Valid()
      modifies this`names, this`next
      ensures Valid() && old(names) <= names
      ensures names == old(names) <==> !DepsStrand(o)
      ensures DepsStrand(o) ==> r.Panics?
      ensures r == Then(ManagerResult(o), o.resolve)
    {
      var cacheDir;
      r, cacheDir := DependencyManager(o);
      if r.Good? {
        r := o.resolve;
        RemoveBestEffort(cacheDir);
      }
    }

    /** chartForInstall: resolution, then the dependency pre-flight. */
    method ChartForInstall(o: ChartRun) returns (r: Out)
      requires Valid()
      modifies this`names, this`next
      ensures Valid() && old(names) <= names
      ensures names == old(names) <==> !ChartStrands(o)
      ensures ChartStrands(o) ==> r.Panics?
      ensures r == ChartResult(o)
    {
      match o {
        case Handle(ok, check) =>
          r := if ok then check else Fails;
        case LocalPath(load, isDir, accessor, check, update, deps, reload) =>
          if !load.Good? {
            return load;
          }
          if !accessor.Good? {
            return accessor;
          }
          r := check;
          if check.Fails? && update && isDir {
            r := ResolveDependencies(deps);
            if r.Good? {
              r := reload;
            }
          }
        case Remote(ref, check) =>
          r := PullChartRef(ref);
          if r.Good? {
            r := check;
          }
      }
    }

    /** NewConfig: with inline content the Config it returns owns a file; on failure no file is left. */
    method NewConfig(o: ConfigRun) returns (r: Out)
      requires Valid()
      modifies this
      ensures Valid() && old(names) <= names
      ensures r.Good? ==> |configs| == |old(configs)| + 1 && configs[..|old(configs)|] == old(configs)
      ensures r.Good? ==> (configs[|old(configs)|].Some? <==> o.content)
      ensures !r.Good? ==> configs == old(configs)
      ensures r == ConfigResult(o)
      ensures names - Owned(configs) == old(names - Owned(configs)) <==> !ConfigStrands(o)
      ensures r.Good? ==> names - old(names) == Owned(configs) - old(Owned(configs))
    {
      if o.exclusive {
        return Fails;
      }
      var temp: Option<nat> := None;
      if o.content {
        if !o.create {
          return Fails;
        }
        var path := MkTemp();
        if !o.write {
          RemoveBestEffort(path);
          assert names == old(names);
          return Fails;
        }
        temp := Some(path);
      }
      r := o.init;
      if r.Fails? && temp.Some? {
        RemoveBestEffort(temp.value);
        assert names == old(names);
      }
      if r.Panics? && temp.Some? {
        MoreUnowned(old(names), names, Owned(configs));
      }
      if r.Good? {
        OwnedSnoc(configs, temp);
        configs := configs + [temp];
      }
    }

    /** Config.Close: idempotent, and it removes the file of this Config only. */
    method Close(i: nat)
      requires Valid() && i < |configs|
      modifies this`names, this`configs
      ensures Valid()
      ensures configs == old(configs)[i := None]
      ensures names == old(names) - (if old(configs)[i].Some? then {old(configs)[i].value} else {})
      ensures names - Owned(configs) == old(names - Owned(configs))
    {
      if configs[i].Some? {
        OwnedClose(configs, i);
        var path := configs[i].value;
        names := names - {path};
        configs := configs[i := None];
      }
    }

    method Do(c: Call)
      requires Valid()
      modifies this
      ensures Valid()
      ensures !Strands(c) ==> names - Owned(configs) == old(names - Owned(configs))
      ensures Strands(c) ==> old(names - Owned(configs)) <= names - Owned(configs)
      ensures Strands(c) ==> names - Owned(configs) != old(names - Owned(configs))
    {
      ghost var before := names;
      match c {
        case Show(o) => var r := ShowChart(o);
        case Dependencies(o) => var r := ResolveDependencies(o);
        case ResolveChart(o) => var r := ChartForInstall(o);
        case Pull(o) => var r := PullChart(o);
        case NewConf(o) => var r := NewConfig(o);
        case CloseConf(i) =>
          if i < |configs| {
            Close(i);
          }
      }
      if Strands(c) && !c.NewConf? {
        MoreUnowned(before, names, Owned(configs));
      }
    }

    /**
     Any sequence of calls, failing wherever they may: the temporary names are those that were there plus
     the kubeconfigs of unclosed Configs, exactly when no call was cut off by a stranding panic.
     */
    method DoAll(calls: seq<Call>)
      requires Valid() && configs == []
      modifies this
      ensures Valid()
      ensures names == old(names) + Owned(configs) <==> forall i: nat | i < |calls| :: !Strands(calls[i])
      ensures old(names) <= names
    {
      var i := 0;
      while i < |calls|
        invariant 0 <= i <= |calls| && Valid()
        invariant old(names) <= names - Owned(configs)
        invariant names - Owned(configs) == old(names) <==> forall k: nat | k < i :: !Strands(calls[k])
      {
        Do(calls[i]);
        i := i + 1;
      }
      assert names == (names - Owned(configs)) + Owned(configs);
    }
  }
}
