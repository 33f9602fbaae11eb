/**
 Where the chart of an install or upgrade comes from, with which registry client it is pulled, and which
 directory its dependencies may be updated in.
 */
module ChartSource {
  import opened Prelude

  datatype Stat = Absent | File | Directory

  datatype Refusal = BothGiven | NeitherGiven | NotRemote

  /** NewRegistryClient builds the anonymous client; `Unneeded` is nil. */
  datatype Client = Given(client: nat) | Anonymous | Unneeded

  /** `dir` is the local directory a chart was loaded from, or empty. */
  datatype Source =
    | FromHandle(chart: nat)
    | FromPath(path: string, dir: string)
    | Pulled(ref: string, client: Client)
    | Refused(why: Refusal)

  predicate IsOCI(ref: string) {
    "oci://" <= ref
  }

  function DefaultClientFor(existing: Option<nat>, needed: bool): Client {
    if existing.Some? then Given(existing.value)
    else if !needed then Unneeded
    else Anonymous
  }

  /** `registryClient` is that of the shared Configuration, wherever the action itself will run. */
  function PullChartRef(registryClient: Option<nat>, ref: string, repoURL: string): Source {
    if repoURL == "" && !IsOCI(ref) then Refused(NotRemote)
    else Pulled(ref, DefaultClientFor(registryClient, IsOCI(ref)))
  }

  function ChartForAction(registryClient: Option<nat>, handle: Option<nat>, ref: string, stat: string -> Stat,
                          repoURL: string): Source
  {
    if handle.Some? && ref != "" then Refused(BothGiven)
    else if handle.Some? then FromHandle(handle.value)
    else if ref == "" then Refused(NeitherGiven)
    else if !stat(ref).Absent? then FromPath(ref, if stat(ref).Directory? then ref else "")
    else PullChartRef(registryClient, ref, repoURL)
  }

  function DirOf(s: Source): string {
    if s.FromPath? then s.dir else ""
  }

  /** Every combination of arguments has exactly one source, and only a local directory yields a directory. */
  lemma SourceIff(registryClient: Option<nat>, handle: Option<nat>, ref: string, stat: string -> Stat, repoURL: string)
    ensures var s := ChartForAction(registryClient, handle, ref, stat, repoURL);
            && (s.FromHandle? <==> handle.Some? && ref == "")
            && (s.FromPath? <==> handle.None? && ref != "" && stat(ref) != Absent)
            && (s.Pulled? <==> handle.None? && ref != "" && stat(ref) == Absent && (repoURL != "" || IsOCI(ref)))
            && (DirOf(s) != "" <==> handle.None? && ref != "" && stat(ref) == Directory)
            && (DirOf(s) != "" ==> DirOf(s) == ref)
            && (s.FromHandle? ==> handle == Some(s.chart))
            && (s.FromPath? ==> s.path == ref)
            && (s.Pulled? ==> s.ref == ref)
            && (s == Refused(BothGiven) <==> handle.Some? && ref != "")
            && (s == Refused(NeitherGiven) <==> handle.None? && ref == "")
            && (s == Refused(NotRemote) <==>
                  handle.None? && ref != "" && stat(ref) == Absent && repoURL == "" && !IsOCI(ref))
  {
  }

  lemma IsOCIIff(ref: string)
    ensures IsOCI(ref) <==> exists rest :: ref == "oci://" + rest
  {
    if IsOCI(ref) {
      assert ref == "oci://" + ref[6..];
    }
  }

  /** A pull uses the bound client whenever there is one, and an anonymous one only to reach an OCI registry. */
  lemma PullUsesBoundClient(registryClient: Option<nat>, handle: Option<nat>, ref: string, stat: string -> Stat,
                            repoURL: string)
    requires ChartForAction(registryClient, handle, ref, stat, repoURL).Pulled?
    ensures var c := ChartForAction(registryClient, handle, ref, stat, repoURL).client;
            && (forall r: nat :: c == Given(r) <==> registryClient == Some(r))
            && (c.Anonymous? <==> registryClient.None? && IsOCI(ref))
  {
  }

  // ---- The dependency pre-flight ------------------------------------------

  datatype Preflight = Proceed | Update(dir: string) | Missing

  /** `declared` and `present` say whether the chart declares dependencies and whether they are all there. */
  function EnsureDependencies(s: Source, declared: bool, present: bool, update: bool): Preflight {
    if !declared || present then Proceed
    else if !update || DirOf(s) == "" then Missing
    else Update(DirOf(s))
  }

  /**
   Dependencies are updated iff some are missing, the caller asked for it, and its reference names a local
   directory; the directory written to is then that one. A chart with missing dependencies never proceeds.
   */
  lemma UpdatesOnlyNamedDirectory(registryClient: Option<nat>, handle: Option<nat>, ref: string,
                                  stat: string -> Stat, repoURL: string, declared: bool, present: bool, update: bool)
    ensures var p := EnsureDependencies(ChartForAction(registryClient, handle, ref, stat, repoURL),
                                        declared, present, update);
            && (p.Update? <==> declared && !present && update && handle.None? && ref != "" && stat(ref) == Directory)
            && (p.Update? ==> p.dir == ref)
            && (p.Proceed? <==> declared ==> present)
  {
    SourceIff(registryClient, handle, ref, stat, repoURL);
  }
}
