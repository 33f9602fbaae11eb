/**
 Chart dependencies: the status each declared dependency is listed with, and the private repository
 configuration written before dependencies are resolved.
 */
module Dependencies {
  import opened Prelude

  // ---- What the libraries say ---------------------------------------------

  /** Semantic versions and constraints, as given by the semver library. */
  datatype Semver = Semver(
    strict: string -> bool,
    version: string -> bool,
    constraint: string -> bool,
    satisfies: (string, string) -> bool)

  /** What loading a chart gives: its name and version. */
  datatype Loaded = Loaded(name: string, version: string)

  /** A glob match under charts/: its base name, whether it can be stat'ed, and its chart if it loads. */
  datatype Archive = Archive(base: string, present: bool, chart: Option<Loaded>)

  datatype Dependency = Dependency(name: string, version: string, repository: string)

  /** The listed words; `Unsettled` is the empty string. */
  datatype Status =
    | Unsettled
    | BadPattern
    | TooManyMatches
    | Corrupt
    | Misnamed
    | InvalidVersion
    | WrongVersion
    | Ok
    | Missing
    | Unpacked

  // ---- Status of one archive ----------------------------------------------

  function VersionStatus(sv: Semver, have: string, want: string): (s: Status)
    ensures s == Unsettled <==> Satisfied(sv, have, want)
    ensures s == InvalidVersion <==> have != want && !Comparable(sv, have, want)
    ensures s != Unsettled && s != InvalidVersion ==> s == WrongVersion
  {
    if have == want then Unsettled
    else if !sv.constraint(want) then InvalidVersion
    else if !sv.version(have) then InvalidVersion
    else if !sv.satisfies(want, have) then WrongVersion
    else Unsettled
  }

  predicate Satisfied(sv: Semver, have: string, want: string) {
    have == want || (Comparable(sv, have, want) && sv.satisfies(want, have))
  }

  predicate Comparable(sv: Semver, have: string, want: string) {
    sv.constraint(want) && sv.version(have)
  }

  function ArchiveStatus(sv: Semver, arc: Archive, dep: Dependency): Status {
    if !arc.present then Unsettled
    else if arc.chart.None? then Corrupt
    else if arc.chart.value.name != dep.name then Misnamed
    else
      var s := VersionStatus(sv, arc.chart.value.version, dep.version);
      if s != Unsettled then s else Ok
  }

  // ---- Archives named <dep>-<strict semver>.tgz ---------------------------

  function TrimSuffix(s: string, suffix: string): string {
    if |suffix| <= |s| && s[|s| - |suffix|..] == suffix then s[..|s| - |suffix|] else s
  }

  function TrimPrefix(s: string, prefix: string): string {
    if prefix <= s then s[|prefix|..] else s
  }

  predicate IsVersioned(sv: Semver, arc: Archive, name: string) {
    sv.strict(TrimPrefix(TrimSuffix(arc.base, ".tgz"), name + "-"))
  }

  /** What the glob matches is versioned iff the part between "<name>-" and ".tgz" is a strict version. */
  lemma GlobMatchIsVersionedIff(sv: Semver, arc: Archive, name: string, v: string)
    requires arc.base == name + "-" + v + ".tgz"
    ensures IsVersioned(sv, arc, name) <==> sv.strict(v)
  {
    var stem := name + "-" + v;
    assert arc.base[..|arc.base| - 4] == stem && arc.base[|arc.base| - 4..] == ".tgz";
    assert stem[|name + "-"|..] == v;
  }

  /** The versioned archives, in order. */
  function Versioned(sv: Semver, archives: seq<Archive>, name: string): seq<Archive> {
    if archives == [] then []
    else
      var n := |archives| - 1;
      Versioned(sv, archives[..n], name) + if IsVersioned(sv, archives[n], name) then [archives[n]] else []
  }

  lemma {:induction false} VersionedConcat(sv: Semver, a: seq<Archive>, b: seq<Archive>, name: string)
    ensures Versioned(sv, a + b, name) == Versioned(sv, a, name) + Versioned(sv, b, name)
  {
    if b == [] {
      assert a + b == a;
    } else {
      var n := |b| - 1;
      assert (a + b)[..|a + b| - 1] == a + b[..n];
      VersionedConcat(sv, a, b[..n], name);
    }
  }

  method VersionedArchives(sv: Semver, archives: seq<Archive>, name: string) returns (found: seq<Archive>)
    ensures found == Versioned(sv, archives, name)
    ensures forall arc :: arc in found <==> arc in archives && IsVersioned(sv, arc, name)
    ensures |found| <= |archives|
  {
    found := [];
    for i := 0 to |archives|
      invariant found == Versioned(sv, archives[..i], name)
      invariant forall arc :: arc in found <==> arc in archives[..i] && IsVersioned(sv, arc, name)
      invariant |found| <= i
    {
      assert archives[..i + 1][..i] == archives[..i];
      if IsVersioned(sv, archives[i], name) {
        found := found + [archives[i]];
      }
    }
    assert archives[..|archives|] == archives;
  }

  // ---- Status of a dependency ---------------------------------------------

  /** The archives a status is decided on: all of them, or with several matches the versioned ones. */
  function Survivors(sv: Semver, archives: seq<Archive>, name: string): seq<Archive> {
    if |archives| > 1 then Versioned(sv, archives, name) else archives
  }

  /** `archives` is None when the glob pattern is malformed. */
  method PackagedStatus(sv: Semver, archives: Option<seq<Archive>>, dep: Dependency) returns (s: Status)
    ensures s == BadPattern <==> archives.None?
    ensures archives.Some? ==>
              var left := Survivors(sv, archives.value, dep.name);
              && (s == TooManyMatches <==> |left| > 1)
              && (|left| == 1 ==> s == ArchiveStatus(sv, left[0], dep))
              && (|left| == 0 ==> s == Unsettled)
    ensures archives.Some? ==> s == Packaged(sv, archives.value, dep)
  {
    if archives.None? {
      return BadPattern;
    }
    var left := archives.value;
    if |left| > 1 {
      left := VersionedArchives(sv, left, dep.name);
      if |left| > 1 {
        return TooManyMatches;
      }
    }
    if |left| == 1 {
      return ArchiveStatus(sv, left[0], dep);
    }
    return Unsettled;
  }

  /** The last of the loaded subcharts with the dependency's name. */
  ghost predicate IsLastNamed(subs: seq<Loaded>, name: string, i: nat) {
    i < |subs| && subs[i].name == name && forall j :: i < j < |subs| ==> subs[j].name != name
  }

  ghost predicate NoneNamed(subs: seq<Loaded>, name: string) {
    forall i :: 0 <= i < |subs| ==> subs[i].name != name
  }

  method UnpackedStatus(sv: Semver, subs: seq<Loaded>, dep: Dependency) returns (s: Status)
    ensures s == Missing <==> NoneNamed(subs, dep.name)
    ensures forall i: nat | IsLastNamed(subs, dep.name, i) ::
              s == if Satisfied(sv, subs[i].version, dep.version) then Unpacked
                   else VersionStatus(sv, subs[i].version, dep.version)
    ensures s in {Missing, Unpacked, InvalidVersion, WrongVersion}
    ensures s == SubchartStatus(sv, subs, dep)
  {
    var sub: Option<Loaded> := None;
    ghost var at := 0;
    for i := 0 to |subs|
      invariant sub.None? <==> NoneNamed(subs[..i], dep.name)
      invariant sub.Some? ==> IsLastNamed(subs[..i], dep.name, at) && sub.value == subs[at]
    {
      if subs[i].name == dep.name {
        sub := Some(subs[i]);
        at := i;
        assert subs[..i + 1][i].name == dep.name;
      } else {
        assert forall j :: 0 <= j < i ==> subs[..i + 1][j] == subs[..i][j];
      }
    }
    assert subs[..|subs|] == subs;
    if sub.None? {
      NoneNamedIsMissing(sv, subs, dep);
      return Missing;
    }
    assert IsLastNamed(subs, dep.name, at);
    LastNamedDecides(sv, subs, dep, at);
    s := VersionStatus(sv, sub.value.version, dep.version);
    if s == Unsettled {
      s := Unpacked;
    }
  }

  /** What the loaded subcharts alone say. */
  function SubchartStatus(sv: Semver, subs: seq<Loaded>, dep: Dependency): Status {
    if subs == [] then Missing
    else
      var last := subs[|subs| - 1];
      if last.name != dep.name then SubchartStatus(sv, subs[..|subs| - 1], dep)
      else if Satisfied(sv, last.version, dep.version) then Unpacked
      else VersionStatus(sv, last.version, dep.version)
  }

  lemma {:induction false} LastNamedDecides(sv: Semver, subs: seq<Loaded>, dep: Dependency, i: nat)
    requires IsLastNamed(subs, dep.name, i)
    ensures SubchartStatus(sv, subs, dep) ==
            if Satisfied(sv, subs[i].version, dep.version) then Unpacked
            else VersionStatus(sv, subs[i].version, dep.version)
  {
    if i < |subs| - 1 {
      LastNamedDecides(sv, subs[..|subs| - 1], dep, i);
    }
  }

  lemma {:induction false} NoneNamedIsMissing(sv: Semver, subs: seq<Loaded>, dep: Dependency)
    requires NoneNamed(subs, dep.name)
    ensures SubchartStatus(sv, subs, dep) == Missing
  {
    if subs != [] {
      NoneNamedIsMissing(sv, subs[..|subs| - 1], dep);
    }
  }

  /** A listed dependency always has a status; an unsettled archive falls through to the subcharts. */
  method DependencyStatus(sv: Semver, archives: Option<seq<Archive>>, subs: seq<Loaded>, dep: Dependency)
    returns (s: Status)
    ensures s != Unsettled
    ensures archives.None? ==> s == BadPattern
    ensures s == TooManyMatches <==> archives.Some? && |Versioned(sv, archives.value, dep.name)| >= 2
    ensures s == Corrupt <==> archives.Some? && exists arc :: Decides(sv, archives.value, dep, arc) && arc.chart.None?
    ensures s == Misnamed <==>
            archives.Some? && exists arc :: Decides(sv, archives.value, dep, arc) && arc.chart.Some? &&
                                            arc.chart.value.name != dep.name
    ensures s == Ok <==>
            archives.Some? && exists arc :: Decides(sv, archives.value, dep, arc) && Named(arc, dep) &&
                                            Satisfied(sv, arc.chart.value.version, dep.version)
    ensures forall arc | archives.Some? && Decides(sv, archives.value, dep, arc) && Named(arc, dep) ::
              (s == InvalidVersion <==> arc.chart.value.version != dep.version &&
                                        !Comparable(sv, arc.chart.value.version, dep.version)) &&
              s in {Ok, InvalidVersion, WrongVersion}
    ensures archives.Some? && FallsThrough(Survivors(sv, archives.value, dep.name)) ==>
              && (s == Missing <==> NoneNamed(subs, dep.name))
              && (forall i: nat | IsLastNamed(subs, dep.name, i) ::
                    s == if Satisfied(sv, subs[i].version, dep.version) then Unpacked
                         else VersionStatus(sv, subs[i].version, dep.version))
    ensures s == Listed(sv, archives, subs, dep)
  {
    if archives.Some? {
      VersionedNoLonger(sv, archives.value, dep.name);
      var left := Survivors(sv, archives.value, dep.name);
      assert |left| == 1 && left[0].present ==> Decides(sv, archives.value, dep, left[0]);
    }
    s := PackagedStatus(sv, archives, dep);
    if s == Unsettled {
      s := UnpackedStatus(sv, subs, dep);
    }
  }

  /** `arc` is the sole surviving archive, and is there to be loaded. */
  predicate Decides(sv: Semver, archives: seq<Archive>, dep: Dependency, arc: Archive) {
    Survivors(sv, archives, dep.name) == [arc] && arc.present
  }

  /** It loads as a chart of the dependency's name. */
  predicate Named(arc: Archive, dep: Dependency) {
    arc.chart.Some? && arc.chart.value.name == dep.name
  }

  /** No archive survives, or the one that does cannot be stat'ed. */
  predicate FallsThrough(left: seq<Archive>) {
    left == [] || (|left| == 1 && !left[0].present)
  }

  lemma {:induction false} VersionedNoLonger(sv: Semver, archives: seq<Archive>, name: string)
    ensures |Versioned(sv, archives, name)| <= |archives|
  {
    if archives != [] {
      VersionedNoLonger(sv, archives[..|archives| - 1], name);
    }
  }

  /** What the packaged archives alone say, as a function of the survivors. */
  function Packaged(sv: Semver, archives: seq<Archive>, dep: Dependency): Status {
    var left := Survivors(sv, archives, dep.name);
    if |left| > 1 then TooManyMatches
    else if |left| == 1 then ArchiveStatus(sv, left[0], dep)
    else Unsettled
  }

  /** The listed status as a function: the packaged archives settle it, or else the subcharts do. */
  function Listed(sv: Semver, archives: Option<seq<Archive>>, subs: seq<Loaded>, dep: Dependency): Status {
    var s := if archives.None? then BadPattern else Packaged(sv, archives.value, dep);
    if s == Unsettled then SubchartStatus(sv, subs, dep) else s
  }

  /**
   Junk matches, whose names are not <dep>-<strict semver>.tgz, can be inserted anywhere among two or
   more matches without changing the listed status.
   */
  lemma JunkIsIgnored(sv: Semver, a: seq<Archive>, junk: seq<Archive>, b: seq<Archive>, subs: seq<Loaded>,
                      dep: Dependency)
    requires |a + b| >= 2
    requires forall arc | arc in junk :: !IsVersioned(sv, arc, dep.name)
    ensures Listed(sv, Some(a + junk + b), subs, dep) == Listed(sv, Some(a + b), subs, dep)
  {
    VersionedIgnoresJunk(sv, a, junk, b, dep.name);
    VersionedDecide(sv, a + junk + b, a + b, subs, dep);
  }

  lemma VersionedIgnoresJunk(sv: Semver, a: seq<Archive>, junk: seq<Archive>, b: seq<Archive>, name: string)
    requires forall arc | arc in junk :: !IsVersioned(sv, arc, name)
    ensures Versioned(sv, a + junk + b, name) == Versioned(sv, a + b, name)
  {
    NoneVersioned(sv, junk, name);
    JunkAtEnd(sv, a, junk, name);
    VersionedConcat(sv, a + junk, b, name);
    VersionedConcat(sv, a, b, name);
  }

  lemma JunkAtEnd(sv: Semver, a: seq<Archive>, junk: seq<Archive>, name: string)
    requires Versioned(sv, junk, name) == []
    ensures Versioned(sv, a + junk, name) == Versioned(sv, a, name)
  {
    VersionedConcat(sv, a, junk, name);
  }

  lemma {:induction false} NoneVersioned(sv: Semver, junk: seq<Archive>, name: string)
    requires forall arc | arc in junk :: !IsVersioned(sv, arc, name)
    ensures Versioned(sv, junk, name) == []
  {
    if junk != [] {
      var n := |junk| - 1;
      assert forall arc | arc in junk[..n] :: arc in junk;
      NoneVersioned(sv, junk[..n], name);
      assert junk[n] in junk;
    }
  }

  /**
   Of two or more matches only the versioned ones count, in whatever order the glob lists them: two such
   lists with the same versioned archives are listed alike.
   */
  lemma VersionedDecide(sv: Semver, a: seq<Archive>, b: seq<Archive>, subs: seq<Loaded>, dep: Dependency)
    requires |a| >= 2 && |b| >= 2
    requires multiset(Versioned(sv, a, dep.name)) == multiset(Versioned(sv, b, dep.name))
    ensures Listed(sv, Some(a), subs, dep) == Listed(sv, Some(b), subs, dep)
  {
    SmallMultisets(Versioned(sv, a, dep.name), Versioned(sv, b, dep.name));
  }

  /** Up to one element, a sequence is told by its multiset. */
  lemma SmallMultisets(u: seq<Archive>, v: seq<Archive>)
    requires multiset(u) == multiset(v)
    ensures |u| == |v|
    ensures |u| == 1 ==> u[0] == v[0]
  {
    assert |u| == |multiset(u)| == |multiset(v)| == |v|;
    if |u| == 1 {
      assert u[0] in multiset(v);
    }
  }

  /** A second match can change the status of a lone one exactly when the lone one is junk that said something. */
  lemma LoneMatchAgainstJunkIff(sv: Semver, arc: Archive, junk: Archive, dep: Dependency)
    requires !IsVersioned(sv, junk, dep.name)
    ensures Packaged(sv, [arc, junk], dep) == Packaged(sv, [arc], dep) <==>
            IsVersioned(sv, arc, dep.name) || !arc.present
  {
    assert [arc, junk] == [arc] + [junk];
    assert [arc][..0] == [] && [junk][..0] == [];
    VersionedConcat(sv, [arc], [junk], dep.name);
  }

  // ---- Repository configuration -------------------------------------------

  /** A repositories.yaml entry; every entry gets the same credentials, which are left out. */
  datatype RepoEntry = RepoEntry(name: string, url: string)

  predicate IsHTTP(url: string) {
    "http://" <= url || "https://" <= url
  }

  lemma IsHTTPIff(url: string)
    ensures IsHTTP(url) <==> exists rest :: url == "http://" + rest || url == "https://" + rest
  {
    if "http://" <= url {
      assert url == "http://" + url[7..];
    } else if "https://" <= url {
      assert url == "https://" + url[8..];
    }
  }

  function Digit(d: nat): char
    requires d < 10
  {
    "0123456789"[d]
  }

  /** %d of a natural number. */
  function Decimal(n: nat): (s: string)
    ensures s != ""
  {
    if n < 10 then [Digit(n)] else Decimal(n / 10) + [Digit(n % 10)]
  }

  lemma {:induction false} DecimalInjective(m: nat, n: nat)
    requires Decimal(m) == Decimal(n)
    ensures m == n
  {
    var s, t := Decimal(m), Decimal(n);
    assert s[|s| - 1] == Digit(m % 10) && t[|t| - 1] == Digit(n % 10);
    if m >= 10 && n >= 10 {
      assert s[..|s| - 1] == Decimal(m / 10) && t[..|t| - 1] == Decimal(n / 10);
      DecimalInjective(m / 10, n / 10);
    }
  }

  const NAME_PREFIX := "helm-c-dep-"

  function EntryName(i: nat): string {
    NAME_PREFIX + Decimal(i)
  }

  lemma EntryNameInjective(i: nat, j: nat)
    requires EntryName(i) == EntryName(j)
    ensures i == j
  {
    assert EntryName(i)[|NAME_PREFIX|..] == Decimal(i);
    assert EntryName(j)[|NAME_PREFIX|..] == Decimal(j);
    DecimalInjective(i, j);
  }

  lemma EntryNamesDiffer(i: nat, j: nat)
    requires i != j
    ensures EntryName(i) != EntryName(j)
  {
    if EntryName(i) == EntryName(j) {
      EntryNameInjective(i, j);
    }
  }

  /** Position `i` is where its HTTP(S) repository first appears. */
  predicate FirstUse(deps: seq<Dependency>, i: nat) {
    && i < |deps|
    && IsHTTP(deps[i].repository)
    && forall j :: 0 <= j < i ==> deps[j].repository != deps[i].repository
  }

  /** The positions of the first uses among the first `n` dependencies, in order. */
  ghost predicate AreFirstUses(deps: seq<Dependency>, n: nat, uses: seq<nat>) {
    && (forall i: nat :: i in uses <==> i < n && FirstUse(deps, i))
    && (forall k, l :: 0 <= k < l < |uses| ==> uses[k] < uses[l])
  }

  /** Every HTTP(S) repository has a first use. */
  lemma {:induction false} HasFirstUse(deps: seq<Dependency>, i: nat) returns (f: nat)
    requires i < |deps| && IsHTTP(deps[i].repository)
    ensures f <= i && FirstUse(deps, f) && deps[f].repository == deps[i].repository
  {
    f := i;
    if j :| 0 <= j < i && deps[j].repository == deps[i].repository {
      f := HasFirstUse(deps, j);
    }
  }

  /** The entry written for each of the positions `uses`. */
  ghost predicate EntriesFor(deps: seq<Dependency>, uses: seq<nat>, entries: seq<RepoEntry>) {
    && |entries| == |uses|
    && forall k :: 0 <= k < |uses| ==>
         uses[k] < |deps| && entries[k] == RepoEntry(EntryName(uses[k]), deps[uses[k]].repository)
  }

  lemma EntriesCover(deps: seq<Dependency>, uses: seq<nat>, entries: seq<RepoEntry>, i: nat)
    requires AreFirstUses(deps, |deps|, uses) && EntriesFor(deps, uses, entries)
    requires i < |deps| && IsHTTP(deps[i].repository)
    ensures exists k :: 0 <= k < |entries| && entries[k].url == deps[i].repository
  {
    var f := HasFirstUse(deps, i);
    assert f in uses;
    var k :| 0 <= k < |uses| && uses[k] == f;
    assert entries[k].url == deps[i].repository;
  }

  lemma EntriesDiffer(deps: seq<Dependency>, uses: seq<nat>, entries: seq<RepoEntry>, k: nat, l: nat)
    requires AreFirstUses(deps, |deps|, uses) && EntriesFor(deps, uses, entries)
    requires k < l < |entries|
    ensures entries[k].url != entries[l].url && entries[k].name != entries[l].name
  {
    assert uses[l] in uses;
    EntryNamesDiffer(uses[k], uses[l]);
  }

  /** One entry per distinct HTTP(S) repository, in the order of first use; nothing else. */
  method WriteRepoConfig(deps: seq<Dependency>) returns (entries: seq<RepoEntry>, ghost uses: seq<nat>)
    ensures AreFirstUses(deps, |deps|, uses) && EntriesFor(deps, uses, entries)
    ensures forall k :: 0 <= k < |entries| ==> IsHTTP(entries[k].url)
    ensures forall i :: 0 <= i < |deps| && IsHTTP(deps[i].repository) ==>
              exists k :: 0 <= k < |entries| && entries[k].url == deps[i].repository
    ensures forall k, l :: 0 <= k < l < |entries| ==>
              entries[k].url != entries[l].url && entries[k].name != entries[l].name
  {
    entries, uses := [], [];
    var seen: set<string> := {};
    for i := 0 to |deps|
      invariant AreFirstUses(deps, i, uses) && EntriesFor(deps, uses, entries)
      invariant forall k :: 0 <= k < |entries| ==> IsHTTP(entries[k].url)
      invariant forall u :: u in seen <==> IsHTTP(u) && exists j :: 0 <= j < i && deps[j].repository == u
    {
      var url := deps[i].repository;
      if IsHTTP(url) && url !in seen {
        assert FirstUse(deps, i);
        assert forall k :: 0 <= k < |uses| ==> uses[k] in uses;
        seen := seen + {url};
        entries, uses := entries + [RepoEntry(EntryName(i), url)], uses + [i];
      }
    }
    forall i | 0 <= i < |deps| && IsHTTP(deps[i].repository)
      ensures exists k :: 0 <= k < |entries| && entries[k].url == deps[i].repository
    {
      EntriesCover(deps, uses, entries, i);
    }
    forall k, l | 0 <= k < l < |entries|
      ensures entries[k].url != entries[l].url && entries[k].name != entries[l].name
    {
      EntriesDiffer(deps, uses, entries, k, l);
    }
  }
}
