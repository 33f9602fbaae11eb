/**
 Release history: the stored revisions sorted in place by a library sort that may arrange ties as it
 likes, then cut down to the newest `max`.
 */
module History {
  /** A revision summary; `body` is everything but the revision number. */
  datatype Summary = Summary(revision: int, body: nat)

  predicate Ascending(s: seq<Summary>) {
    forall i, j :: 0 <= i < j < |s| ==> s[i].revision <= s[j].revision
  }

  /** What sort.Slice may leave in a slice that held `s`. */
  ghost predicate IsSorting(s: seq<Summary>, t: seq<Summary>) {
    Ascending(t) && multiset(t) == multiset(s)
  }

  /** The newest `max` of an ascending history; every one if `max` is not positive. */
  function Newest(t: seq<Summary>, max: int): seq<Summary> {
    if 0 < max < |t| then t[|t| - max..] else t
  }

  /** sort.Slice on the array, `arranged` being the outcome it chose. */
  method SortSlice(a: array<Summary>, arranged: seq<Summary>)
    requires IsSorting(a[..], arranged)
    modifies a
    ensures a[..] == arranged
  {
    assert |arranged| == a.Length by {
      assert |multiset(arranged)| == |multiset(a[..])|;
    }
    var i := 0;
    while i < a.Length
      invariant 0 <= i <= a.Length == |arranged|
      invariant a[..i] == arranged[..i]
    {
      a[i] := arranged[i];
      i := i + 1;
    }
    assert a[..] == a[..i];
  }

  /** The revisions truncation leaves out. */
  function Dropped(t: seq<Summary>, max: int): seq<Summary> {
    if 0 < max < |t| then t[..|t| - max] else []
  }

  /** Truncation splits an ascending history: the kept suffix has the right size, and nothing older. */
  lemma NewestKeepsNewest(t: seq<Summary>, max: int)
    requires Ascending(t)
    ensures Dropped(t, max) + Newest(t, max) == t
    ensures Ascending(Newest(t, max))
    ensures |Newest(t, max)| == if 0 < max < |t| then max else |t|
    ensures forall x, y :: x in Dropped(t, max) && y in Newest(t, max) ==> x.revision <= y.revision
  {
    var k := |Dropped(t, max)|;
    forall x, y | x in Dropped(t, max) && y in Newest(t, max)
      ensures x.revision <= y.revision
    {
      var i :| 0 <= i < k && Dropped(t, max)[i] == x;
      var j :| 0 <= j < |t| - k && Newest(t, max)[j] == y;
      assert t[i] == x && t[k + j] == y;
    }
  }

  /** The history reported for the summaries in `a`; with what it drops, it is a sorting of all of them. */
  method HistoryRelease(a: array<Summary>, max: int, arranged: seq<Summary>) returns (r: seq<Summary>)
    requires IsSorting(a[..], arranged)
    modifies a
    ensures IsSorting(old(a[..]), Dropped(arranged, max) + r)
    ensures |r| == if 0 < max < a.Length then max else a.Length
    ensures forall x, y :: x in Dropped(arranged, max) && y in r ==> x.revision <= y.revision
    ensures r == Newest(arranged, max)
  {
    SortSlice(a, arranged);
    NewestKeepsNewest(arranged, max);
    var lo := 0;
    if max > 0 && a.Length > max {
      lo := a.Length - max;
    }
    r := a[lo..];
  }

  /** Asking for one revision more extends the answer at its old end only. */
  lemma NewestIsMonotone(t: seq<Summary>, k: int)
    requires k > 0
    ensures Newest(t, k) == Newest(Newest(t, k + 1), k)
    ensures |Newest(t, k)| <= |Newest(t, k + 1)|
    ensures Newest(t, k + 1)[|Newest(t, k + 1)| - |Newest(t, k)|..] == Newest(t, k)
  {
  }

  // ---- Does the order of storage matter? ----------------------------------

  /** Where `x` belongs in an ascending `u`. */
  function Place(u: seq<Summary>, x: Summary): (k: nat)
    ensures k <= |u|
    ensures forall i | 0 <= i < k :: u[i].revision < x.revision
    ensures k < |u| ==> x.revision <= u[k].revision
  {
    if u == [] || x.revision <= u[0].revision then 0 else 1 + Place(u[1..], x)
  }

  /** Some arrangement always exists. */
  lemma {:induction false} SortingExists(s: seq<Summary>) returns (t: seq<Summary>)
    ensures IsSorting(s, t)
  {
    if s == [] {
      t := [];
    } else {
      var u := SortingExists(s[1..]);
      var k := Place(u, s[0]);
      t := u[..k] + [s[0]] + u[k..];
      PlacedIsAscending(u, s[0], k);
      PlacedIsPermutation(s, u, k);
    }
  }

  lemma PlacedIsPermutation(s: seq<Summary>, u: seq<Summary>, k: nat)
    requires s != [] && multiset(u) == multiset(s[1..]) && k <= |u|
    ensures multiset(u[..k] + [s[0]] + u[k..]) == multiset(s)
  {
    assert u == u[..k] + u[k..];
    assert s == [s[0]] + s[1..];
  }

  lemma PlacedIsAscending(u: seq<Summary>, x: Summary, k: nat)
    requires Ascending(u) && k <= |u|
    requires forall i | 0 <= i < k :: u[i].revision < x.revision
    requires k < |u| ==> x.revision <= u[k].revision
    ensures Ascending(u[..k] + [x] + u[k..])
  {
    var t := u[..k] + [x] + u[k..];
    assert forall i | 0 <= i < |t| :: t[i] == if i < k then u[i] else if i == k then x else u[i - 1];
  }

  /** How many summaries have a revision up to `r`. */
  function UpTo(s: seq<Summary>, r: int): nat {
    if s == [] then 0 else (if s[0].revision <= r then 1 else 0) + UpTo(s[1..], r)
  }

  lemma {:induction false} UpToConcat(a: seq<Summary>, b: seq<Summary>, r: int)
    ensures UpTo(a + b, r) == UpTo(a, r) + UpTo(b, r)
  {
    if a == [] {
      assert a + b == b;
    } else {
      assert (a + b)[1..] == a[1..] + b;
      UpToConcat(a[1..], b, r);
    }
  }

  /** The count does not depend on the order. */
  lemma {:induction false} UpToIsOrderless(s: seq<Summary>, t: seq<Summary>, r: int)
    requires multiset(s) == multiset(t)
    ensures UpTo(s, r) == UpTo(t, r)
    decreases |s|
  {
    if s == [] {
      assert |t| == |multiset(t)| == |multiset(s)| == 0;
    } else {
      assert s[0] in multiset(t);
      var k :| 0 <= k < |t| && t[k] == s[0];
      RemovedIsPermutation(s, t, k);
      UpToIsOrderless(s[1..], t[..k] + t[k + 1..], r);
      UpToConcat(t[..k], t[k + 1..], r);
      UpToConcat(t[..k], [t[k]] + t[k + 1..], r);
      UpToConcat([t[k]], t[k + 1..], r);
      assert t == t[..k] + ([t[k]] + t[k + 1..]);
      assert [t[k]][1..] == [];
    }
  }

  lemma RemovedIsPermutation(s: seq<Summary>, t: seq<Summary>, k: nat)
    requires s != [] && multiset(s) == multiset(t) && k < |t| && t[k] == s[0]
    ensures multiset(s[1..]) == multiset(t[..k] + t[k + 1..])
  {
    assert s == [s[0]] + s[1..];
    assert t == t[..k] + [t[k]] + t[k + 1..];
    assert multiset(s[1..]) == multiset(s) - multiset{s[0]};
  }

  /** In an ascending sequence the summaries up to `r` are the first ones. */
  lemma {:induction false} UpToIsPrefix(t: seq<Summary>, i: nat, r: int)
    requires Ascending(t) && i < |t|
    ensures t[i].revision <= r <==> i < UpTo(t, r)
  {
    if t[0].revision > r {
      NoneUpTo(t, r);
    } else if i > 0 {
      UpToIsPrefix(t[1..], i - 1, r);
    }
  }

  lemma {:induction false} NoneUpTo(t: seq<Summary>, r: int)
    requires forall i :: 0 <= i < |t| ==> t[i].revision > r
    ensures UpTo(t, r) == 0
  {
    if t != [] {
      NoneUpTo(t[1..], r);
    }
  }

  lemma SortingsAgreeOnRevisions(s: seq<Summary>, t: seq<Summary>, u: seq<Summary>, i: nat)
    requires IsSorting(s, t) && IsSorting(s, u) && i < |s|
    ensures |t| == |s| == |u| && t[i].revision == u[i].revision
  {
    assert |multiset(t)| == |multiset(s)| == |multiset(u)|;
    UpToIsOrderless(t, u, t[i].revision);
    UpToIsOrderless(t, u, u[i].revision);
    UpToIsPrefix(t, i, t[i].revision);
    UpToIsPrefix(u, i, t[i].revision);
    UpToIsPrefix(t, i, u[i].revision);
    UpToIsPrefix(u, i, u[i].revision);
  }

  /** Different summaries of one revision are all among the oldest `cut`. */
  ghost predicate TiesWithin(s: seq<Summary>, cut: nat) {
    forall x, y | x in s && y in s && x.revision == y.revision && x != y :: UpTo(s, x.revision) <= cut
  }

  /** Whatever arrangement the sort chooses, the same `max` revisions are reported in the same order. */
  ghost predicate OneReport(s: seq<Summary>, max: int) {
    forall t, u | IsSorting(s, t) && IsSorting(s, u) :: Newest(t, max) == Newest(u, max)
  }

  function Cut(n: nat, max: int): nat {
    if 0 < max < n then n - max else 0
  }

  lemma KeptAgree(s: seq<Summary>, t: seq<Summary>, u: seq<Summary>, i: nat, cut: nat)
    requires IsSorting(s, t) && IsSorting(s, u) && TiesWithin(s, cut) && cut <= i < |s|
    ensures |t| == |s| == |u| && t[i] == u[i]
  {
    SortingsAgreeOnRevisions(s, t, u, i);
    if t[i] != u[i] {
      assert t[i] in multiset(t) && u[i] in multiset(u);
      assert t[i] in s && u[i] in s;
      UpToIsOrderless(s, t, t[i].revision);
      UpToIsPrefix(t, i, t[i].revision);
    }
  }

  /** Another arrangement that differs at the last place of a tied revision. */
  lemma SwapTie(s: seq<Summary>, t: seq<Summary>, j: nat, k: nat) returns (u: seq<Summary>)
    requires IsSorting(s, t) && j < k < |t| && t[j].revision == t[k].revision && t[j] != t[k]
    ensures IsSorting(s, u) && |u| == |t| && u[k] != t[k]
  {
    u := t[j := t[k]][k := t[j]];
    SwapIsPermutation(t, j, k);
  }

  lemma SwapIsPermutation(t: seq<Summary>, j: nat, k: nat)
    requires j < k < |t|
    ensures multiset(t[j := t[k]][k := t[j]]) == multiset(t)
  {
  }

  /** The last place of a tied revision, and an earlier one holding something else. */
  lemma TiedPlaces(s: seq<Summary>, t: seq<Summary>, x: Summary, y: Summary) returns (j: nat, k: nat)
    requires IsSorting(s, t) && x in s && y in s && x.revision == y.revision && x != y
    ensures j < k < |t| && k == UpTo(t, x.revision) - 1
    ensures t[j].revision == t[k].revision && t[j] != t[k]
  {
    assert x in multiset(t) && y in multiset(t);
    var a :| 0 <= a < |t| && t[a] == x;
    var b :| 0 <= b < |t| && t[b] == y;
    UpToBound(t, x.revision);
    UpToIsPrefix(t, a, x.revision);
    UpToIsPrefix(t, b, x.revision);
    k := UpTo(t, x.revision) - 1;
    UpToIsPrefix(t, k, x.revision);
    j := if t[k] == x then b else a;
  }

  lemma LateTieShows(s: seq<Summary>, x: Summary, y: Summary, max: int)
    requires x in s && y in s && x.revision == y.revision && x != y
    requires UpTo(s, x.revision) > Cut(|s|, max)
    ensures !OneReport(s, max)
  {
    var t := SortingExists(s);
    var j, k := TiedPlaces(s, t, x, y);
    UpToIsOrderless(s, t, x.revision);
    var u := SwapTie(s, t, j, k);
    KeptPlacesShow(s, t, u, k, max);
  }

  lemma KeptPlacesShow(s: seq<Summary>, t: seq<Summary>, u: seq<Summary>, k: nat, max: int)
    requires IsSorting(s, t) && |t| == |u| && Cut(|s|, max) <= k < |t| && t[k] != u[k]
    ensures Newest(t, max) != Newest(u, max)
  {
    assert |multiset(t)| == |multiset(s)|;
    var cut := Cut(|s|, max);
    assert Newest(t, max)[k - cut] == t[k] && Newest(u, max)[k - cut] == u[k];
  }

  lemma {:induction false} UpToBound(t: seq<Summary>, r: int)
    ensures UpTo(t, r) <= |t|
  {
    if t != [] {
      UpToBound(t[1..], r);
    }
  }

  /**
   For every `max`: what is reported depends neither on the storage order nor on how the sort arranges ties,
   iff different summaries share a revision only among the revisions that are dropped.
   */
  lemma ReportDeterminedIff(s: seq<Summary>, max: int)
    ensures OneReport(s, max) <==> TiesWithin(s, Cut(|s|, max))
  {
    if TiesWithin(s, Cut(|s|, max)) {
      forall t, u | IsSorting(s, t) && IsSorting(s, u)
        ensures Newest(t, max) == Newest(u, max)
      {
        SameReport(s, t, u, max);
      }
    } else {
      var x, y :| x in s && y in s && x.revision == y.revision && x != y && UpTo(s, x.revision) > Cut(|s|, max);
      LateTieShows(s, x, y, max);
    }
  }

  lemma SameReport(s: seq<Summary>, t: seq<Summary>, u: seq<Summary>, max: int)
    requires IsSorting(s, t) && IsSorting(s, u) && TiesWithin(s, Cut(|s|, max))
    ensures Newest(t, max) == Newest(u, max)
  {
    assert |multiset(t)| == |multiset(s)| == |multiset(u)|;
    var cut := Cut(|s|, max);
    forall i: nat | cut <= i < |s|
      ensures t[i] == u[i]
    {
      KeptAgree(s, t, u, i, cut);
    }
    assert t[cut..] == u[cut..];
    assert Newest(t, max) == t[cut..] && Newest(u, max) == u[cut..];
  }

  /** Distinct summaries have distinct revisions. */
  ghost predicate RevisionsIdentify(s: seq<Summary>) {
    forall x, y | x in s && y in s && x.revision == y.revision :: x == y
  }

  /** Two stores holding the same distinct revisions report the same history for every `max`. */
  lemma StorageOrderIrrelevant(s: seq<Summary>, s': seq<Summary>, t: seq<Summary>, t': seq<Summary>, max: int)
    requires multiset(s) == multiset(s') && RevisionsIdentify(s)
    requires IsSorting(s, t) && IsSorting(s', t')
    ensures Newest(t, max) == Newest(t', max)
  {
    SameReport(s, t, t', max);
  }

  /** And the whole sorting is determined iff revisions identify their summaries. */
  lemma SortingDeterminedIff(s: seq<Summary>)
    ensures OneReport(s, 0) <==> RevisionsIdentify(s)
  {
    ReportDeterminedIff(s, 0);
    if OneReport(s, 0) {
      forall x, y | x in s && y in s && x.revision == y.revision
        ensures x == y
      {
        if x != y {
          var k :| 0 <= k < |s| && s[k] == x;
          CountsItself(s, k);
        }
      }
    }
  }

  lemma {:induction false} CountsItself(s: seq<Summary>, k: nat)
    requires k < |s|
    ensures UpTo(s, s[k].revision) > 0
  {
    if k > 0 {
      CountsItself(s[1..], k - 1);
    }
  }
}
