/**
 The handle registry: a table from ids to tagged objects, the class that keeps it in two mutable fields,
 and what every sequence of registry operations guarantees about ids, objects and counts.
 */
module HandleTable {
  /** `nextID` is an unsigned 64-bit counter, so it wraps to 0 after 2^64 - 1. */
  const TWO_64: nat := 0x1_0000_0000_0000_0000

  datatype HType = TInvalid | TChart | TConfig | TRegistryClient | TContext

  datatype Entry = Entry(typ: HType, obj: nat)

  datatype Table = Table(nextID: nat, entries: map<nat, Entry>)

  datatype Op =
    | Put(typ: HType, obj: nat)
    | Get(id: nat, typ: HType)
    | Free(id: nat)
    | FreeTyped(id: nat, typ: HType)
    | Count

  datatype Resp =
    | Issued(id: nat)
    | Object(obj: nat)
    | Freed
    | Invalid
    | WrongType
    | Live(n: nat)

  const Empty := Table(0, map[])

  /** Incrementing an unsigned 64-bit integer. */
  function Bump(n: nat): nat {
    if n + 1 >= TWO_64 then 0 else n + 1
  }

  /** The atomic meaning of one registry operation. */
  function Apply(t: Table, op: Op): (Table, Resp) {
    match op
    case Put(typ, obj) =>
      var id := Bump(t.nextID);
      (Table(id, t.entries[id := Entry(typ, obj)]), Issued(id))
    case Get(id, typ) =>
      if id !in t.entries then (t, Invalid)
      else if t.entries[id].typ != typ then (t, WrongType)
      else (t, Object(t.entries[id].obj))
    case Free(id) =>
      if id !in t.entries then (t, Invalid)
      else (t.(entries := t.entries - {id}), Freed)
    case FreeTyped(id, typ) =>
      if id !in t.entries then (t, Invalid)
      else if t.entries[id].typ != typ then (t, WrongType)
      else (t.(entries := t.entries - {id}), Freed)
    case Count => (t, Live(|t.entries|))
  }

  /** The registry as the library keeps it; the mutex is the subject of module LockLevel. */
  class Registry {
    var nextID: nat
    var entries: map<nat, Entry>

    function Contents(): Table
      reads this
    {
      Table(nextID, entries)
    }

    constructor ()
      ensures Contents() == Empty
    {
      nextID := 0;
      entries := map[];
    }

    method Put(typ: HType, obj: nat) returns (id: nat)
      modifies this
      ensures (Contents(), Issued(id)) == Apply(old(Contents()), Op.Put(typ, obj))
    {
      nextID := Bump(nextID);
      entries := entries[nextID := Entry(typ, obj)];
      id := nextID;
    }

    method Get(id: nat, typ: HType) returns (r: Resp)
      ensures (Contents(), r) == Apply(Contents(), Op.Get(id, typ))
    {
      if id !in entries {
        return Invalid;
      }
      var e := entries[id];
      if e.typ != typ {
        return WrongType;
      }
      return Object(e.obj);
    }

    method Free(id: nat) returns (r: Resp)
      modifies this
      ensures (Contents(), r) == Apply(old(Contents()), Op.Free(id))
    {
      if id !in entries {
        return Invalid;
      }
      entries := entries - {id};
      return Freed;
    }

    method FreeTyped(id: nat, typ: HType) returns (r: Resp)
      modifies this
      ensures (Contents(), r) == Apply(old(Contents()), Op.FreeTyped(id, typ))
    {
      if id !in entries {
        return Invalid;
      }
      var e := entries[id];
      if e.typ != typ {
        return WrongType;
      }
      entries := entries - {id};
      return Freed;
    }

    method Count() returns (n: nat)
      ensures (Contents(), Live(n)) == Apply(Contents(), Op.Count)
    {
      n := |entries|;
    }
  }

  // ---- Histories ----------------------------------------------------------

  /** One registry operation, as thread `tid` saw it answered. */
  datatype Event = Event(tid: nat, op: Op, resp: Resp)

  /** The table after the operations of `log`, in order. */
  function After(log: seq<Event>): Table {
    if log == [] then Empty
    else Apply(After(log[..|log| - 1]), log[|log| - 1].op).0
  }

  ghost predicate AnsweredRight(log: seq<Event>, i: nat)
    requires i < |log|
  {
    log[i].resp == Apply(After(log[..i]), log[i].op).1
  }

  /** Every answer is the one the atomic table gives at that point. */
  ghost predicate Consistent(log: seq<Event>) {
    forall i: nat | i < |log| :: AnsweredRight(log, i)
  }

  predicate IsPut(e: Event) {
    e.op.Put? && e.resp.Issued?
  }

  predicate IsRemoval(e: Event) {
    (e.op.Free? || e.op.FreeTyped?) && e.resp.Freed?
  }

  function Puts(log: seq<Event>): nat {
    if log == [] then 0
    else Puts(log[..|log| - 1]) + if IsPut(log[|log| - 1]) then 1 else 0
  }

  function Removals(log: seq<Event>): nat {
    if log == [] then 0
    else Removals(log[..|log| - 1]) + if IsRemoval(log[|log| - 1]) then 1 else 0
  }

  /** What every id was issued for. */
  function IssuedFor(log: seq<Event>): map<nat, Entry> {
    if log == [] then map[]
    else
      var before := IssuedFor(log[..|log| - 1]);
      var e := log[|log| - 1];
      if IsPut(e) then before[e.resp.id := Entry(e.op.typ, e.op.obj)] else before
  }

  /** The ids some free reported as released. */
  function Released(log: seq<Event>): set<nat> {
    if log == [] then {}
    else
      var before := Released(log[..|log| - 1]);
      var e := log[|log| - 1];
      if IsRemoval(e) then before + {e.op.id} else before
  }

  lemma ConsistentPrefix(log: seq<Event>, n: nat)
    requires Consistent(log) && n <= |log|
    ensures Consistent(log[..n])
  {
    forall i: nat | i < n ensures AnsweredRight(log[..n], i) {
      assert log[..n][..i] == log[..i];
      assert AnsweredRight(log, i);
    }
  }

  lemma ConsistentExtend(log: seq<Event>, e: Event)
    requires Consistent(log)
    requires e.resp == Apply(After(log), e.op).1
    ensures Consistent(log + [e])
    ensures After(log + [e]) == Apply(After(log), e.op).0
  {
    assert (log + [e])[..|log|] == log;
    forall i: nat | i < |log + [e]| ensures AnsweredRight(log + [e], i) {
      assert (log + [e])[..i] == log[..i];
      if i < |log| {
        assert AnsweredRight(log, i);
      }
    }
  }

  /** What the last event of a consistent history did to the table. */
  lemma LastEvent(log: seq<Event>)
    requires Consistent(log) && log != []
    ensures var before := After(log[..|log| - 1]);
            var e := log[|log| - 1];
            && (e.op.Put? <==> IsPut(e))
            && (IsPut(e) ==>
                  && e.resp.id == Bump(before.nextID)
                  && After(log) == Table(e.resp.id, before.entries[e.resp.id := Entry(e.op.typ, e.op.obj)]))
            && (IsRemoval(e) ==>
                  && e.op.id in before.entries
                  && (e.op.FreeTyped? ==> before.entries[e.op.id].typ == e.op.typ)
                  && After(log) == before.(entries := before.entries - {e.op.id}))
            && (!IsPut(e) && !IsRemoval(e) ==> After(log) == before)
  {
    assert AnsweredRight(log, |log| - 1);
  }

  lemma {:induction false} PutsPrefix(log: seq<Event>, n: nat)
    requires n <= |log|
    ensures Puts(log[..n]) <= Puts(log)
  {
    if n == |log| {
      assert log[..n] == log;
    } else {
      PutsPrefix(log[..|log| - 1], n);
      assert log[..|log| - 1][..n] == log[..n];
    }
  }

  lemma PutsMonotone(log: seq<Event>, m: nat, n: nat)
    requires m <= n <= |log|
    ensures Puts(log[..m]) <= Puts(log[..n])
  {
    PutsPrefix(log[..n], m);
    assert log[..n][..m] == log[..m];
  }

  /** The counter after `puts` increments from 0. */
  function Counter(puts: nat): nat {
    if puts == 0 then 0 else Bump(Counter(puts - 1))
  }

  lemma CounterNext(puts: nat)
    ensures Counter(puts + 1) == Bump(Counter(puts))
  {
  }

  lemma {:induction false} CounterIsModulo(puts: nat)
    ensures Counter(puts) == puts % TWO_64
  {
    if puts != 0 {
      CounterIsModulo(puts - 1);
    }
  }

  lemma {:induction false} CounterSmall(puts: nat)
    requires puts < TWO_64
    ensures Counter(puts) == puts
  {
    if puts != 0 {
      CounterSmall(puts - 1);
    }
  }

  lemma CounterDistinct(i: nat, j: nat)
    requires 1 <= i < j <= TWO_64
    ensures Counter(i) != Counter(j)
  {
    CounterIsModulo(i);
    CounterIsModulo(j);
  }

  /** With no bound on the number of Puts, the counter is their number modulo 2^64. */
  lemma {:induction false} NextIDCountsPuts(log: seq<Event>)
    requires Consistent(log)
    ensures After(log).nextID == Counter(Puts(log))
  {
    if log != [] {
      var n := |log| - 1;
      ConsistentPrefix(log, n);
      NextIDCountsPuts(log[..n]);
      LastEvent(log);
      CounterNext(Puts(log[..n]));
    }
  }

  lemma PutIsCounted(log: seq<Event>, i: nat)
    requires i < |log| && IsPut(log[i])
    ensures Puts(log[..i + 1]) == Puts(log[..i]) + 1
    ensures 1 <= Puts(log[..i + 1]) <= Puts(log)
  {
    assert log[..i + 1][..i] == log[..i];
    PutsPrefix(log, i + 1);
  }

  lemma PutNumbering(log: seq<Event>, i: nat)
    requires Consistent(log) && i < |log| && log[i].op.Put?
    ensures IsPut(log[i])
    ensures Puts(log[..i + 1]) == Puts(log[..i]) + 1
    ensures log[i].resp == Issued(Counter(Puts(log[..i + 1])))
  {
    ConsistentPrefix(log, i + 1);
    LastEvent(log[..i + 1]);
    NextIDCountsPuts(log[..i + 1]);
    assert log[..i + 1][..i] == log[..i];
  }

  /** The k-th Put is issued the id k modulo 2^64. */
  lemma PutIsIssuedItsNumber(log: seq<Event>, i: nat)
    requires Consistent(log) && i < |log| && log[i].op.Put?
    ensures IsPut(log[i])
    ensures log[i].resp == Issued(Puts(log[..i + 1]) % TWO_64)
  {
    PutNumbering(log, i);
    CounterIsModulo(Puts(log[..i + 1]));
  }

  lemma NextIDIsPuts(log: seq<Event>)
    requires Consistent(log) && Puts(log) < TWO_64
    ensures After(log).nextID == Puts(log)
  {
    NextIDCountsPuts(log);
    CounterSmall(Puts(log));
  }

  lemma LastPutIsNumbered(log: seq<Event>)
    requires Consistent(log) && Puts(log) < TWO_64
    requires log != [] && IsPut(log[|log| - 1])
    ensures log[|log| - 1].resp.id == Puts(log)
  {
    LastEvent(log);
    NextIDIsPuts(log);
  }

  lemma {:induction false} IssuedRange(log: seq<Event>)
    requires Consistent(log) && Puts(log) < TWO_64
    ensures forall id :: id in IssuedFor(log) <==> 1 <= id <= Puts(log)
  {
    if log != [] {
      ConsistentPrefix(log, |log| - 1);
      IssuedRange(log[..|log| - 1]);
      if IsPut(log[|log| - 1]) {
        LastPutIsNumbered(log);
      }
    }
  }

  lemma {:induction false} LiveIsIssuedNotReleased(log: seq<Event>)
    requires Consistent(log) && Puts(log) < TWO_64
    ensures forall id :: id in After(log).entries <==> id in IssuedFor(log) && id !in Released(log)
    ensures forall id :: id in After(log).entries ==> After(log).entries[id] == IssuedFor(log)[id]
    ensures Released(log) <= IssuedFor(log).Keys
  {
    if log != [] {
      var before := log[..|log| - 1];
      ConsistentPrefix(log, |log| - 1);
      LiveIsIssuedNotReleased(before);
      LastEvent(log);
      if IsPut(log[|log| - 1]) {
        IssuedRange(before);
        LastPutIsNumbered(log);
      }
    }
  }

  lemma {:induction false} ReleasedCount(log: seq<Event>)
    requires Consistent(log) && Puts(log) < TWO_64
    ensures |Released(log)| == Removals(log)
  {
    if log != [] {
      var before := log[..|log| - 1];
      ConsistentPrefix(log, |log| - 1);
      ReleasedCount(before);
      LiveIsIssuedNotReleased(before);
      LastEvent(log);
    }
  }

  lemma {:induction false} RangeSize(s: set<nat>, n: nat)
    requires forall id :: id in s <==> 1 <= id <= n
    ensures |s| == n
  {
    if n == 0 {
      assert s == {};
    } else {
      RangeSize(s - {n}, n - 1);
    }
  }

  /**
   The shape of the table after any history with fewer than 2^64 Puts: ids 1..Puts were issued, the
   live entries are the issued ones less the released ones, and each is the entry its Put stored.
   */
  lemma TableShape(log: seq<Event>)
    requires Consistent(log) && Puts(log) < TWO_64
    ensures After(log).nextID == Puts(log)
    ensures forall id :: id in IssuedFor(log) <==> 1 <= id <= Puts(log)
    ensures Released(log) <= IssuedFor(log).Keys
    ensures After(log).entries == IssuedFor(log) - Released(log)
    ensures |After(log).entries| + Removals(log) == Puts(log)
  {
    NextIDIsPuts(log);
    IssuedRange(log);
    LiveIsIssuedNotReleased(log);
    ReleasedCount(log);
    RangeSize(IssuedFor(log).Keys, Puts(log));
    assert After(log).entries.Keys == IssuedFor(log).Keys - Released(log);
  }

  lemma PutIsNew(log: seq<Event>)
    requires Consistent(log) && Puts(log) < TWO_64
    requires log != [] && IsPut(log[|log| - 1])
    ensures log[|log| - 1].resp.id !in IssuedFor(log[..|log| - 1])
  {
    ConsistentPrefix(log, |log| - 1);
    IssuedRange(log[..|log| - 1]);
    LastPutIsNumbered(log);
  }

  lemma {:induction false} HistoryGrows(log: seq<Event>, n: nat)
    requires Consistent(log) && Puts(log) < TWO_64 && n <= |log|
    ensures Released(log[..n]) <= Released(log)
    ensures forall id :: id in IssuedFor(log[..n]) ==>
              id in IssuedFor(log) && IssuedFor(log)[id] == IssuedFor(log[..n])[id]
  {
    if n == |log| {
      assert log[..n] == log;
    } else {
      var m := |log| - 1;
      ConsistentPrefix(log, m);
      HistoryGrows(log[..m], n);
      assert log[..m][..n] == log[..n];
      if IsPut(log[m]) {
        PutIsNew(log);
      }
    }
  }

  /** Issued ids split into live and released ones. */
  lemma IssuedIsLiveOrReleased(log: seq<Event>)
    requires Consistent(log) && Puts(log) < TWO_64
    ensures IssuedFor(log).Keys == After(log).entries.Keys + Released(log)
    ensures After(log).entries.Keys !! Released(log)
    ensures 0 !in IssuedFor(log)
  {
    TableShape(log);
  }

  /** A successful Get returns the object its id was issued for, under the type it was issued as. */
  lemma GetReturnsWhatWasPut(log: seq<Event>, j: nat)
    requires Consistent(log) && Puts(log) < TWO_64
    requires j < |log| && log[j].op.Get? && log[j].resp.Object?
    ensures log[j].op.id in IssuedFor(log)
    ensures IssuedFor(log)[log[j].op.id] == Entry(log[j].op.typ, log[j].resp.obj)
  {
    assert AnsweredRight(log, j);
    ConsistentPrefix(log, j);
    PutsPrefix(log, j);
    TableShape(log[..j]);
    HistoryGrows(log, j);
  }

  lemma RemovalReleases(log: seq<Event>, i: nat)
    requires Consistent(log) && Puts(log) < TWO_64
    requires i < |log| && IsRemoval(log[i])
    ensures log[i].op.id in Released(log)
    ensures log[i].op.id in IssuedFor(log)
    ensures log[i].op.FreeTyped? ==> log[i].op.typ == IssuedFor(log)[log[i].op.id].typ
  {
    assert AnsweredRight(log, i);
    assert log[..i + 1][..i] == log[..i];
    ConsistentPrefix(log, i);
    PutsPrefix(log, i);
    TableShape(log[..i]);
    HistoryGrows(log, i);
    HistoryGrows(log, i + 1);
  }

  /** After a successful free, every later operation on the id misses: it can never alias a newer object. */
  lemma ReleasedMissesForever(log: seq<Event>, i: nat, j: nat)
    requires Consistent(log) && Puts(log) < TWO_64
    requires i < j < |log| && IsRemoval(log[i])
    requires (log[j].op.Get? || log[j].op.Free? || log[j].op.FreeTyped?) && log[j].op.id == log[i].op.id
    ensures log[j].resp == Invalid
  {
    ConsistentPrefix(log, j);
    PutsPrefix(log, j);
    TableShape(log[..j]);
    RemovalReleases(log[..j], i);
    assert AnsweredRight(log, j);
  }

  lemma FreedAtMostOnce(log: seq<Event>, i: nat, j: nat)
    requires Consistent(log) && Puts(log) < TWO_64
    requires i < |log| && j < |log| && IsRemoval(log[i]) && IsRemoval(log[j])
    requires log[i].op.id == log[j].op.id
    ensures i == j
  {
    if i < j {
      ReleasedMissesForever(log, i, j);
    } else if j < i {
      ReleasedMissesForever(log, j, i);
    }
  }

  /** Conversely, an issued id that is no longer live was released by some event of the log. */
  lemma {:induction false} ReleasedBySomeone(log: seq<Event>, id: nat) returns (i: nat)
    requires id in Released(log)
    ensures i < |log| && IsRemoval(log[i]) && log[i].op.id == id
  {
    i := |log| - 1;
    if !(IsRemoval(log[i]) && log[i].op.id == id) {
      i := ReleasedBySomeone(log[..|log| - 1], id);
    }
  }

  /** The leak probe: a Count answers the Puts before it less the successful frees before it. */
  lemma CountIsPutsMinusFrees(log: seq<Event>, j: nat)
    requires Consistent(log) && Puts(log) < TWO_64
    requires j < |log| && log[j].op.Count?
    ensures log[j].resp.Live? && log[j].resp.n + Removals(log[..j]) == Puts(log[..j])
  {
    assert AnsweredRight(log, j);
    ConsistentPrefix(log, j);
    PutsPrefix(log, j);
    TableShape(log[..j]);
  }

  // ---- What the 64-bit counter costs --------------------------------------

  lemma {:induction false} NthPut(log: seq<Event>, k: nat) returns (i: nat)
    requires Consistent(log) && 1 <= k <= Puts(log)
    ensures i < |log| && log[i].op.Put? && Puts(log[..i + 1]) == k
  {
    var n := |log| - 1;
    assert log[..n + 1] == log;
    assert AnsweredRight(log, n);
    if IsPut(log[n]) && Puts(log) == k {
      i := n;
    } else {
      ConsistentPrefix(log, n);
      i := NthPut(log[..n], k);
      assert log[..n][..i + 1] == log[..i + 1];
    }
  }

  lemma PutsStrictlyGrow(log: seq<Event>, i: nat, j: nat)
    requires i < j < |log| && IsPut(log[i]) && IsPut(log[j])
    ensures 1 <= Puts(log[..i + 1]) < Puts(log[..j + 1]) <= Puts(log)
  {
    PutIsCounted(log, i);
    PutIsCounted(log, j);
    PutsMonotone(log, i + 1, j);
  }

  ghost predicate IssuesZero(log: seq<Event>) {
    exists i: nat :: i < |log| && log[i].op.Put? && log[i].resp == Issued(0)
  }

  ghost predicate ReusesAnId(log: seq<Event>) {
    exists i: nat, j: nat :: i < j < |log| && log[i].op.Put? && log[j].op.Put? && log[i].resp == log[j].resp
  }

  /** "The zero id is never issued" holds exactly up to 2^64 - 1 Puts. */
  lemma ZeroIssuedIff(log: seq<Event>)
    requires Consistent(log)
    ensures IssuesZero(log) <==> Puts(log) >= TWO_64
  {
    if IssuesZero(log) {
      var i: nat :| i < |log| && log[i].op.Put? && log[i].resp == Issued(0);
      PutNumbering(log, i);
      PutIsCounted(log, i);
      if Puts(log) < TWO_64 {
        CounterSmall(Puts(log[..i + 1]));
      }
    }
    if Puts(log) >= TWO_64 {
      OverflowIssuesZero(log, TWO_64);
    }
  }

  lemma OverflowIssuesZero(log: seq<Event>, k: nat)
    requires Consistent(log) && 1 <= k <= Puts(log) && k % TWO_64 == 0
    ensures IssuesZero(log)
  {
    var i := NthPut(log, k);
    PutIsIssuedItsNumber(log, i);
  }

  /** "Ids are never reused" holds exactly up to 2^64 Puts. */
  lemma IdReusedIff(log: seq<Event>)
    requires Consistent(log)
    ensures ReusesAnId(log) <==> Puts(log) > TWO_64
  {
    if ReusesAnId(log) {
      var i: nat, j: nat :| i < j < |log| && log[i].op.Put? && log[j].op.Put? && log[i].resp == log[j].resp;
      PutNumbering(log, i);
      PutNumbering(log, j);
      PutsStrictlyGrow(log, i, j);
      if Puts(log) <= TWO_64 {
        CounterDistinct(Puts(log[..i + 1]), Puts(log[..j + 1]));
      }
    }
    if Puts(log) > TWO_64 {
      OverflowReuses(log, 1, TWO_64 + 1);
    }
  }

  lemma OverflowReuses(log: seq<Event>, k: nat, l: nat)
    requires Consistent(log) && 1 <= k < l <= Puts(log) && k % TWO_64 == l % TWO_64
    ensures ReusesAnId(log)
  {
    var i := NthPut(log, k);
    var j := NthPut(log, l);
    PutIsIssuedItsNumber(log, i);
    PutIsIssuedItsNumber(log, j);
    if j < i {
      PutsStrictlyGrow(log, j, i);
    }
    assert i < j < |log| && log[i].op.Put? && log[j].op.Put? && log[i].resp == log[j].resp;
  }
}
