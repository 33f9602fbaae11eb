/**
 The same threads and calls with the registry's reader/writer lock and each memory access as a step of
 its own. Every run simulates a run of the atomic protocol, so all of its theorems carry over.
 */
module LockLevel {
  import opened Prelude
  import opened HandleTable
  import opened FreeProtocol
  import RW = RWMutex
  import FreeTheorems
  import CallTheorems

  /** Where a thread is inside a registry operation; `Out` is outside the lock. */
  datatype Pc =
    | Out
    | Waiting
    | Held
    | Bumped(prev: nat)
    | Looked(found: Option<Entry>)
    | Done

  datatype MState = MState(lock: RW.RW, pcs: seq<Pc>, nextID: nat, entries: map<nat, Entry>, w: World)

  datatype Step =
    | Outside(a: Local)
    | TryLock(t: nat)
    | Acquire(t: nat)
    | Look(t: nat)
    | BumpID(t: nat)
    | Effect(t: nat)
    | Release(t: nat)

  predicate IsReader(op: Op) {
    op.Get? || op.Count?
  }

  function Lookup(entries: map<nat, Entry>, id: nat): Option<Entry> {
    if id in entries then Some(entries[id]) else None
  }

  /** The answer to a Get, Free or FreeTyped, computed from what its lookup saw. */
  function AnswerTo(op: Op, found: Option<Entry>): Resp
    requires op.Get? || op.Free? || op.FreeTyped?
  {
    if found.None? then Invalid
    else if !op.Free? && found.value.typ != op.typ then WrongType
    else if op.Get? then Object(found.value.obj)
    else Freed
  }

  predicate Enabled(m: MState, a: Step) {
    match a
    case Outside(l) =>
      LocalEnabled(m.w, l) && l.t < |m.pcs| && m.pcs[l.t].Out?
    case TryLock(t) =>
      t < |m.pcs| && t < |m.w.threads| && m.pcs[t].Out? && m.w.threads[t].Invoking? &&
      (IsReader(m.w.threads[t].op) || RW.CanAnnounce(m.lock))
    case Acquire(t) =>
      t < |m.pcs| && t < |m.w.threads| && m.pcs[t].Waiting? && m.w.threads[t].Invoking? &&
      (if IsReader(m.w.threads[t].op) then t in m.lock.readers else RW.CanAcquire(m.lock, t))
    case Look(t) =>
      t < |m.pcs| && t < |m.w.threads| && m.pcs[t].Held? && m.w.threads[t].Invoking? &&
      var op := m.w.threads[t].op; (op.Get? || op.Free? || op.FreeTyped?)
    case BumpID(t) =>
      t < |m.pcs| && t < |m.w.threads| && m.pcs[t].Held? && m.w.threads[t].Invoking? && m.w.threads[t].op.Put?
    case Effect(t) =>
      t < |m.pcs| && t < |m.w.threads| && m.w.threads[t].Invoking? &&
      var op := m.w.threads[t].op;
      (match m.pcs[t]
       case Looked(_) => op.Get? || op.Free? || op.FreeTyped?
       case Bumped(_) => op.Put?
       case Held => op.Count?
       case _ => false)
    case Release(t) =>
      t < |m.pcs| && t < |m.w.threads| && m.pcs[t].Done? && m.w.threads[t].Answered?
  }

  /** The one access that decides an operation: the insert, the delete, or the read just made. */
  function EffectStep(m: MState, t: nat): MState
    requires Enabled(m, Effect(t))
  {
    var op := m.w.threads[t].op;
    match m.pcs[t]
    case Bumped(_) =>
      m.(pcs := m.pcs[t := Done],
         entries := m.entries[m.nextID := Entry(op.typ, op.obj)],
         w := Record(m.w, t, Issued(m.nextID)))
    case Looked(found) =>
      var r := AnswerTo(op, found);
      m.(pcs := m.pcs[t := Done],
         entries := if r.Freed? then m.entries - {op.id} else m.entries,
         w := Record(m.w, t, r))
    case _ =>
      m.(pcs := m.pcs[t := Done], w := Record(m.w, t, Live(|m.entries|)))
  }

  function Next(m: MState, a: Step): MState
    requires Enabled(m, a)
  {
    match a
    case Outside(l) => m.(w := LocalStep(m.w, l))
    case TryLock(t) =>
      m.(pcs := m.pcs[t := Waiting],
         lock := if IsReader(m.w.threads[t].op) then RW.RLock(m.lock, t) else RW.Announce(m.lock, t))
    case Acquire(t) =>
      m.(pcs := m.pcs[t := Held],
         lock := if IsReader(m.w.threads[t].op) then m.lock else RW.Acquire(m.lock))
    case Look(t) =>
      m.(pcs := m.pcs[t := Looked(Lookup(m.entries, m.w.threads[t].op.id))])
    case BumpID(t) =>
      m.(pcs := m.pcs[t := Bumped(m.nextID)], nextID := Bump(m.nextID))
    case Effect(t) => EffectStep(m, t)
    case Release(t) =>
      m.(pcs := m.pcs[t := Out],
         lock := if IsReader(m.w.threads[t].op) then RW.RUnlock(m.lock, t) else RW.Unlock(m.lock))
  }

  function Init(n: nat): MState {
    MState(RW.Unlocked, seq(n, _ => Out), 0, map[], InitWorld(n))
  }

  predicate Runs(m: MState, steps: seq<Step>)
    decreases |steps|
  {
    steps == [] || (Enabled(m, steps[0]) && Runs(Next(m, steps[0]), steps[1..]))
  }

  function Exec(m: MState, steps: seq<Step>): MState
    requires Runs(m, steps)
    decreases |steps|
  {
    if steps == [] then m else Exec(Next(m, steps[0]), steps[1..])
  }

  // ---- The locking discipline ---------------------------------------------

  ghost predicate Inside(m: MState, t: nat)
    requires t < |m.pcs| && t < |m.w.threads|
  {
    m.w.threads[t].Invoking? || m.w.threads[t].Answered?
  }

  /** What the lock and the table look like to a thread at `m.pcs[t]`. */
  ghost predicate PcRight(m: MState, t: nat)
    requires t < |m.pcs| && t < |m.w.threads|
  {
    match m.pcs[t]
    case Out => RW.Uninvolved(m.lock, t)
    case Waiting =>
      && m.w.threads[t].Invoking?
      && (if IsReader(m.w.threads[t].op)
          then m.lock.writer != Some(t) && (t in m.lock.readers || t in m.lock.parked)
          else m.lock.writer == Some(t) && !m.lock.acquired)
    case Done =>
      m.w.threads[t].Answered? && Holds(m, t)
    case Held =>
      m.w.threads[t].Invoking? && Holds(m, t)
    case Bumped(prev) =>
      m.w.threads[t].Invoking? && Holds(m, t) && m.w.threads[t].op.Put? && m.nextID == Bump(prev)
    case Looked(found) =>
      && m.w.threads[t].Invoking?
      && Holds(m, t)
      && (m.w.threads[t].op.Get? || m.w.threads[t].op.Free? || m.w.threads[t].op.FreeTyped?)
      && found == Lookup(m.entries, m.w.threads[t].op.id)
  }

  ghost predicate Holds(m: MState, t: nat)
    requires t < |m.pcs| && t < |m.w.threads| && Inside(m, t)
  {
    if IsReader(m.w.threads[t].op) then t in m.lock.readers
    else m.lock.writer == Some(t) && m.lock.acquired
  }

  ghost predicate LockInv(m: MState) {
    && |m.pcs| == |m.w.threads|
    && RW.WellFormed(m.lock)
    && (forall t: nat | t < |m.pcs| :: PcRight(m, t))
    && (forall t | t in m.lock.readers || t in m.lock.parked :: t < |m.pcs|)
    && (m.lock.writer.Some? ==> m.lock.writer.value < |m.pcs|)
  }

  ghost predicate Writing(m: MState, t: nat) {
    t < |m.pcs| && t < |m.w.threads| && Inside(m, t) && !m.pcs[t].Out? && !m.pcs[t].Waiting? &&
    !IsReader(m.w.threads[t].op)
  }

  ghost predicate Reading(m: MState, t: nat) {
    t < |m.pcs| && t < |m.w.threads| && Inside(m, t) && !m.pcs[t].Out? && !m.pcs[t].Waiting? &&
    IsReader(m.w.threads[t].op)
  }

  /** While one thread is writing, no other thread is in its critical section. */
  lemma MutualExclusion(m: MState, t: nat, u: nat)
    requires LockInv(m) && Writing(m, t) && t != u
    ensures !Writing(m, u) && !Reading(m, u)
  {
    assert PcRight(m, t);
    if u < |m.pcs| {
      assert PcRight(m, u);
    }
  }

  lemma LockInvOutside(m: MState, l: Local)
    requires LockInv(m) && Enabled(m, Outside(l))
    ensures LockInv(Next(m, Outside(l)))
  {
    var m' := Next(m, Outside(l));
    forall t: nat | t < |m'.pcs| ensures PcRight(m', t) {
      assert PcRight(m, t);
    }
  }

  lemma LockInvTryLock(m: MState, t: nat)
    requires LockInv(m) && Enabled(m, TryLock(t))
    ensures LockInv(Next(m, TryLock(t)))
  {
    var m' := Next(m, TryLock(t));
    assert PcRight(m, t);
    forall u: nat | u < |m'.pcs| ensures PcRight(m', u) {
      assert PcRight(m, u);
    }
  }

  lemma LockInvAcquire(m: MState, t: nat)
    requires LockInv(m) && Enabled(m, Acquire(t))
    ensures LockInv(Next(m, Acquire(t)))
  {
    var m' := Next(m, Acquire(t));
    assert PcRight(m, t);
    forall u: nat | u < |m'.pcs| ensures PcRight(m', u) {
      assert PcRight(m, u);
    }
  }

  lemma LockInvRelease(m: MState, t: nat)
    requires LockInv(m) && Enabled(m, Release(t))
    ensures LockInv(Next(m, Release(t)))
  {
    var m' := Next(m, Release(t));
    assert PcRight(m, t);
    forall u: nat | u < |m'.pcs| ensures PcRight(m', u) {
      assert PcRight(m, u);
    }
  }

  lemma LockInvMemory(m: MState, a: Step)
    requires LockInv(m) && Enabled(m, a) && (a.Look? || a.BumpID? || a.Effect?)
    ensures LockInv(Next(m, a))
  {
    var m' := Next(m, a);
    var t := a.t;
    assert PcRight(m, t);
    forall u: nat | u < |m'.pcs| ensures PcRight(m', u) {
      assert PcRight(m, u);
      if u != t && Writing(m, t) {
        MutualExclusion(m, t, u);
      }
    }
  }

  lemma LockInvNext(m: MState, a: Step)
    requires LockInv(m) && Enabled(m, a)
    ensures LockInv(Next(m, a))
  {
    match a
    case Outside(l) => LockInvOutside(m, l);
    case TryLock(t) => LockInvTryLock(m, t);
    case Acquire(t) => LockInvAcquire(m, t);
    case Release(t) => LockInvRelease(m, t);
    case _ => LockInvMemory(m, a);
  }

  // ---- Refinement ---------------------------------------------------------

  /** A Put between its two writes has not happened yet. */
  function AbsTable(m: MState): Table {
    if m.lock.writer.Some? && m.lock.writer.value < |m.pcs| && m.pcs[m.lock.writer.value].Bumped?
    then Table(m.pcs[m.lock.writer.value].prev, m.entries)
    else Table(m.nextID, m.entries)
  }

  function Abs(m: MState): PState {
    PState(AbsTable(m), m.w)
  }

  /** The atomic action a step amounts to; a lock or bookkeeping step amounts to none. */
  function AbsActs(a: Step): seq<Action> {
    match a
    case Outside(l) => [Act(l)]
    case Effect(t) => [Registry(t)]
    case _ => []
  }

  lemma EffectRefines(m: MState, t: nat)
    requires LockInv(m) && Enabled(m, Effect(t))
    ensures FreeProtocol.Enabled(Abs(m), Registry(t))
    ensures Abs(Next(m, Effect(t))) == FreeProtocol.Next(Abs(m), Registry(t))
  {
    assert PcRight(m, t);
    if m.lock.writer.Some? {
      assert PcRight(m, m.lock.writer.value);
    }
  }

  lemma QuietStepRefines(m: MState, a: Step)
    requires LockInv(m) && Enabled(m, a) && !a.Effect?
    ensures AbsTable(Next(m, a)) == AbsTable(m)
  {
    match a
    case Outside(_) =>
    case TryLock(t) => assert PcRight(m, t);
    case Acquire(t) => assert PcRight(m, t);
    case Look(t) => assert PcRight(m, t);
    case BumpID(t) => assert PcRight(m, t);
    case Release(t) =>
      assert PcRight(m, t);
      if m.lock.writer.Some? {
        assert PcRight(m, m.lock.writer.value);
      }
  }

  lemma StepRefines(m: MState, a: Step)
    requires LockInv(m) && Enabled(m, a)
    ensures FreeProtocol.Runs(Abs(m), AbsActs(a))
    ensures FreeProtocol.Exec(Abs(m), AbsActs(a)) == Abs(Next(m, a))
  {
    if a.Effect? {
      EffectRefines(m, a.t);
    } else {
      QuietStepRefines(m, a);
    }
  }

  function AbsRun(steps: seq<Step>): seq<Action> {
    if steps == [] then [] else AbsActs(steps[0]) + AbsRun(steps[1..])
  }

  lemma {:induction false} RunsCompose(s: PState, a: seq<Action>, b: seq<Action>)
    requires FreeProtocol.Runs(s, a) && FreeProtocol.Runs(FreeProtocol.Exec(s, a), b)
    ensures FreeProtocol.Runs(s, a + b)
    ensures FreeProtocol.Exec(s, a + b) == FreeProtocol.Exec(FreeProtocol.Exec(s, a), b)
    decreases |a|
  {
    if a == [] {
      assert a + b == b;
    } else {
      var c := a + b;
      assert c[0] == a[0] && c[1..] == a[1..] + b;
      RunsCompose(FreeProtocol.Next(s, a[0]), a[1..], b);
    }
  }

  /** Every lock-level run simulates the atomic run made of its effects and outside steps. */
  lemma {:induction false} RunRefines(m: MState, steps: seq<Step>)
    requires LockInv(m) && Runs(m, steps)
    ensures LockInv(Exec(m, steps))
    ensures FreeProtocol.Runs(Abs(m), AbsRun(steps))
    ensures FreeProtocol.Exec(Abs(m), AbsRun(steps)) == Abs(Exec(m, steps))
    decreases |steps|
  {
    if steps != [] {
      var m' := Next(m, steps[0]);
      LockInvNext(m, steps[0]);
      StepRefines(m, steps[0]);
      RunRefines(m', steps[1..]);
      RunsCompose(Abs(m), AbsActs(steps[0]), AbsRun(steps[1..]));
    }
  }

  ghost predicate Reachable(m: MState) {
    exists n: nat, steps: seq<Step> :: Runs(Init(n), steps) && Exec(Init(n), steps) == m
  }

  /** So what the atomic protocol never reaches, the locked registry never reaches either. */
  lemma ReachableRefines(m: MState)
    requires Reachable(m)
    ensures LockInv(m)
    ensures FreeTheorems.Reachable(Abs(m))
  {
    var n: nat, steps: seq<Step> :| Runs(Init(n), steps) && Exec(Init(n), steps) == m;
    assert LockInv(Init(n));
    RunRefines(Init(n), steps);
    assert Abs(Init(n)) == FreeProtocol.Init(n);
  }

  // ---- Linearizability ----------------------------------------------------

  lemma EffectIsAnAccess(m: MState, a: Step)
    requires Enabled(m, a)
    ensures m.w.log <= Next(m, a).w.log
    ensures Next(m, a).w.log != m.w.log ==> a.Effect? && Next(m, a).w.log == m.w.log + [Next(m, a).w.log[|m.w.log|]]
    ensures a.Effect? ==> Next(m, a).w.log[|m.w.log|..] ==
                          [Event(a.t, m.w.threads[a.t].op, Next(m, a).w.threads[a.t].resp)]
  {
  }

  /** What was answered stays answered, at its place in the log. */
  lemma {:induction false} LogGrows(m: MState, steps: seq<Step>)
    requires Runs(m, steps)
    ensures m.w.log <= Exec(m, steps).w.log
    ensures m.w.rets <= Exec(m, steps).w.rets
    decreases |steps|
  {
    if steps != [] {
      EffectIsAnAccess(m, steps[0]);
      LogGrows(Next(m, steps[0]), steps[1..]);
    }
  }

  /** No operation of this thread has been answered since it was invoked, or it runs none. */
  ghost predicate Undecided(m: MState, t: nat) {
    t < |m.w.threads| && (m.w.threads[t].Idle? || m.w.threads[t].Invoking?)
  }

  /** Whatever thread `t` carries, or has returned after its first `done` returns, was decided from `base` on. */
  ghost predicate DecidedSince(w: World, t: nat, base: nat, done: nat) {
    && t < |w.threads|
    && (FreeTheorems.Pending(w.threads[t]).Some? ==> FreeTheorems.Pending(w.threads[t]).value >= base)
    && (forall i: nat | done <= i < |w.rets| && w.rets[i].tid == t :: w.rets[i].ev >= base)
  }

  lemma {:induction false} DecidedSinceStays(m: MState, steps: seq<Step>, t: nat, base: nat, done: nat)
    requires Runs(m, steps) && DecidedSince(m.w, t, base, done) && base <= |m.w.log|
    ensures DecidedSince(Exec(m, steps).w, t, base, done)
    decreases |steps|
  {
    if steps != [] {
      EffectIsAnAccess(m, steps[0]);
      DecidedSinceStays(Next(m, steps[0]), steps[1..], t, base, done);
    }
  }

  /**
   An operation not answered at some moment is answered, if ever, by an event after all those answered by
   then: in every continuation, what its thread carries or has returned since lies beyond the log there was.
   */
  lemma UndecidedComesLater(m: MState, steps: seq<Step>, t: nat)
    requires Undecided(m, t) && Runs(m, steps)
    ensures DecidedSince(Exec(m, steps).w, t, |m.w.log|, |m.w.rets|)
  {
    DecidedSinceStays(m, steps, t, |m.w.log|, |m.w.rets|);
  }

  /** Real-time order: a call that returned before another was made is decided before it in the log. */
  lemma RealTimeOrder(m: MState, m': MState, i: nat, j: nat)
    requires Reachable(m) && Leads(m, m')
    requires i < |m.w.rets| && ReturnsLater(m, m', j)
    ensures m'.w.rets[i] == m.w.rets[i]
    ensures m'.w.rets[i].ev < m'.w.rets[j].ev
  {
    var steps: seq<Step> :| Runs(m, steps) && Exec(m, steps) == m';
    LogGrows(m, steps);
    UndecidedComesLater(m, steps, m'.w.rets[j].tid);
    Linearizable(m);
  }

  ghost predicate Leads(m: MState, m': MState) {
    exists steps: seq<Step> :: Runs(m, steps) && Exec(m, steps) == m'
  }

  /** Return `j` of `m'` is of a call not decided at `m`, so in particular of any call not yet made there. */
  ghost predicate ReturnsLater(m: MState, m': MState, j: nat) {
    |m.w.rets| <= j < |m'.w.rets| && Undecided(m, m'.w.rets[j].tid)
  }

  /**
   The registry is linearizable: the log orders all operations as one sequential history of the atomic
   table, the answer a thread carries and the code a call has returned are those of its own event there,
   and the table in memory is where the history ends (between the two writes of a Put, one increment ahead
   of it). `RealTimeOrder` says that the history respects real time.
   */
  lemma Linearizable(m: MState)
    requires Reachable(m)
    ensures Consistent(m.w.log)
    ensures AbsTable(m) == After(m.w.log)
    ensures forall t: nat | t < |m.w.threads| && m.w.threads[t].Answered? ::
              && m.w.threads[t].ev < |m.w.log|
              && m.w.log[m.w.threads[t].ev] == Event(t, m.w.threads[t].op, m.w.threads[t].resp)
    ensures forall i: nat | i < |m.w.rets| ::
              FreeTheorems.DecidedBy(m.w.log, m.w.rets[i].tid, m.w.rets[i].call, m.w.rets[i].code, m.w.rets[i].ev)
    ensures forall i: nat, j: nat | i < j < |m.w.rets| && m.w.rets[i].tid == m.w.rets[j].tid ::
              m.w.rets[i].ev < m.w.rets[j].ev
  {
    ReachableRefines(m);
    FreeTheorems.ReachableInv(Abs(m));
    forall t: nat | t < |m.w.threads| && m.w.threads[t].Answered?
      ensures m.w.threads[t].ev < |m.w.log|
      ensures m.w.log[m.w.threads[t].ev] == Event(t, m.w.threads[t].op, m.w.threads[t].resp)
    {
      assert FreeTheorems.StageRight(m.w, t);
    }
  }

  // ---- The free theorems, under the real lock -----------------------------

  lemma AtMostOneFreeWins(m: MState, id: nat, j: nat, k: nat)
    requires Reachable(m) && Puts(m.w.log) < TWO_64
    requires FreeTheorems.Won(m.w, j, id) && FreeTheorems.Won(m.w, k, id)
    ensures j == k
  {
    ReachableRefines(m);
    FreeTheorems.AtMostOneFreeWins(Abs(m), id, j, k);
  }

  lemma TypedWinnerRanHook(m: MState, k: nat, id: nat)
    requires Reachable(m) && Puts(m.w.log) < TWO_64
    requires FreeTheorems.Won(m.w, k, id) && m.w.rets[k].call.CFreeTyped?
    ensures id in IssuedFor(m.w.log)
    ensures IssuedFor(m.w.log)[id].typ == m.w.rets[k].call.typ
    ensures FreeTheorems.HookRan(m.w, m.w.rets[k].call.typ, IssuedFor(m.w.log)[id].obj)
  {
    ReachableRefines(m);
    FreeTheorems.TypedWinnerRanHook(Abs(m), k, id);
  }

  lemma CancelOKCancels(m: MState, k: nat)
    requires Reachable(m) && Puts(m.w.log) < TWO_64
    requires k < |m.w.rets| && m.w.rets[k].call.CCancel? && m.w.rets[k].code == OK
    ensures var id := m.w.rets[k].call.id;
            && id in IssuedFor(m.w.log)
            && IssuedFor(m.w.log)[id].typ == TContext
            && IssuedFor(m.w.log)[id].obj in m.w.cancelled
  {
    ReachableRefines(m);
    CallTheorems.CancelOKCancels(Abs(m), k);
  }

  lemma CodesMeanWhatTheySay(m: MState, k: nat)
    requires Reachable(m) && k < |m.w.rets|
    ensures var r := m.w.rets[k];
            && r.ev < |m.w.log|
            && m.w.log[r.ev].tid == r.tid
            && CallTheorems.CodeMeans(After(m.w.log[..r.ev]), After(m.w.log[..r.ev + 1]), r.call, r.code)
  {
    ReachableRefines(m);
    CallTheorems.CodesMeanWhatTheySay(Abs(m), k);
  }

  /** With no call in flight, the entries in memory are the issued handles no free has won. */
  lemma QuietEntries(m: MState, id: nat)
    requires Reachable(m) && Puts(m.w.log) < TWO_64 && FreeTheorems.Quiet(m.w)
    ensures id in m.entries <==> id in IssuedFor(m.w.log) && !exists k: nat :: FreeTheorems.Won(m.w, k, id)
    ensures m.nextID == Puts(m.w.log) && |m.entries| + Removals(m.w.log) == Puts(m.w.log)
  {
    ReachableRefines(m);
    FreeTheorems.ReachableInv(Abs(m));
    TableShape(m.w.log);
    if m.lock.writer.Some? {
      assert PcRight(m, m.lock.writer.value);
    }
    if id in IssuedFor(m.w.log) {
      FreeTheorems.GoneIffOneFreeWon(Abs(m), id);
    }
  }

  // ---- Readers share the lock ---------------------------------------------

  lemma {:induction false} RunsSnoc(m: MState, steps: seq<Step>, a: Step)
    requires Runs(m, steps) && Enabled(Exec(m, steps), a)
    ensures Runs(m, steps + [a]) && Exec(m, steps + [a]) == Next(Exec(m, steps), a)
    decreases |steps|
  {
    var all := steps + [a];
    if steps == [] {
      assert all == [a];
    } else {
      assert all[0] == steps[0] && all[1..] == steps[1..] + [a];
      RunsSnoc(Next(m, steps[0]), steps[1..], a);
    }
  }

  lemma Go(m: MState, a: Step) returns (m': MState)
    requires Reachable(m) && Enabled(m, a)
    ensures Reachable(m') && m' == Next(m, a)
  {
    var n: nat, steps: seq<Step> :| Runs(Init(n), steps) && Exec(Init(n), steps) == m;
    RunsSnoc(Init(n), steps, a);
    m' := Next(m, a);
  }

  lemma ReaderEnters(m: MState, t: nat) returns (m': MState)
    requires Reachable(m) && m.lock.writer.None? && t < |m.pcs| && t < |m.w.threads|
    requires m.pcs[t].Out? && m.w.threads[t].Invoking? && (m.w.threads[t].op.Get? || m.w.threads[t].op.Count?)
    ensures Reachable(m') && m' == m.(pcs := m.pcs[t := Held], lock := m.lock.(readers := m.lock.readers + {t}))
  {
    m' := Go(m, TryLock(t));
    m' := Go(m', Acquire(t));
  }

  /** With no writer about, two lookups are inside at once: Get and Count take the lock for reading only. */
  lemma ReadersShare(m: MState, t: nat, u: nat) returns (m': MState)
    requires Reachable(m) && m.lock.writer.None? && t != u
    requires t < |m.pcs| && u < |m.pcs| && t < |m.w.threads| && u < |m.w.threads|
    requires m.pcs[t].Out? && m.w.threads[t].Invoking? && (m.w.threads[t].op.Get? || m.w.threads[t].op.Count?)
    requires m.pcs[u].Out? && m.w.threads[u].Invoking? && (m.w.threads[u].op.Get? || m.w.threads[u].op.Count?)
    ensures Reachable(m') && m'.w == m.w && m'.pcs == m.pcs[t := Held][u := Held]
  {
    m' := ReaderEnters(m, t);
    m' := ReaderEnters(m', u);
  }

  // ---- Progress -----------------------------------------------------------

  ghost predicate Moves(m: MState, t: nat) {
    || Enabled(m, Outside(Continue(t)))
    || Enabled(m, TryLock(t))
    || Enabled(m, Acquire(t))
    || Enabled(m, Look(t))
    || Enabled(m, BumpID(t))
    || Enabled(m, Effect(t))
    || Enabled(m, Release(t))
  }

  /** No lock-level deadlock: while some call is in flight, some call in flight can take a step. */
  lemma SomeCallMoves(m: MState, t: nat) returns (u: nat)
    requires LockInv(m) && t < |m.w.threads| && !m.w.threads[t].Idle?
    ensures u < |m.w.threads| && !m.w.threads[u].Idle? && Moves(m, u)
  {
    u := t;
    assert PcRight(m, t);
    if !Moves(m, t) {
      u := m.lock.writer.value;
      assert PcRight(m, u);
      if !Moves(m, u) {
        assert m.lock.readers != {};
        u :| u in m.lock.readers;
        assert PcRight(m, u);
      }
    }
  }
}
