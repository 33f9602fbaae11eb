/**
 What every run of the free protocol guarantees: one free wins, a typed free's hook ran before its
 entry disappeared, losers miss, and an object released by the generic free stays as it was for ever.
 */
module FreeTheorems {
  import opened Prelude
  import opened HandleTable
  import opened FreeProtocol

  // ---- The invariant ------------------------------------------------------

  /** The effect a typed free promises on the object it releases. */
  ghost predicate HookRan(w: World, typ: HType, obj: nat) {
    && (typ.TContext? ==> obj in w.cancelled)
    && (typ.TConfig? ==> obj !in w.files)
  }

  /** Unless the 64-bit counter overflowed, `id` was issued for `obj` as a `typ`. */
  ghost predicate IsFor(log: seq<Event>, id: nat, typ: HType, obj: nat) {
    Puts(log) < TWO_64 ==> id in IssuedFor(log) && IssuedFor(log)[id] == Entry(typ, obj)
  }

  ghost predicate HookedRight(w: World, call: Call, hooked: Option<nat>) {
    hooked.Some? ==>
      && TwoPhase(call)
      && hooked.value in w.objs
      && HookRan(w, call.typ, hooked.value)
      && IsFor(w.log, call.id, call.typ, hooked.value)
  }

  ghost predicate IsFree(call: Call) {
    call.CFree? || call.CFreeTyped?
  }

  /** Event `ev` decided the code of `call`; a free is OK only through its removing event. */
  ghost predicate DecidedBy(log: seq<Event>, tid: nat, call: Call, code: Code, ev: nat) {
    && ev < |log|
    && log[ev].tid == tid
    && code == CodeOf(log[ev].resp)
    && (log[ev].op == OpOf(call, None) || (TwoPhase(call) && log[ev].op == FreeTyped(call.id, call.typ)))
    && (IsFree(call) && code == OK ==> IsRemoval(log[ev]))
  }

  ghost predicate StageRight(w: World, t: nat)
    requires t < |w.threads|
  {
    match w.threads[t]
    case Idle => true
    case Invoking(call, op, hooked) =>
      && op == OpOf(call, hooked)
      && HookedRight(w, call, hooked)
      && (call.CPut? ==> call.obj in w.objs)
    case Answered(call, op, hooked, resp, ev) =>
      && op == OpOf(call, hooked)
      && HookedRight(w, call, hooked)
      && ev < |w.log|
      && w.log[ev] == Event(t, op, resp)
      && (resp.Object? ==> resp.obj in w.objs)
    case Hooking(call, obj, pc, ev) =>
      && (TwoPhase(call) || call.CCancel?)
      && (call.CCancel? ==> pc.Cancelling?)
      && (TwoPhase(call) && call.typ.TContext? ==> pc.Cancelling?)
      && (TwoPhase(call) && call.typ.TConfig? ==> !pc.Cancelling?)
      && ev < |w.log|
      && w.log[ev] == Event(t, OpOf(call, None), Object(obj))
      && obj in w.objs
      && (pc.CloseClear? ==> obj !in w.files)
    case Leaving(call, code, ev) => DecidedBy(w.log, t, call, code, ev)
  }

  /** The event a thread is still carrying towards its return, if any. */
  function Pending(st: Stage): Option<nat> {
    match st
    case Answered(_, _, _, _, ev) => Some(ev)
    case Hooking(_, _, _, ev) => Some(ev)
    case Leaving(_, _, ev) => Some(ev)
    case _ => None
  }

  ghost predicate RetsRight(w: World) {
    && (forall i: nat | i < |w.rets| ::
          DecidedBy(w.log, w.rets[i].tid, w.rets[i].call, w.rets[i].code, w.rets[i].ev))
    && (forall i: nat, j: nat | i < j < |w.rets| && w.rets[i].tid == w.rets[j].tid ::
          w.rets[i].ev < w.rets[j].ev)
    && (forall i: nat, t: nat | i < |w.rets| && t < |w.threads| && w.rets[i].tid == t && Pending(w.threads[t]).Some? ::
          w.rets[i].ev < Pending(w.threads[t]).value)
  }

  ghost predicate Reported(w: World, i: nat) {
    exists k: nat :: k < |w.rets| && w.rets[k].ev == i
  }

  /** No successful free is lost: its thread is still carrying it, or has returned it. */
  ghost predicate RemovalsReported(w: World) {
    forall i: nat | i < |w.log| && IsRemoval(w.log[i]) ::
      && w.log[i].tid < |w.threads|
      && (Pending(w.threads[w.log[i].tid]) == Some(i) || Reported(w, i))
  }

  /** Every typed free that removed an entry had run its hook on the object that entry held. */
  ghost predicate HooksBeforeRemovals(w: World) {
    forall i: nat | i < |w.log| && IsRemoval(w.log[i]) && w.log[i].op.FreeTyped? && HasHook(w.log[i].op.typ) ::
      exists obj ::
        && obj in w.objs
        && HookRan(w, w.log[i].op.typ, obj)
        && IsFor(w.log, w.log[i].op.id, w.log[i].op.typ, obj)
  }

  ghost predicate ObjectsKnown(s: PState) {
    && (forall id | id in s.table.entries :: s.table.entries[id].obj in s.w.objs)
    && s.w.files <= s.w.owns
  }

  ghost predicate Inv(s: PState) {
    && Consistent(s.w.log)
    && s.table == After(s.w.log)
    && (forall t: nat | t < |s.w.threads| :: StageRight(s.w, t))
    && RetsRight(s.w)
    && RemovalsReported(s.w)
    && HooksBeforeRemovals(s.w)
    && ObjectsKnown(s)
  }

  // ---- Preservation -------------------------------------------------------

  lemma IsForGrows(log: seq<Event>, e: Event, id: nat, typ: HType, obj: nat)
    requires Consistent(log + [e]) && IsFor(log, id, typ, obj)
    ensures IsFor(log + [e], id, typ, obj)
  {
    if Puts(log + [e]) < TWO_64 {
      PutsPrefix(log + [e], |log|);
      HistoryGrows(log + [e], |log|);
      assert (log + [e])[..|log|] == log;
    }
  }

  /** A local step leaves the log alone and never undoes a hook on a known object. */
  ghost predicate LocalFrame(w: World, w': World, t: nat) {
    && w'.log == w.log
    && |w'.threads| == |w.threads|
    && (forall u: nat | u < |w.threads| && u != t :: w'.threads[u] == w.threads[u])
    && w.objs <= w'.objs
    && w.cancelled <= w'.cancelled
    && (forall o | o in w.objs && o in w'.files :: o in w.files)
  }

  lemma FrameKeepsStages(w: World, w': World, t: nat)
    requires LocalFrame(w, w', t)
    requires forall u: nat | u < |w.threads| :: StageRight(w, u)
    ensures forall u: nat | u < |w.threads| && u != t :: StageRight(w', u)
  {
    forall u: nat | u < |w.threads| && u != t
      ensures StageRight(w', u)
    {
      assert StageRight(w, u);
    }
  }

  lemma FrameKeepsHooks(w: World, w': World, t: nat)
    requires LocalFrame(w, w', t) && HooksBeforeRemovals(w)
    ensures HooksBeforeRemovals(w')
  {
    forall i: nat | i < |w'.log| && IsRemoval(w'.log[i]) && w'.log[i].op.FreeTyped? && HasHook(w'.log[i].op.typ)
      ensures exists obj ::
                && obj in w'.objs
                && HookRan(w', w'.log[i].op.typ, obj)
                && IsFor(w'.log, w'.log[i].op.id, w'.log[i].op.typ, obj)
    {
      var op := w.log[i].op;
      var obj :| obj in w.objs && HookRan(w, op.typ, obj) && IsFor(w.log, op.id, op.typ, obj);
      assert HookRan(w', w'.log[i].op.typ, obj);
    }
  }

  /** A local step that keeps what its thread carries keeps the accounting of events. */
  lemma FrameKeepsAccounts(w: World, w': World, t: nat)
    requires LocalFrame(w, w', t) && t < |w.threads|
    requires w'.rets == w.rets
    requires Pending(w'.threads[t]) == Pending(w.threads[t]) ||
             (Pending(w'.threads[t]).None? &&
              forall i: nat | i < |w.log| && IsRemoval(w.log[i]) :: Pending(w.threads[t]) != Some(i))
    requires RetsRight(w) && RemovalsReported(w)
    ensures RetsRight(w') && RemovalsReported(w')
  {
    forall i: nat | i < |w'.log| && IsRemoval(w'.log[i])
      ensures w'.log[i].tid < |w'.threads|
      ensures Pending(w'.threads[w'.log[i].tid]) == Some(i) || Reported(w', i)
    {
      if Reported(w, i) {
        var k: nat :| k < |w.rets| && w.rets[k].ev == i;
        assert w'.rets[k].ev == i;
      }
    }
  }

  lemma InvBegin(s: PState, t: nat, call: Call)
    requires Inv(s) && Enabled(s, Act(Begin(t, call)))
    ensures Inv(Next(s, Act(Begin(t, call))))
  {
    var s' := Next(s, Act(Begin(t, call)));
    assert LocalFrame(s.w, s'.w, t);
    FrameKeepsStages(s.w, s'.w, t);
    FrameKeepsHooks(s.w, s'.w, t);
    FrameKeepsAccounts(s.w, s'.w, t);
  }

  lemma InvHook(s: PState, t: nat)
    requires Inv(s) && t < |s.w.threads| && s.w.threads[t].Hooking?
    ensures Inv(Next(s, Act(Continue(t))))
  {
    var s' := Next(s, Act(Continue(t)));
    var Hooking(call, obj, pc, ev) := s.w.threads[t];
    assert StageRight(s.w, t);
    assert LocalFrame(s.w, s'.w, t);
    FrameKeepsStages(s.w, s'.w, t);
    FrameKeepsHooks(s.w, s'.w, t);
    FrameKeepsAccounts(s.w, s'.w, t);
    if Puts(s.w.log) < TWO_64 {
      GetReturnsWhatWasPut(s.w.log, ev);
    }
    assert StageRight(s'.w, t);
  }

  lemma InvAnswered(s: PState, t: nat)
    requires Inv(s) && t < |s.w.threads| && s.w.threads[t].Answered?
    ensures Inv(Next(s, Act(Continue(t))))
  {
    var s' := Next(s, Act(Continue(t)));
    var Answered(call, op, hooked, resp, ev) := s.w.threads[t];
    assert StageRight(s.w, t);
    assert AnsweredRight(s.w.log, ev);
    assert LocalFrame(s.w, s'.w, t);
    FrameKeepsStages(s.w, s'.w, t);
    FrameKeepsHooks(s.w, s'.w, t);
    FrameKeepsAccounts(s.w, s'.w, t);
    assert StageRight(s'.w, t);
  }

  lemma InvLeave(s: PState, t: nat)
    requires Inv(s) && t < |s.w.threads| && s.w.threads[t].Leaving?
    ensures Inv(Next(s, Act(Continue(t))))
  {
    var s' := Next(s, Act(Continue(t)));
    var w, w' := s.w, s'.w;
    var ev := w.threads[t].ev;
    assert StageRight(w, t);
    assert LocalFrame(w, w', t);
    FrameKeepsStages(w, w', t);
    FrameKeepsHooks(w, w', t);
    assert w'.rets[|w.rets|].ev == ev;
    forall i: nat | i < |w'.log| && IsRemoval(w'.log[i])
      ensures w'.log[i].tid < |w'.threads|
      ensures Pending(w'.threads[w'.log[i].tid]) == Some(i) || Reported(w', i)
    {
      if Reported(w, i) {
        var k: nat :| k < |w.rets| && w.rets[k].ev == i;
        assert w'.rets[k].ev == i;
      }
    }
  }

  lemma RegistryKeepsStages(s: PState, t: nat)
    requires Inv(s) && Enabled(s, Registry(t))
    ensures Consistent(Next(s, Registry(t)).w.log)
    ensures Next(s, Registry(t)).table == After(Next(s, Registry(t)).w.log)
    ensures forall u: nat | u < |Next(s, Registry(t)).w.threads| :: StageRight(Next(s, Registry(t)).w, u)
  {
    var s' := Next(s, Registry(t));
    var w, w' := s.w, s'.w;
    var e := w'.log[|w.log|];
    ConsistentExtend(w.log, e);
    forall u: nat | u < |w.threads|
      ensures StageRight(w', u)
    {
      assert StageRight(w, u);
      if (w.threads[u].Invoking? || w.threads[u].Answered?) && w.threads[u].hooked.Some? {
        IsForGrows(w.log, e, w.threads[u].call.id, w.threads[u].call.typ, w.threads[u].hooked.value);
      }
    }
  }

  lemma RegistryKeepsHooks(s: PState, t: nat)
    requires Inv(s) && Enabled(s, Registry(t))
    requires Consistent(Next(s, Registry(t)).w.log)
    ensures HooksBeforeRemovals(Next(s, Registry(t)).w)
  {
    var w, w' := s.w, Next(s, Registry(t)).w;
    var e := w'.log[|w.log|];
    forall i: nat | i < |w'.log| && IsRemoval(w'.log[i]) && w'.log[i].op.FreeTyped? && HasHook(w'.log[i].op.typ)
      ensures exists obj ::
                && obj in w'.objs
                && HookRan(w', w'.log[i].op.typ, obj)
                && IsFor(w'.log, w'.log[i].op.id, w'.log[i].op.typ, obj)
    {
      var op := w'.log[i].op;
      var obj: nat;
      if i < |w.log| {
        obj :| obj in w.objs && HookRan(w, op.typ, obj) && IsFor(w.log, op.id, op.typ, obj);
      } else {
        assert StageRight(w, t);
        obj := w.threads[t].hooked.value;
      }
      IsForGrows(w.log, e, op.id, op.typ, obj);
      assert HookRan(w', op.typ, obj);
    }
  }

  lemma RegistryKeepsAccounts(s: PState, t: nat)
    requires Inv(s) && Enabled(s, Registry(t))
    ensures RetsRight(Next(s, Registry(t)).w) && RemovalsReported(Next(s, Registry(t)).w)
  {
    var w, w' := s.w, Next(s, Registry(t)).w;
    forall i: nat | i < |w'.rets|
      ensures DecidedBy(w'.log, w'.rets[i].tid, w'.rets[i].call, w'.rets[i].code, w'.rets[i].ev)
    {
      assert DecidedBy(w.log, w.rets[i].tid, w.rets[i].call, w.rets[i].code, w.rets[i].ev);
    }
    forall i: nat | i < |w'.log| && IsRemoval(w'.log[i])
      ensures w'.log[i].tid < |w'.threads|
      ensures Pending(w'.threads[w'.log[i].tid]) == Some(i) || Reported(w', i)
    {
      if i < |w.log| && Reported(w, i) {
        var k: nat :| k < |w.rets| && w.rets[k].ev == i;
        assert w'.rets[k].ev == i;
      }
    }
  }

  lemma InvRegistry(s: PState, t: nat)
    requires Inv(s) && Enabled(s, Registry(t))
    ensures Inv(Next(s, Registry(t)))
  {
    assert StageRight(s.w, t);
    RegistryKeepsStages(s, t);
    RegistryKeepsHooks(s, t);
    RegistryKeepsAccounts(s, t);
  }

  lemma InvNext(s: PState, a: Action)
    requires Inv(s) && Enabled(s, a)
    ensures Inv(Next(s, a))
  {
    match a
    case Registry(t) => InvRegistry(s, t);
    case Act(Begin(t, call)) => InvBegin(s, t, call);
    case Act(Continue(t)) =>
      if s.w.threads[t].Hooking? {
        InvHook(s, t);
      } else if s.w.threads[t].Answered? {
        InvAnswered(s, t);
      } else {
        InvLeave(s, t);
      }
  }

  lemma {:induction false} InvExec(s: PState, acts: seq<Action>)
    requires Inv(s) && Runs(s, acts)
    ensures Inv(Exec(s, acts))
    decreases |acts|
  {
    if acts != [] {
      InvNext(s, acts[0]);
      InvExec(Next(s, acts[0]), acts[1..]);
    }
  }

  lemma InvInit(n: nat)
    ensures Inv(Init(n))
  {
  }

  // ---- Theorems about every reachable state -------------------------------

  ghost predicate Reachable(s: PState) {
    exists n: nat, acts: seq<Action> :: Runs(Init(n), acts) && Exec(Init(n), acts) == s
  }

  lemma ReachableInv(s: PState)
    requires Reachable(s)
    ensures Inv(s)
  {
    var n: nat, acts: seq<Action> :| Runs(Init(n), acts) && Exec(Init(n), acts) == s;
    InvInit(n);
    InvExec(Init(n), acts);
  }

  /** A returned free of `id` that succeeded. */
  ghost predicate Won(w: World, k: nat, id: nat) {
    k < |w.rets| && IsFree(w.rets[k].call) && w.rets[k].call.id == id && w.rets[k].code == OK
  }

  lemma WonByRemoval(s: PState, k: nat, id: nat)
    requires Inv(s) && Won(s.w, k, id)
    ensures var ev := s.w.rets[k].ev;
            ev < |s.w.log| && IsRemoval(s.w.log[ev]) && s.w.log[ev].op.id == id &&
            (s.w.rets[k].call.CFreeTyped? ==> s.w.log[ev].op == FreeTyped(id, s.w.rets[k].call.typ))
  {
    assert DecidedBy(s.w.log, s.w.rets[k].tid, s.w.rets[k].call, s.w.rets[k].code, s.w.rets[k].ev);
  }

  /** Of all frees of one handle, typed or generic, from any threads, at most one returns OK. */
  lemma AtMostOneFreeWins(s: PState, id: nat, j: nat, k: nat)
    requires Reachable(s) && Puts(s.w.log) < TWO_64
    requires Won(s.w, j, id) && Won(s.w, k, id)
    ensures j == k
  {
    ReachableInv(s);
    WonByRemoval(s, j, id);
    WonByRemoval(s, k, id);
    FreedAtMostOnce(s.w.log, s.w.rets[j].ev, s.w.rets[k].ev);
  }

  ghost predicate Quiet(w: World) {
    forall t: nat | t < |w.threads| :: w.threads[t].Idle?
  }

  lemma RemovalWins(s: PState, id: nat) returns (k: nat)
    requires Inv(s) && Quiet(s.w) && id in Released(s.w.log)
    ensures Won(s.w, k, id)
  {
    var i := ReleasedBySomeone(s.w.log, id);
    assert Pending(s.w.threads[s.w.log[i].tid]).None?;
    assert Reported(s.w, i);
    k :| k < |s.w.rets| && s.w.rets[k].ev == i;
    assert DecidedBy(s.w.log, s.w.rets[k].tid, s.w.rets[k].call, s.w.rets[k].code, i);
  }

  /** With every call returned, an issued handle is gone exactly when one free of it returned OK. */
  lemma GoneIffOneFreeWon(s: PState, id: nat)
    requires Reachable(s) && Puts(s.w.log) < TWO_64
    requires Quiet(s.w) && id in IssuedFor(s.w.log)
    ensures id !in s.table.entries <==> exists k: nat :: Won(s.w, k, id)
  {
    ReachableInv(s);
    TableShape(s.w.log);
    if id !in s.table.entries {
      var k := RemovalWins(s, id);
    }
    if k: nat :| Won(s.w, k, id) {
      WonByRemoval(s, k, id);
      RemovalReleases(s.w.log, s.w.rets[k].ev);
    }
  }

  /**
   If the winner is a typed free, the handle was of that type and its hook has run on the object it
   named: the context is cancelled, the config's temporary kubeconfig is gone. This holds in every
   reachable state with the removal in its log, so already in the one the removal leads to.
   */
  lemma TypedRemovalRanHook(s: PState, i: nat)
    requires Reachable(s) && Puts(s.w.log) < TWO_64
    requires i < |s.w.log| && IsRemoval(s.w.log[i]) && s.w.log[i].op.FreeTyped?
    ensures s.w.log[i].op.id in IssuedFor(s.w.log)
    ensures IssuedFor(s.w.log)[s.w.log[i].op.id].typ == s.w.log[i].op.typ
    ensures HookRan(s.w, s.w.log[i].op.typ, IssuedFor(s.w.log)[s.w.log[i].op.id].obj)
  {
    ReachableInv(s);
    RemovalReleases(s.w.log, i);
  }

  lemma TypedWinnerRanHook(s: PState, k: nat, id: nat)
    requires Reachable(s) && Puts(s.w.log) < TWO_64
    requires Won(s.w, k, id) && s.w.rets[k].call.CFreeTyped?
    ensures id in IssuedFor(s.w.log)
    ensures IssuedFor(s.w.log)[id].typ == s.w.rets[k].call.typ
    ensures HookRan(s.w, s.w.rets[k].call.typ, IssuedFor(s.w.log)[id].obj)
  {
    ReachableInv(s);
    WonByRemoval(s, k, id);
    TypedRemovalRanHook(s, s.w.rets[k].ev);
  }

  lemma WrongTypeIsWrong(log: seq<Event>, j: nat)
    requires Consistent(log) && Puts(log) < TWO_64
    requires j < |log| && log[j].resp.WrongType?
    ensures log[j].op.Get? || log[j].op.FreeTyped?
    ensures log[j].op.id in IssuedFor(log) && IssuedFor(log)[log[j].op.id].typ != log[j].op.typ
  {
    assert AnsweredRight(log, j);
    ConsistentPrefix(log, j);
    PutsPrefix(log, j);
    TableShape(log[..j]);
    HistoryGrows(log, j);
  }

  /** A generic or correctly typed free that does not win is told INVALID_HANDLE, nothing else. */
  lemma LoserIsToldInvalid(s: PState, k: nat)
    requires Reachable(s) && Puts(s.w.log) < TWO_64
    requires k < |s.w.rets| && IsFree(s.w.rets[k].call)
    requires s.w.rets[k].call.CFreeTyped? && s.w.rets[k].call.id in IssuedFor(s.w.log) ==>
               IssuedFor(s.w.log)[s.w.rets[k].call.id].typ == s.w.rets[k].call.typ
    ensures s.w.rets[k].code == OK || s.w.rets[k].code == InvalidHandle
  {
    ReachableInv(s);
    var r := s.w.rets[k];
    assert DecidedBy(s.w.log, r.tid, r.call, r.code, r.ev);
    if s.w.log[r.ev].resp.WrongType? {
      WrongTypeIsWrong(s.w.log, r.ev);
    }
  }

  /** A free through the wrong type never returns OK, and no event of it ever removes the entry. */
  lemma WrongTypedFreeRemovesNothing(s: PState, id: nat, typ: HType)
    requires Reachable(s) && Puts(s.w.log) < TWO_64
    requires id in IssuedFor(s.w.log) && IssuedFor(s.w.log)[id].typ != typ
    ensures forall i: nat | i < |s.w.log| && s.w.log[i].op == FreeTyped(id, typ) :: !IsRemoval(s.w.log[i])
    ensures forall k: nat | k < |s.w.rets| && s.w.rets[k].call == CFreeTyped(id, typ) :: s.w.rets[k].code != OK
  {
    ReachableInv(s);
    forall i: nat | i < |s.w.log| && s.w.log[i].op == FreeTyped(id, typ)
      ensures !IsRemoval(s.w.log[i])
    {
      if IsRemoval(s.w.log[i]) {
        RemovalReleases(s.w.log, i);
      }
    }
    forall k: nat | k < |s.w.rets| && s.w.rets[k].call == CFreeTyped(id, typ)
      ensures s.w.rets[k].code != OK
    {
      if s.w.rets[k].code == OK {
        WonByRemoval(s, k, id);
        RemovalReleases(s.w.log, s.w.rets[k].ev);
      }
    }
  }

  // ---- What the generic free leaves behind --------------------------------

  /** Some thread or table entry can still lead to `obj`. */
  ghost predicate StageHolds(st: Stage, obj: nat) {
    match st
    case Idle => false
    case Invoking(call, op, _) => op.Put? && op.obj == obj
    case Answered(_, _, _, resp, _) => resp == Object(obj)
    case Hooking(_, o, _, _) => o == obj
    case Leaving(_, _, _) => false
  }

  ghost predicate Orphaned(s: PState, obj: nat) {
    && obj in s.w.objs
    && (forall id | id in s.table.entries :: s.table.entries[id].obj != obj)
    && (forall t: nat | t < |s.w.threads| :: !StageHolds(s.w.threads[t], obj))
  }

  lemma OrphanNext(s: PState, a: Action, obj: nat)
    requires Inv(s) && Enabled(s, a) && Orphaned(s, obj)
    ensures Orphaned(Next(s, a), obj)
    ensures obj in Next(s, a).w.cancelled <==> obj in s.w.cancelled
    ensures obj in Next(s, a).w.files <==> obj in s.w.files
  {
    match a
    case Registry(t) => assert !StageHolds(s.w.threads[t], obj);
    case Act(l) => OrphanLocal(s, l, obj);
  }

  lemma OrphanLocal(s: PState, l: Local, obj: nat)
    requires Inv(s) && Enabled(s, Act(l)) && Orphaned(s, obj)
    ensures Orphaned(Next(s, Act(l)), obj)
    ensures obj in Next(s, Act(l)).w.cancelled <==> obj in s.w.cancelled
    ensures obj in Next(s, Act(l)).w.files <==> obj in s.w.files
  {
    assert !StageHolds(s.w.threads[l.t], obj);
    assert StageRight(s.w, l.t);
  }

  /** Nothing any thread does later cancels an orphaned context or removes an orphaned config's file. */
  lemma {:induction false} OrphanStays(s: PState, acts: seq<Action>, obj: nat)
    requires Inv(s) && Orphaned(s, obj) && Runs(s, acts)
    ensures Orphaned(Exec(s, acts), obj)
    ensures obj in Exec(s, acts).w.cancelled <==> obj in s.w.cancelled
    ensures obj in Exec(s, acts).w.files <==> obj in s.w.files
    decreases |acts|
  {
    if acts != [] {
      OrphanNext(s, acts[0], obj);
      InvNext(s, acts[0]);
      OrphanStays(Next(s, acts[0]), acts[1..], obj);
    }
  }

  /** Each object is put once, so no two ids and no pending Put share one. */
  ghost predicate PutOnce(s: PState) {
    && (forall i, j | i in s.table.entries && j in s.table.entries && i != j ::
          s.table.entries[i].obj != s.table.entries[j].obj)
    && (forall t: nat | t < |s.w.threads| && s.w.threads[t].Invoking? && s.w.threads[t].op.Put? ::
          && s.w.threads[t].op.obj in s.w.objs
          && (forall id | id in s.table.entries :: s.table.entries[id].obj != s.w.threads[t].op.obj))
    && (forall t: nat, u: nat | t < u < |s.w.threads| &&
          s.w.threads[t].Invoking? && s.w.threads[u].Invoking? && s.w.threads[t].op.Put? && s.w.threads[u].op.Put? ::
          s.w.threads[t].op.obj != s.w.threads[u].op.obj)
  }

  lemma PutOnceNext(s: PState, a: Action)
    requires Inv(s) && PutOnce(s) && Enabled(s, a)
    ensures PutOnce(Next(s, a))
  {
    match a
    case Registry(t) => assert StageRight(s.w, t);
    case Act(l) => PutOnceLocal(s, l);
  }

  lemma PutOnceLocal(s: PState, l: Local)
    requires Inv(s) && PutOnce(s) && Enabled(s, Act(l))
    ensures PutOnce(Next(s, Act(l)))
  {
    assert StageRight(s.w, l.t);
  }

  lemma {:induction false} PutOnceExec(s: PState, acts: seq<Action>)
    requires Inv(s) && PutOnce(s) && Runs(s, acts)
    ensures PutOnce(Exec(s, acts))
    decreases |acts|
  {
    if acts != [] {
      PutOnceNext(s, acts[0]);
      InvNext(s, acts[0]);
      PutOnceExec(Next(s, acts[0]), acts[1..]);
    }
  }

  // ---- The fate of a removed handle's object ------------------------------

  /** The thread is on its way into `cancel()` of this object, or at it. */
  predicate WillCancel(st: Stage, obj: nat) {
    || (st.Answered? && st.resp == Object(obj) && EntersHook(st.call, st.hooked, st.resp) &&
        FirstHookPc(st.call).Cancelling?)
    || (st.Hooking? && st.obj == obj && st.pc.Cancelling?)
  }

  /** The thread is on its way into Close of this object, and has not removed the file yet. */
  predicate WillClose(st: Stage, obj: nat) {
    || (st.Answered? && st.resp == Object(obj) && EntersHook(st.call, st.hooked, st.resp) &&
        FirstHookPc(st.call).CloseTest?)
    || (st.Hooking? && st.obj == obj && (st.pc.CloseTest? || st.pc.CloseRemove?))
  }

  predicate WillHook(st: Stage, typ: HType, obj: nat) {
    (typ.TContext? && WillCancel(st, obj)) || (typ.TConfig? && WillClose(st, obj))
  }

  ghost predicate SomeCancels(w: World, obj: nat) {
    exists u: nat :: u < |w.threads| && WillCancel(w.threads[u], obj)
  }

  ghost predicate SomeCloses(w: World, obj: nat) {
    exists u: nat :: u < |w.threads| && WillClose(w.threads[u], obj)
  }

  /** No table entry leads to the object, and none ever will again. */
  ghost predicate Detached(s: PState, obj: nat) {
    && obj in s.w.objs
    && (forall id | id in s.table.entries :: s.table.entries[id].obj != obj)
    && (forall t: nat | t < |s.w.threads| && s.w.threads[t].Invoking? && s.w.threads[t].op.Put? ::
          s.w.threads[t].op.obj != obj)
  }

  lemma DetachedNext(s: PState, a: Action, obj: nat)
    requires Inv(s) && Enabled(s, a) && Detached(s, obj)
    ensures Detached(Next(s, a), obj)
  {
    match a
    case Registry(t) =>
    case Act(l) => assert StageRight(s.w, l.t);
  }

  /** Once detached, an object is or will be cancelled exactly if it was or would be before the step. */
  lemma CancelFateNext(s: PState, a: Action, obj: nat)
    requires Inv(s) && Enabled(s, a) && Detached(s, obj)
    ensures obj in Next(s, a).w.cancelled || SomeCancels(Next(s, a).w, obj) <==>
            obj in s.w.cancelled || SomeCancels(s.w, obj)
  {
    var t := match a case Act(l) => l.t case Registry(t) => t;
    var s' := Next(s, a);
    CancelFateOfThread(s, a, t, obj);
    if u: nat :| u < |s.w.threads| && u != t && WillCancel(s.w.threads[u], obj) {
      assert WillCancel(s'.w.threads[u], obj);
    }
    if u: nat :| u < |s'.w.threads| && u != t && WillCancel(s'.w.threads[u], obj) {
      assert WillCancel(s.w.threads[u], obj);
    }
  }

  lemma CancelFateOfThread(s: PState, a: Action, t: nat, obj: nat)
    requires Inv(s) && Enabled(s, a) && Detached(s, obj)
    requires t == match a case Act(l) => l.t case Registry(t) => t
    ensures |Next(s, a).w.threads| == |s.w.threads|
    ensures forall u: nat | u < |s.w.threads| && u != t :: Next(s, a).w.threads[u] == s.w.threads[u]
    ensures s.w.cancelled <= Next(s, a).w.cancelled
    ensures obj in Next(s, a).w.cancelled || WillCancel(Next(s, a).w.threads[t], obj) <==>
            obj in s.w.cancelled || WillCancel(s.w.threads[t], obj)
  {
    match a
    case Registry(_) =>
    case Act(l) => assert StageRight(s.w, t);
  }

  lemma CloseFateNext(s: PState, a: Action, obj: nat)
    requires Inv(s) && Enabled(s, a) && Detached(s, obj)
    ensures obj !in Next(s, a).w.files || SomeCloses(Next(s, a).w, obj) <==>
            obj !in s.w.files || SomeCloses(s.w, obj)
  {
    var t := match a case Act(l) => l.t case Registry(t) => t;
    var s' := Next(s, a);
    CloseFateOfThread(s, a, t, obj);
    if u: nat :| u < |s.w.threads| && u != t && WillClose(s.w.threads[u], obj) {
      assert WillClose(s'.w.threads[u], obj);
    }
    if u: nat :| u < |s'.w.threads| && u != t && WillClose(s'.w.threads[u], obj) {
      assert WillClose(s.w.threads[u], obj);
    }
  }

  lemma CloseFateOfThread(s: PState, a: Action, t: nat, obj: nat)
    requires Inv(s) && Enabled(s, a) && Detached(s, obj)
    requires t == match a case Act(l) => l.t case Registry(t) => t
    ensures |Next(s, a).w.threads| == |s.w.threads|
    ensures forall u: nat | u < |s.w.threads| && u != t :: Next(s, a).w.threads[u] == s.w.threads[u]
    ensures obj in Next(s, a).w.files ==> obj in s.w.files
    ensures obj !in Next(s, a).w.files || WillClose(Next(s, a).w.threads[t], obj) <==>
            obj !in s.w.files || WillClose(s.w.threads[t], obj)
  {
    match a
    case Registry(_) =>
    case Act(l) => assert StageRight(s.w, t);
  }

  lemma {:induction false} FateExec(s: PState, acts: seq<Action>, obj: nat)
    requires Inv(s) && Detached(s, obj) && Runs(s, acts)
    ensures obj in Exec(s, acts).w.cancelled || SomeCancels(Exec(s, acts).w, obj) <==>
            obj in s.w.cancelled || SomeCancels(s.w, obj)
    ensures obj !in Exec(s, acts).w.files || SomeCloses(Exec(s, acts).w, obj) <==>
            obj !in s.w.files || SomeCloses(s.w, obj)
    decreases |acts|
  {
    if acts != [] {
      InvNext(s, acts[0]);
      DetachedNext(s, acts[0], obj);
      CancelFateNext(s, acts[0], obj);
      CloseFateNext(s, acts[0], obj);
      FateExec(Next(s, acts[0]), acts[1..], obj);
    }
  }

  /** Thread `t` is about to remove the entry `e`. */
  ghost predicate Removes(s: PState, t: nat, e: Entry) {
    && Enabled(s, Registry(t))
    && var op := s.w.threads[t].op;
       && (op.Free? || op.FreeTyped?)
       && op.id in s.table.entries
       && s.table.entries[op.id] == e
       && (op.FreeTyped? ==> op.typ == e.typ)
  }

  ghost predicate RemovesGenerically(s: PState, t: nat, e: Entry) {
    Removes(s, t, e) && s.w.threads[t].op.Free?
  }

  lemma RemovalDetaches(s: PState, t: nat, e: Entry)
    requires Reachable(s) && Removes(s, t, e)
    ensures Inv(s) && Inv(Next(s, Registry(t)))
    ensures Detached(Next(s, Registry(t)), e.obj)
  {
    ReachableInv(s);
    InvNext(s, Registry(t));
    var n: nat, acts: seq<Action> :| Runs(Init(n), acts) && Exec(Init(n), acts) == s;
    InvInit(n);
    PutOnceExec(Init(n), acts);
    var s' := Next(s, Registry(t));
    var id := s.w.threads[t].op.id;
    assert s'.table.entries == s.table.entries - {id};
  }

  lemma RemovalMovesNoHook(s: PState, t: nat, e: Entry)
    requires Removes(s, t, e)
    ensures var w, w' := s.w, Next(s, Registry(t)).w;
            && w'.cancelled == w.cancelled && w'.files == w.files
            && (SomeCancels(w', e.obj) <==> SomeCancels(w, e.obj))
            && (SomeCloses(w', e.obj) <==> SomeCloses(w, e.obj))
  {
    var w, w' := s.w, Next(s, Registry(t)).w;
    assert forall u: nat | u < |w.threads| && u != t :: w'.threads[u] == w.threads[u];
    assert w'.threads[t].Answered? && w'.threads[t].resp == Freed && w.threads[t].Invoking?;
  }

  /**
   The generic free, at any moment, whatever the other threads have in hand: once nobody is on the way into
   a hook on the object any more, the context is cancelled, or the file gone, exactly if it was when the
   handle was removed or some thread was then on its way into that hook. The free itself adds nothing.
   */
  lemma GenericFreeOrphans(s: PState, t: nat, e: Entry, acts: seq<Action>)
    requires Reachable(s) && RemovesGenerically(s, t, e)
    requires Runs(Next(s, Registry(t)), acts)
    ensures var end := Exec(Next(s, Registry(t)), acts);
            && (!SomeCancels(end.w, e.obj) ==>
                  (e.obj in end.w.cancelled <==> e.obj in s.w.cancelled || SomeCancels(s.w, e.obj)))
            && (!SomeCloses(end.w, e.obj) ==>
                  (e.obj !in end.w.files <==> e.obj !in s.w.files || SomeCloses(s.w, e.obj)))
  {
    RemovalDetaches(s, t, e);
    RemovalMovesNoHook(s, t, e);
    FateExec(Next(s, Registry(t)), acts, e.obj);
  }

  ghost predicate SomeHooks(w: World, typ: HType, obj: nat) {
    exists u: nat :: u < |w.threads| && WillHook(w.threads[u], typ, obj)
  }

  lemma SomeHooksIs(w: World, typ: HType, obj: nat)
    ensures typ.TContext? ==> (SomeHooks(w, typ, obj) <==> SomeCancels(w, obj))
    ensures typ.TConfig? ==> (SomeHooks(w, typ, obj) <==> SomeCloses(w, obj))
  {
  }

  lemma TypedRemoverHasRunHook(s: PState, t: nat, e: Entry)
    requires Inv(s) && Removes(s, t, e) && s.w.threads[t].op.FreeTyped? && HasHook(e.typ)
    requires Puts(s.w.log) < TWO_64
    ensures HookRan(s.w, e.typ, e.obj)
  {
    assert StageRight(s.w, t);
    TableShape(s.w.log);
  }

  /**
   Typed and generic frees together. Let any free remove a context or a config. Once nobody is on the way
   into its hook any more, the hook's effect is there exactly if the free was the typed one, or the effect
   was there already, or another thread was on its way into the hook.
   */
  lemma RemovalLeavesHookRunIff(s: PState, t: nat, e: Entry, acts: seq<Action>)
    requires Reachable(s) && Removes(s, t, e) && HasHook(e.typ) && Puts(s.w.log) < TWO_64
    requires Runs(Next(s, Registry(t)), acts)
    requires !SomeHooks(Exec(Next(s, Registry(t)), acts).w, e.typ, e.obj)
    ensures HookRan(Exec(Next(s, Registry(t)), acts).w, e.typ, e.obj) <==>
            || s.w.threads[t].call.CFreeTyped?
            || HookRan(s.w, e.typ, e.obj)
            || SomeHooks(s.w, e.typ, e.obj)
  {
    RemovalDetaches(s, t, e);
    RemovalMovesNoHook(s, t, e);
    FateExec(Next(s, Registry(t)), acts, e.obj);
    SomeHooksIs(s.w, e.typ, e.obj);
    SomeHooksIs(Exec(Next(s, Registry(t)), acts).w, e.typ, e.obj);
    assert StageRight(s.w, t);
    if s.w.threads[t].op.FreeTyped? {
      TypedRemoverHasRunHook(s, t, e);
    }
  }

  /** In particular, if no other call has the object in hand, it stays for ever as the generic free found it. */
  lemma UnusedStaysAsItWas(s: PState, t: nat, e: Entry, acts: seq<Action>)
    requires Reachable(s) && Removes(s, t, e) && s.w.threads[t].call.CFree?
    requires forall u: nat | u < |s.w.threads| :: !StageHolds(s.w.threads[u], e.obj)
    requires Runs(Next(s, Registry(t)), acts)
    ensures var end := Exec(Next(s, Registry(t)), acts);
            && (e.obj in end.w.cancelled <==> e.obj in s.w.cancelled)
            && (e.obj in end.w.files <==> e.obj in s.w.files)
  {
    RemovalDetaches(s, t, e);
    assert Orphaned(Next(s, Registry(t)), e.obj);
    OrphanStays(Next(s, Registry(t)), acts, e.obj);
  }

  // ---- A run of the generic free ------------------------------------------

  lemma {:induction false} RunsSnoc(s: PState, acts: seq<Action>, a: Action)
    requires Runs(s, acts) && Enabled(Exec(s, acts), a)
    ensures Runs(s, acts + [a]) && Exec(s, acts + [a]) == Next(Exec(s, acts), a)
    decreases |acts|
  {
    if acts == [] {
      assert acts + [a] == [a];
    } else {
      RunsSnoc(Next(s, acts[0]), acts[1..], a);
      assert (acts + [a])[1..] == acts[1..] + [a];
    }
  }

  lemma Go(s: PState, a: Action) returns (s': PState)
    requires Reachable(s) && Enabled(s, a)
    ensures Reachable(s') && s' == Next(s, a)
  {
    var n: nat, acts: seq<Action> :| Runs(Init(n), acts) && Exec(Init(n), acts) == s;
    RunsSnoc(Init(n), acts, a);
    s' := Next(s, a);
  }

  /** A call that is one registry operation, run undisturbed on thread 0. */
  lemma OneOperation(s: PState, call: Call) returns (s': PState)
    requires Reachable(s) && |s.w.threads| == 1 && Enabled(s, Act(Begin(0, call)))
    requires call.CPut? || call.CFree?
    ensures Reachable(s') && s'.w.threads == s.w.threads
    ensures var op := OpOf(call, None);
            var r := Apply(s.table, op);
            && s'.table == r.0
            && s'.w == BeginStep(s.w, 0, call).(threads := s.w.threads,
                                                log := s.w.log + [Event(0, op, r.1)],
                                                rets := s.w.rets + [Ret(0, call, CodeOf(r.1), |s.w.log|)])
  {
    s' := Go(s, Act(Begin(0, call)));
    s' := Go(s', Registry(0));
    s' := AnsweredToIdle(s');
  }

  lemma AnsweredToIdle(s: PState) returns (s': PState)
    requires Reachable(s) && |s.w.threads| == 1 && s.w.threads[0].Answered?
    requires s.w.threads[0].call.CPut? || s.w.threads[0].call.CFree?
    ensures Reachable(s') && s'.table == s.table
    ensures var st := s.w.threads[0];
            s'.w == s.w.(threads := [Idle], rets := s.w.rets + [Ret(0, st.call, CodeOf(st.resp), st.ev)])
  {
    s' := Go(s, Act(Continue(0)));
    s' := Go(s', Act(Continue(0)));
  }

  /**
   The generic free returns OK and leaves no live handle, with the context never cancelled or the
   temporary kubeconfig still on disk; by `UnusedStaysAsItWas` no later call can put that right.
   */
  lemma GenericFreeSkipsHook(typ: HType, obj: nat) returns (s: PState)
    requires HasHook(typ)
    ensures Reachable(s) && Quiet(s.w) && s.table.entries == map[]
    ensures |s.w.rets| == 2 && s.w.rets[1].call == CFree(1) && s.w.rets[1].code == OK
    ensures typ.TContext? ==> obj !in s.w.cancelled
    ensures typ.TConfig? ==> obj in s.w.files
  {
    assert Runs(Init(1), []) && Exec(Init(1), []) == Init(1);
    s := OneOperation(Init(1), CPut(typ, obj, true));
    s := OneOperation(s, CFree(1));
  }
}
