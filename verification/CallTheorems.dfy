/**
 What a call that has returned did, told from its arguments and its code alone: its code against the table
 it met, its effect on the object behind the handle, and that no object is affected by anything else.
 */
module CallTheorems {
  import opened Prelude
  import opened HandleTable
  import opened FreeProtocol
  import opened FreeTheorems

  // ---- Codes --------------------------------------------------------------

  /** The code of an operation that needs `id` to be live and a `typ`. */
  ghost predicate LookupCode(entries: map<nat, Entry>, id: nat, typ: HType, code: Code) {
    && (code == OK <==> id in entries && entries[id].typ == typ)
    && (code == InvalidHandle <==> id !in entries)
    && (code == WrongHandleType <==> id in entries && entries[id].typ != typ)
  }

  /** `before` and `after` are the table around the operation that decided the call. */
  ghost predicate CodeMeans(before: Table, after: Table, call: Call, code: Code) {
    match call
    case CPut(typ, obj, _) =>
      && code == OK
      && after.nextID == Bump(before.nextID)
      && after.entries == before.entries[after.nextID := Entry(typ, obj)]
    case CGet(id, typ) => LookupCode(before.entries, id, typ, code) && after == before
    case CCancel(id) => LookupCode(before.entries, id, TContext, code) && after == before
    case CCount => code == OK && after == before
    case CFree(id) =>
      && (code == OK <==> id in before.entries)
      && (code == InvalidHandle <==> id !in before.entries)
      && after == before.(entries := before.entries - {id})
    case CFreeTyped(id, typ) =>
      && LookupCode(before.entries, id, typ, code)
      && after == if code == OK then before.(entries := before.entries - {id}) else before
  }

  /** Every returned call's code, and what it did to the table, are those the table at its event calls for. */
  lemma CodesMeanWhatTheySay(s: PState, k: nat)
    requires Reachable(s) && k < |s.w.rets|
    ensures var r := s.w.rets[k];
            && r.ev < |s.w.log|
            && s.w.log[r.ev].tid == r.tid
            && CodeMeans(After(s.w.log[..r.ev]), After(s.w.log[..r.ev + 1]), r.call, r.code)
  {
    ReachableInv(s);
    var r := s.w.rets[k];
    assert DecidedBy(s.w.log, r.tid, r.call, r.code, r.ev);
    assert AnsweredRight(s.w.log, r.ev);
    assert s.w.log[..r.ev + 1][..r.ev] == s.w.log[..r.ev];
    CodeOfAnswer(After(s.w.log[..r.ev]), r.call, r.code, s.w.log[r.ev]);
  }

  lemma CodeOfAnswer(t: Table, call: Call, code: Code, e: Event)
    requires e.resp == Apply(t, e.op).1 && code == CodeOf(e.resp)
    requires e.op == OpOf(call, None) || (TwoPhase(call) && e.op == FreeTyped(call.id, call.typ))
    requires IsFree(call) && code == OK ==> IsRemoval(e)
    ensures CodeMeans(t, Apply(t, e.op).0, call, code)
  {
    if call.CFree? && call.id !in t.entries {
      RemovingNothing(t, call);
    }
  }

  lemma RemovingNothing(t: Table, call: Call)
    requires call.CFree? && call.id !in t.entries
    ensures t.(entries := t.entries - {call.id}) == t
  {
    assert t.entries - {call.id} == t.entries;
  }

  // ---- Calls made so far --------------------------------------------------

  function CallOf(st: Stage): Option<Call> {
    match st
    case Idle => None
    case Invoking(call, _, _) => Some(call)
    case Answered(call, _, _, _, _) => Some(call)
    case Hooking(call, _, _, _) => Some(call)
    case Leaving(call, _, _) => Some(call)
  }

  /** The call is in flight or has returned. */
  ghost predicate Made(w: World, call: Call) {
    || (exists t: nat :: t < |w.threads| && CallOf(w.threads[t]) == Some(call))
    || (exists k: nat :: k < |w.rets| && w.rets[k].call == call)
  }

  function ThreadOf(a: Action): nat {
    match a
    case Act(l) => l.t
    case Registry(t) => t
  }

  /** A step leaves its thread in the same call, begins one, or returns it. */
  lemma StepKeepsCall(s: PState, a: Action)
    requires Inv(s) && Enabled(s, a)
    ensures var w, w', t := s.w, Next(s, a).w, ThreadOf(a);
            && |w'.threads| == |w.threads|
            && (forall u: nat | u < |w.threads| && u != t :: w'.threads[u] == w.threads[u])
            && (if a.Act? && a.a.Begin?
                then w'.rets == w.rets && CallOf(w.threads[t]).None? && CallOf(w'.threads[t]) == Some(a.a.call)
                else if w'.threads[t].Idle?
                then |w'.rets| == |w.rets| + 1 && w.rets <= w'.rets &&
                     CallOf(w.threads[t]) == Some(w'.rets[|w.rets|].call)
                else w'.rets == w.rets && CallOf(w'.threads[t]) == CallOf(w.threads[t]))
  {
    assert StageRight(s.w, ThreadOf(a));
  }

  lemma MadeStays(s: PState, a: Action, call: Call)
    requires Inv(s) && Enabled(s, a)
    requires Made(s.w, call) || (a.Act? && a.a.Begin? && a.a.call == call)
    ensures Made(Next(s, a).w, call)
  {
    var w, w', t := s.w, Next(s, a).w, ThreadOf(a);
    StepKeepsCall(s, a);
    if k: nat :| k < |w.rets| && w.rets[k].call == call {
      assert w'.rets[k].call == call;
    } else if a.Act? && a.a.Begin? && a.a.call == call {
      assert CallOf(w'.threads[t]) == Some(call);
    } else {
      var u: nat :| u < |w.threads| && CallOf(w.threads[u]) == Some(call);
      if u == t && w'.threads[t].Idle? {
        assert w'.rets[|w.rets|].call == call;
      } else {
        assert CallOf(w'.threads[u]) == Some(call);
      }
    }
  }

  lemma MadeBefore(s: PState, a: Action, call: Call)
    requires Inv(s) && Enabled(s, a) && Made(Next(s, a).w, call)
    ensures Made(s.w, call) || (a.Act? && a.a.Begin? && a.a.call == call)
  {
    var w, w', t := s.w, Next(s, a).w, ThreadOf(a);
    StepKeepsCall(s, a);
    if u: nat :| u < |w'.threads| && CallOf(w'.threads[u]) == Some(call) {
      assert CallOf(w.threads[u]) == Some(call) || (a.Act? && a.a.Begin? && a.a.call == call);
    } else {
      var k: nat :| k < |w'.rets| && w'.rets[k].call == call;
      if k < |w.rets| {
        assert w.rets[k].call == call;
      } else {
        assert CallOf(w.threads[t]) == Some(call);
      }
    }
  }

  lemma MadeNext(s: PState, a: Action, call: Call)
    requires Inv(s) && Enabled(s, a)
    ensures Made(Next(s, a).w, call) <==> Made(s.w, call) || (a.Act? && a.a.Begin? && a.a.call == call)
  {
    if Made(Next(s, a).w, call) {
      MadeBefore(s, a, call);
    } else if Made(s.w, call) || (a.Act? && a.a.Begin? && a.a.call == call) {
      MadeStays(s, a, call);
    }
  }

  lemma IsForNext(s: PState, a: Action, id: nat, typ: HType, obj: nat)
    requires Inv(s) && Enabled(s, a) && IsFor(s.w.log, id, typ, obj)
    ensures IsFor(Next(s, a).w.log, id, typ, obj)
  {
    InvNext(s, a);
    match a
    case Act(l) => LocalStepKeepsLog(s.w, l);
    case Registry(t) => IsForGrows(s.w.log, Next(s, a).w.log[|s.w.log|], id, typ, obj);
  }

  lemma LocalStepKeepsLog(w: World, l: Local)
    requires LocalEnabled(w, l)
    ensures LocalStep(w, l).log == w.log
  {
  }

  // ---- Cancellation -------------------------------------------------------

  /** Calls of helm_context_cancel or helm_context_free on a handle of this context. */
  ghost predicate CancelCalled(w: World, obj: nat) {
    exists id: nat ::
      (Made(w, CCancel(id)) || Made(w, CFreeTyped(id, TContext))) && IsFor(w.log, id, TContext, obj)
  }

  ghost predicate CancelledByCalls(w: World) {
    forall obj | obj in w.cancelled :: CancelCalled(w, obj)
  }

  lemma CancelCalledNext(s: PState, a: Action, obj: nat)
    requires Inv(s) && Enabled(s, a) && CancelCalled(s.w, obj)
    ensures CancelCalled(Next(s, a).w, obj)
  {
    var id: nat :|
      (Made(s.w, CCancel(id)) || Made(s.w, CFreeTyped(id, TContext))) && IsFor(s.w.log, id, TContext, obj);
    MadeNext(s, a, CCancel(id));
    MadeNext(s, a, CFreeTyped(id, TContext));
    IsForNext(s, a, id, TContext, obj);
  }

  /** The hook of a call runs on the object its handle was issued for. */
  lemma HookIsOnItsObject(s: PState, t: nat)
    requires Inv(s) && t < |s.w.threads| && s.w.threads[t].Hooking?
    ensures var Hooking(call, obj, pc, _) := s.w.threads[t];
            && Made(s.w, call)
            && (pc.Cancelling? ==> (call.CCancel? || (call.CFreeTyped? && call.typ == TContext)) &&
                                   IsFor(s.w.log, call.id, TContext, obj))
            && (!pc.Cancelling? ==> call.CFreeTyped? && call.typ == TConfig && IsFor(s.w.log, call.id, TConfig, obj))
  {
    assert StageRight(s.w, t);
    assert CallOf(s.w.threads[t]) == Some(s.w.threads[t].call);
    if Puts(s.w.log) < TWO_64 {
      GetReturnsWhatWasPut(s.w.log, s.w.threads[t].ev);
    }
  }

  /** A step cancels nothing but the object of a cancelling hook. */
  lemma CancelledGrowsBy(s: PState, a: Action, obj: nat)
    requires Inv(s) && Enabled(s, a) && obj in Next(s, a).w.cancelled && obj !in s.w.cancelled
    ensures var st := s.w.threads[ThreadOf(a)];
            st.Hooking? && st.pc.Cancelling? && st.obj == obj
  {
  }

  lemma CancelledByCallsNext(s: PState, a: Action)
    requires Inv(s) && Enabled(s, a) && CancelledByCalls(s.w)
    ensures CancelledByCalls(Next(s, a).w)
  {
    forall obj | obj in Next(s, a).w.cancelled
      ensures CancelCalled(Next(s, a).w, obj)
    {
      if obj !in s.w.cancelled {
        CancelledGrowsBy(s, a, obj);
        HookIsOnItsObject(s, ThreadOf(a));
      }
      CancelCalledNext(s, a, obj);
    }
  }

  /** Between its hook and its return, and afterwards, a successful cancel has cancelled what its event found. */
  ghost predicate CancelDone(w: World, call: Call, code: Code, ev: nat) {
    call.CCancel? && code == OK ==>
      ev < |w.log| && w.log[ev].op == Get(call.id, TContext) && w.log[ev].resp.Object? &&
      w.log[ev].resp.obj in w.cancelled
  }

  ghost predicate CancelsDone(w: World) {
    && (forall t: nat | t < |w.threads| && w.threads[t].Leaving? ::
          CancelDone(w, w.threads[t].call, w.threads[t].code, w.threads[t].ev))
    && (forall k: nat | k < |w.rets| :: CancelDone(w, w.rets[k].call, w.rets[k].code, w.rets[k].ev))
  }

  lemma CancelDoneStays(s: PState, a: Action, call: Call, code: Code, ev: nat)
    requires Inv(s) && Enabled(s, a) && CancelDone(s.w, call, code, ev)
    ensures CancelDone(Next(s, a).w, call, code, ev)
  {
  }

  lemma CancelDoneOnLeaving(s: PState, a: Action)
    requires Inv(s) && Enabled(s, a)
    requires var st := Next(s, a).w.threads[ThreadOf(a)]; st.Leaving?
    ensures var st := Next(s, a).w.threads[ThreadOf(a)];
            CancelDone(Next(s, a).w, st.call, st.code, st.ev)
  {
    var t := ThreadOf(a);
    assert StageRight(s.w, t);
    if s.w.threads[t].Answered? {
      assert AnsweredRight(s.w.log, s.w.threads[t].ev);
    }
  }

  lemma CancelsDoneNext(s: PState, a: Action)
    requires Inv(s) && Enabled(s, a) && CancelsDone(s.w)
    ensures CancelsDone(Next(s, a).w)
  {
    var w, w' := s.w, Next(s, a).w;
    StepKeepsCall(s, a);
    forall t: nat | t < |w'.threads| && w'.threads[t].Leaving?
      ensures CancelDone(w', w'.threads[t].call, w'.threads[t].code, w'.threads[t].ev)
    {
      if t == ThreadOf(a) {
        CancelDoneOnLeaving(s, a);
      } else {
        CancelDoneStays(s, a, w.threads[t].call, w.threads[t].code, w.threads[t].ev);
      }
    }
    forall k: nat | k < |w'.rets|
      ensures CancelDone(w', w'.rets[k].call, w'.rets[k].code, w'.rets[k].ev)
    {
      if k < |w.rets| {
        CancelDoneStays(s, a, w.rets[k].call, w.rets[k].code, w.rets[k].ev);
      } else {
        var st := w.threads[ThreadOf(a)];
        CancelDoneStays(s, a, st.call, st.code, st.ev);
      }
    }
  }

  // ---- Temporary kubeconfigs ----------------------------------------------

  ghost predicate CloseCalled(w: World, obj: nat) {
    exists id: nat :: Made(w, CFreeTyped(id, TConfig)) && IsFor(w.log, id, TConfig, obj)
  }

  /** Files belong to configs created from inline content, and go only through a typed free of their handle. */
  ghost predicate FilesByCalls(w: World) {
    && (forall obj | obj in w.owns :: Made(w, CPut(TConfig, obj, true)))
    && (forall obj: nat | Made(w, CPut(TConfig, obj, true)) && obj !in w.files :: CloseCalled(w, obj))
    && (forall obj: nat | Made(w, CPut(TConfig, obj, true)) :: obj in w.objs)
  }

  lemma CloseCalledNext(s: PState, a: Action, obj: nat)
    requires Inv(s) && Enabled(s, a) && CloseCalled(s.w, obj)
    ensures CloseCalled(Next(s, a).w, obj)
  {
    var id: nat :| Made(s.w, CFreeTyped(id, TConfig)) && IsFor(s.w.log, id, TConfig, obj);
    MadeNext(s, a, CFreeTyped(id, TConfig));
    IsForNext(s, a, id, TConfig, obj);
  }

  /** How a step changes the files and who owns them. */
  lemma FilesChangeBy(s: PState, a: Action, obj: nat)
    requires Inv(s) && Enabled(s, a)
    ensures var w, w', st := s.w, Next(s, a).w, s.w.threads[ThreadOf(a)];
            && w.objs <= w'.objs
            && (obj in w.files && obj !in w'.files ==> st.Hooking? && !st.pc.Cancelling? && st.obj == obj)
            && (a.Act? && a.a.Begin? && a.a.call == CPut(TConfig, obj, true) ==> obj in w'.files && obj in w'.objs)
            && (obj in w'.owns ==> obj in w.owns || (a.Act? && a.a.Begin? && a.a.call == CPut(TConfig, obj, true)))
  {
  }

  lemma FilesByCallsNext(s: PState, a: Action)
    requires Inv(s) && Enabled(s, a) && FilesByCalls(s.w)
    ensures FilesByCalls(Next(s, a).w)
  {
    var w' := Next(s, a).w;
    forall obj: nat
      ensures obj in w'.owns ==> Made(w', CPut(TConfig, obj, true))
      ensures Made(w', CPut(TConfig, obj, true)) && obj !in w'.files ==> CloseCalled(w', obj)
      ensures Made(w', CPut(TConfig, obj, true)) ==> obj in w'.objs
    {
      MadeNext(s, a, CPut(TConfig, obj, true));
      FilesChangeBy(s, a, obj);
      if Made(w', CPut(TConfig, obj, true)) && obj !in w'.files {
        if obj in s.w.files {
          HookIsOnItsObject(s, ThreadOf(a));
        }
        CloseCalledNext(s, a, obj);
      }
    }
  }

  // ---- Close, all of it ---------------------------------------------------

  ghost predicate ClosedStage(w: World, st: Stage) {
    (st.Invoking? || st.Answered?) && st.hooked.Some? && st.call.CFreeTyped? && st.call.typ.TConfig? ==>
      st.hooked.value in w.objs && st.hooked.value !in w.owns
  }

  ghost predicate ClosedRemoval(w: World, e: Event) {
    IsRemoval(e) && e.op.FreeTyped? && e.op.typ.TConfig? ==>
      exists obj :: obj in w.objs && obj !in w.owns && IsFor(w.log, e.op.id, TConfig, obj)
  }

  /** A typed free past its hook has closed the config: it owns no file any more. */
  ghost predicate Closed(w: World) {
    && (forall t: nat | t < |w.threads| :: ClosedStage(w, w.threads[t]))
    && (forall i: nat | i < |w.log| :: ClosedRemoval(w, w.log[i]))
  }

  lemma OwnsOnlyByCreation(s: PState, a: Action, obj: nat)
    requires Inv(s) && Enabled(s, a) && obj in s.w.objs && obj !in s.w.owns
    ensures obj in Next(s, a).w.objs && obj !in Next(s, a).w.owns
  {
  }

  lemma ClosedStageNext(s: PState, a: Action)
    requires Inv(s) && Enabled(s, a) && ClosedStage(s.w, s.w.threads[ThreadOf(a)])
    ensures ThreadOf(a) < |Next(s, a).w.threads|
    ensures ClosedStage(Next(s, a).w, Next(s, a).w.threads[ThreadOf(a)])
  {
    assert StageRight(s.w, ThreadOf(a));
  }

  lemma ClosedRemovalNext(s: PState, a: Action, e: Event)
    requires Inv(s) && Enabled(s, a) && ClosedRemoval(s.w, e)
    ensures ClosedRemoval(Next(s, a).w, e)
  {
    if IsRemoval(e) && e.op.FreeTyped? && e.op.typ.TConfig? {
      var obj :| obj in s.w.objs && obj !in s.w.owns && IsFor(s.w.log, e.op.id, TConfig, obj);
      OwnsOnlyByCreation(s, a, obj);
      IsForNext(s, a, e.op.id, TConfig, obj);
    }
  }

  lemma NewRemovalIsClosed(s: PState, t: nat)
    requires Inv(s) && Enabled(s, Registry(t)) && ClosedStage(s.w, s.w.threads[t])
    ensures ClosedRemoval(Next(s, Registry(t)).w, Next(s, Registry(t)).w.log[|s.w.log|])
  {
    assert StageRight(s.w, t);
    var st := s.w.threads[t];
    if st.hooked.Some? && st.call.CFreeTyped? {
      IsForNext(s, Registry(t), st.call.id, st.call.typ, st.hooked.value);
    }
  }

  lemma ClosedNext(s: PState, a: Action)
    requires Inv(s) && Enabled(s, a) && Closed(s.w)
    ensures Closed(Next(s, a).w)
  {
    var w, w' := s.w, Next(s, a).w;
    StepKeepsCall(s, a);
    forall t: nat | t < |w'.threads|
      ensures ClosedStage(w', w'.threads[t])
    {
      assert ClosedStage(w, w.threads[t]);
      if t == ThreadOf(a) {
        ClosedStageNext(s, a);
      } else if w.threads[t].Invoking? || w.threads[t].Answered? {
        if w.threads[t].hooked.Some? {
          var obj := w.threads[t].hooked.value;
          if obj in w.objs && obj !in w.owns {
            OwnsOnlyByCreation(s, a, obj);
          }
        }
      }
    }
    forall i: nat | i < |w'.log|
      ensures ClosedRemoval(w', w'.log[i])
    {
      LogGrowsBy(s, a);
      if i < |w.log| {
        assert ClosedRemoval(w, w.log[i]);
        ClosedRemovalNext(s, a, w.log[i]);
      } else {
        assert ClosedStage(w, w.threads[ThreadOf(a)]);
        NewRemovalIsClosed(s, ThreadOf(a));
      }
    }
  }

  lemma LogGrowsBy(s: PState, a: Action)
    requires Enabled(s, a)
    ensures s.w.log <= Next(s, a).w.log
    ensures |Next(s, a).w.log| == |s.w.log| + if a.Registry? then 1 else 0
  {
  }

  // ---- Over runs ----------------------------------------------------------

  ghost predicate EffectsRight(w: World) {
    CancelledByCalls(w) && CancelsDone(w) && FilesByCalls(w) && Closed(w)
  }

  lemma {:induction false} EffectsExec(s: PState, acts: seq<Action>)
    requires Inv(s) && EffectsRight(s.w) && Runs(s, acts)
    ensures EffectsRight(Exec(s, acts).w)
    decreases |acts|
  {
    if acts != [] {
      InvNext(s, acts[0]);
      CancelledByCallsNext(s, acts[0]);
      CancelsDoneNext(s, acts[0]);
      FilesByCallsNext(s, acts[0]);
      ClosedNext(s, acts[0]);
      EffectsExec(Next(s, acts[0]), acts[1..]);
    }
  }

  lemma ReachableEffects(s: PState)
    requires Reachable(s)
    ensures Inv(s) && EffectsRight(s.w)
  {
    ReachableInv(s);
    var n: nat, acts: seq<Action> :| Runs(Init(n), acts) && Exec(Init(n), acts) == s;
    InvInit(n);
    assert forall t: nat | t < n :: Init(n).w.threads[t] == Idle;
    assert EffectsRight(Init(n).w);
    EffectsExec(Init(n), acts);
  }

  /** helm_context_cancel that returned OK has cancelled the context its handle was issued for. */
  lemma CancelOKCancels(s: PState, k: nat)
    requires Reachable(s) && Puts(s.w.log) < TWO_64
    requires k < |s.w.rets| && s.w.rets[k].call.CCancel? && s.w.rets[k].code == OK
    ensures var id := s.w.rets[k].call.id;
            && id in IssuedFor(s.w.log)
            && IssuedFor(s.w.log)[id].typ == TContext
            && IssuedFor(s.w.log)[id].obj in s.w.cancelled
  {
    ReachableEffects(s);
    assert CancelDone(s.w, s.w.rets[k].call, s.w.rets[k].code, s.w.rets[k].ev);
    GetReturnsWhatWasPut(s.w.log, s.w.rets[k].ev);
  }

  /** And a context is cancelled by nothing but a cancel or a typed free of a handle of its own. */
  lemma CancelledOnlyByCalls(s: PState, obj: nat)
    requires Reachable(s) && Puts(s.w.log) < TWO_64 && obj in s.w.cancelled
    ensures exists id: nat ::
              && (Made(s.w, CCancel(id)) || Made(s.w, CFreeTyped(id, TContext)))
              && id in IssuedFor(s.w.log) && IssuedFor(s.w.log)[id] == Entry(TContext, obj)
  {
    ReachableEffects(s);
    assert CancelCalled(s.w, obj);
  }

  /**
   A temporary kubeconfig exists only for a config created from inline content, and for every such config
   unless a typed free of its handle was called.
   */
  lemma FilesOnlyByCalls(s: PState, obj: nat)
    requires Reachable(s) && Puts(s.w.log) < TWO_64
    ensures obj in s.w.files ==> Made(s.w, CPut(TConfig, obj, true))
    ensures Made(s.w, CPut(TConfig, obj, true)) && obj !in s.w.files ==>
              exists id: nat ::
                && Made(s.w, CFreeTyped(id, TConfig))
                && id in IssuedFor(s.w.log) && IssuedFor(s.w.log)[id] == Entry(TConfig, obj)
  {
    ReachableEffects(s);
    if Made(s.w, CPut(TConfig, obj, true)) && obj !in s.w.files {
      assert CloseCalled(s.w, obj);
    }
  }

  /** helm_config_free that returned OK has run Close to its end: the config owns no file. */
  lemma WinnerHasClosed(s: PState, k: nat, id: nat)
    requires Reachable(s) && Puts(s.w.log) < TWO_64
    requires Won(s.w, k, id) && s.w.rets[k].call == CFreeTyped(id, TConfig)
    ensures id in IssuedFor(s.w.log) && IssuedFor(s.w.log)[id].typ == TConfig
    ensures IssuedFor(s.w.log)[id].obj !in s.w.owns && IssuedFor(s.w.log)[id].obj !in s.w.files
  {
    ReachableEffects(s);
    TypedWinnerRanHook(s, k, id);
    WonByRemoval(s, k, id);
    assert ClosedRemoval(s.w, s.w.log[s.w.rets[k].ev]);
  }
}
