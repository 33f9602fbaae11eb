/**
 Installs and upgrades against contexts that other threads cancel and free at any moment, with the SDK's
 detached goroutine. The guard keeps out contexts cancelled before it, and no others.
 */
module Cancellation {
  import opened Prelude

  /** `ctx` is the captured context; None is the background context. */
  datatype Stage =
    | NotStarted
    | Entered(ctxH: nat)
    | Captured(ctx: Option<nat>)
    | Checked(ctx: Option<nat>)
    | Built(ctx: Option<nat>)
    | Resolved(ctx: Option<nat>)
    | InSdk(ctx: Option<nat>)
    | Failing(ctx: Option<nat>)
    | Returned(code: Code)

  /** The goroutine performInstallCtx starts; it is never joined. */
  datatype Goroutine = NotSpawned | Running | Finished

  /**
   `handles` maps live context handles to contexts, `issued` is the registry's counter (module HandleTable
   says when it wraps), and `made` are the contexts created so far.
   */
  datatype State = State(
    issued: nat,
    handles: map<nat, nat>,
    made: set<nat>,
    cancelled: set<nat>,
    stages: seq<Stage>,
    work: seq<Goroutine>)

  datatype Action =
    | NewContext(ctx: nat)
    | OtherHandle
    | Cancel(h: nat)
    | FreeContext(h: nat)
    | GenericFree(h: nat)
    | Start(i: nat, ctxH: nat)
    | Capture(i: nat)
    | Check(i: nat)
    | Build(i: nat, err: Option<Code>)
    | ResolveChart(i: nat, err: Option<Code>)
    | EnterSdk(i: nat)
    | Work(i: nat)
    | SelectDone(i: nat)
    | SelectResult(i: nat, err: Option<Code>)
    | FailRelease(i: nat)

  predicate IsCancelled(s: State, ctx: Option<nat>) {
    ctx.Some? && ctx.value in s.cancelled
  }

  predicate CallEnabled(s: State, i: nat) {
    i < |s.stages| && i < |s.work|
  }

  predicate Enabled(s: State, a: Action) {
    match a
    case NewContext(ctx) => ctx !in s.made
    case OtherHandle => true
    case Cancel(h) => h in s.handles
    case FreeContext(h) => h in s.handles
    case GenericFree(h) => h in s.handles
    case Start(i, _) => CallEnabled(s, i) && s.stages[i].NotStarted?
    case Capture(i) => CallEnabled(s, i) && s.stages[i].Entered?
    case Check(i) => CallEnabled(s, i) && s.stages[i].Captured?
    case Build(i, _) => CallEnabled(s, i) && s.stages[i].Checked?
    case ResolveChart(i, _) => CallEnabled(s, i) && s.stages[i].Built?
    case EnterSdk(i) => CallEnabled(s, i) && s.stages[i].Resolved?
    case Work(i) => CallEnabled(s, i) && s.work[i].Running?
    case SelectDone(i) => CallEnabled(s, i) && s.stages[i].InSdk? && IsCancelled(s, s.stages[i].ctx)
    case SelectResult(i, _) => CallEnabled(s, i) && s.stages[i].InSdk? && s.work[i].Finished?
    case FailRelease(i) => CallEnabled(s, i) && s.stages[i].Failing?
  }

  function To(s: State, i: nat, st: Stage): State
    requires i < |s.stages|
  {
    s.(stages := s.stages[i := st])
  }

  /** Carry on to `st`, or return the error. */
  function OrReturn(s: State, i: nat, err: Option<Code>, st: Stage): State
    requires i < |s.stages|
  {
    To(s, i, if err.Some? then Returned(err.value) else st)
  }

  function Next(s: State, a: Action): State
    requires Enabled(s, a)
  {
    match a
    case NewContext(ctx) =>
      s.(issued := s.issued + 1, handles := s.handles[s.issued + 1 := ctx], made := s.made + {ctx})
    case OtherHandle => s.(issued := s.issued + 1)
    case Cancel(h) => s.(cancelled := s.cancelled + {s.handles[h]})
    case FreeContext(h) => s.(cancelled := s.cancelled + {s.handles[h]}, handles := s.handles - {h})
    case GenericFree(h) => s.(handles := s.handles - {h})
    case Start(i, ctxH) => To(s, i, Entered(ctxH))
    case Capture(i) =>
      var h := s.stages[i].ctxH;
      To(s, i, if h == 0 then Captured(None)
               else if h in s.handles then Captured(Some(s.handles[h]))
               else Returned(InvalidHandle))
    case Check(i) =>
      var ctx := s.stages[i].ctx;
      To(s, i, if IsCancelled(s, ctx) then Returned(Cancelled) else Checked(ctx))
    case Build(i, err) => OrReturn(s, i, err, Built(s.stages[i].ctx))
    case ResolveChart(i, err) => OrReturn(s, i, err, Resolved(s.stages[i].ctx))
    case EnterSdk(i) => To(s.(work := s.work[i := Running]), i, InSdk(s.stages[i].ctx))
    case Work(i) => s.(work := s.work[i := Finished])
    case SelectDone(i) => To(s, i, Failing(s.stages[i].ctx))
    case SelectResult(i, err) => OrReturn(s, i, err, Returned(OK))
    case FailRelease(i) => To(s, i, Returned(Cancelled))
  }

  function Init(n: nat): State {
    State(0, map[], {}, {}, seq(n, _ => NotStarted), seq(n, _ => NotSpawned))
  }

  predicate Runs(s: State, acts: seq<Action>)
    decreases |acts|
  {
    acts == [] || (Enabled(s, acts[0]) && Runs(Next(s, acts[0]), acts[1..]))
  }

  function Exec(s: State, acts: seq<Action>): State
    requires Runs(s, acts)
    decreases |acts|
  {
    if acts == [] then s else Exec(Next(s, acts[0]), acts[1..])
  }

  // ---- Basic facts --------------------------------------------------------

  /** Does this step cancel `ctx`? */
  predicate Cancels(s: State, a: Action, ctx: nat) {
    (a.Cancel? || a.FreeContext?) && a.h in s.handles && s.handles[a.h] == ctx
  }

  lemma CancelledChangesBy(s: State, a: Action, ctx: nat)
    requires Enabled(s, a)
    ensures ctx in Next(s, a).cancelled <==> ctx in s.cancelled || Cancels(s, a, ctx)
  {
  }

  /** A call in these stages has not entered the SDK. */
  predicate BeforeSdk(st: Stage) {
    st.NotStarted? || st.Entered? || st.Captured? || st.Checked? || st.Built? || st.Resolved?
  }

  /** The context a call carries, if it has captured one and not returned. */
  function ContextOf(st: Stage): Option<nat> {
    if st.Captured? || PastGuard(st) then st.ctx else None
  }

  /** No goroutine before the SDK is entered; live handles were issued; contexts held were made before. */
  ghost predicate Inv(s: State) {
    && |s.work| == |s.stages|
    && (forall i: nat | i < |s.stages| && BeforeSdk(s.stages[i]) :: s.work[i].NotSpawned?)
    && (forall h | h in s.handles :: 1 <= h <= s.issued && s.handles[h] in s.made)
    && (forall i: nat | i < |s.stages| && ContextOf(s.stages[i]).Some? :: ContextOf(s.stages[i]).value in s.made)
  }

  /** A step of one call moves no other call. */
  lemma OthersStay(s: State, a: Action, i: nat)
    requires Enabled(s, a) && CallEnabled(s, i)
    ensures CallEnabled(Next(s, a), i)
    ensures Next(s, a).stages[i] != s.stages[i] || Next(s, a).work[i] != s.work[i] ==>
              !a.NewContext? && !a.OtherHandle? && !a.Cancel? && !a.FreeContext? && !a.GenericFree? && a.i == i
  {
  }

  lemma InvNext(s: State, a: Action)
    requires Inv(s) && Enabled(s, a)
    ensures Inv(Next(s, a))
  {
    var s' := Next(s, a);
    forall i: nat | i < |s'.stages| && BeforeSdk(s'.stages[i])
      ensures s'.work[i].NotSpawned?
    {
      OthersStay(s, a, i);
    }
    forall i: nat | i < |s'.stages| && ContextOf(s'.stages[i]).Some?
      ensures ContextOf(s'.stages[i]).value in s'.made
    {
      OthersStay(s, a, i);
    }
  }

  lemma {:induction false} InvExec(s: State, acts: seq<Action>)
    requires Inv(s) && Runs(s, acts)
    ensures Inv(Exec(s, acts))
    decreases |acts|
  {
    if acts != [] {
      InvNext(s, acts[0]);
      InvExec(Next(s, acts[0]), acts[1..]);
    }
  }

  /** A handle once issued and not live is never live again. */
  lemma {:induction false} StaleStays(s: State, acts: seq<Action>, h: nat)
    requires Inv(s) && Runs(s, acts) && h <= s.issued && h !in s.handles
    ensures h !in Exec(s, acts).handles && h <= Exec(s, acts).issued
    decreases |acts|
  {
    if acts != [] {
      InvNext(s, acts[0]);
      StaleStays(Next(s, acts[0]), acts[1..], h);
    }
  }

  /**
   Either free releases its handle for good, and no other; only the typed one cancels the context. A call that
   names the handle afterwards can return nothing but INVALID_HANDLE.
   */
  lemma FreedHandleIsRefused(s: State, a: Action, acts: seq<Action>, i: nat)
    requires Inv(s) && Enabled(s, a) && (a.FreeContext? || a.GenericFree?)
    requires Runs(Next(s, a), acts)
    ensures a.h !in Exec(Next(s, a), acts).handles
    ensures forall g | g != a.h && g in s.handles :: g in Next(s, a).handles && Next(s, a).handles[g] == s.handles[g]
    ensures s.handles[a.h] in Next(s, a).cancelled <==> a.FreeContext? || s.handles[a.h] in s.cancelled
    ensures CallEnabled(s, i) && s.stages[i] == Entered(a.h) ==>
              var end := Exec(Next(s, a), acts);
              CallEnabled(end, i) && (end.stages[i] == Entered(a.h) || end.stages[i] == Returned(InvalidHandle))
  {
    InvNext(s, a);
    StaleStays(Next(s, a), acts, a.h);
    if CallEnabled(s, i) && s.stages[i] == Entered(a.h) {
      EnteredIsRefused(Next(s, a), acts, i, a.h);
    }
  }

  lemma {:induction false} EnteredIsRefused(s: State, acts: seq<Action>, i: nat, h: nat)
    requires Inv(s) && Runs(s, acts) && CallEnabled(s, i) && 1 <= h <= s.issued && h !in s.handles
    requires s.stages[i] == Entered(h) || s.stages[i] == Returned(InvalidHandle)
    ensures CallEnabled(Exec(s, acts), i)
    ensures Exec(s, acts).stages[i] == Entered(h) || Exec(s, acts).stages[i] == Returned(InvalidHandle)
    decreases |acts|
  {
    if acts != [] {
      InvNext(s, acts[0]);
      OthersStay(s, acts[0], i);
      EnteredIsRefused(Next(s, acts[0]), acts[1..], i, h);
    }
  }

  // ---- A context cancelled before the check -------------------------------

  /** The call's context, wherever it is still to be found, is cancelled, and the SDK was not entered. */
  ghost predicate Doomed(s: State, i: nat, ctx: nat) {
    && CallEnabled(s, i)
    && ctx in s.cancelled && s.work[i].NotSpawned?
    && match s.stages[i]
       case Entered(h) => h != 0 && h in s.handles && s.handles[h] == ctx
       case Captured(c) => c == Some(ctx)
       case Returned(code) => code == Cancelled || code == InvalidHandle
       case _ => false
  }

  /** `h` may be freed meanwhile, and its number, being below the counter, is not issued again. */
  ghost predicate DoomedOrStale(s: State, i: nat, h: nat, ctx: nat) {
    Doomed(s, i, ctx) ||
    (CallEnabled(s, i) && ctx in s.cancelled && s.work[i].NotSpawned? &&
     s.stages[i] == Entered(h) && 1 <= h <= s.issued && h !in s.handles)
  }

  /**
   A call started with the handle of an already cancelled context, and likewise one that has captured it,
   can only return CANCELLED, or INVALID_HANDLE if the handle is freed before it is looked up: in no run
   does it enter the SDK.
   */
  lemma {:induction false} CancelledBeforeCheckNeverEnters(s: State, acts: seq<Action>, i: nat, h: nat, ctx: nat)
    requires Inv(s) && DoomedOrStale(s, i, h, ctx) && Runs(s, acts)
    requires s.stages[i].Entered? ==> s.stages[i].ctxH == h
    ensures var end := Exec(s, acts);
            && i < |end.work| && i < |end.stages| && end.work[i].NotSpawned?
            && (end.stages[i].Entered? || end.stages[i].Captured? ||
                end.stages[i] == Returned(Cancelled) || end.stages[i] == Returned(InvalidHandle))
    decreases |acts|
  {
    if acts != [] {
      var s' := Next(s, acts[0]);
      InvNext(s, acts[0]);
      assert DoomedOrStale(s', i, h, ctx);
      CancelledBeforeCheckNeverEnters(s', acts[1..], i, h, ctx);
    }
  }

  // ---- What a call returns ------------------------------------------------

  /** Step `a`, taken in `s`, gives call `i` its code `c`. */
  predicate Decides(s: State, a: Action, i: nat, c: Code) {
    CallEnabled(s, i) &&
    match a
    case Capture(j) =>
      j == i && c == InvalidHandle && s.stages[i].Entered? && s.stages[i].ctxH != 0 && s.stages[i].ctxH !in s.handles
    case Check(j) =>
      j == i && c == Cancelled && s.stages[i].Captured? && s.stages[i].ctx.Some? && s.stages[i].ctx.value in s.cancelled
    case Build(j, err) => j == i && err == Some(c)
    case ResolveChart(j, err) => j == i && err == Some(c)
    case SelectResult(j, err) => j == i && (err == Some(c) || (err.None? && c == OK))
    case FailRelease(j) => j == i && c == Cancelled
    case _ => false
  }

  ghost predicate DecidedIn(s: State, acts: seq<Action>, i: nat, c: Code)
    requires Runs(s, acts)
    decreases |acts|
  {
    acts != [] && (Decides(s, acts[0], i, c) || DecidedIn(Next(s, acts[0]), acts[1..], i, c))
  }

  lemma DecidesReturns(s: State, a: Action, i: nat, c: Code)
    requires Enabled(s, a) && CallEnabled(s, i) && !s.stages[i].Returned?
    ensures Next(s, a).stages[i] == Returned(c) <==> Decides(s, a, i, c)
  {
    OthersStay(s, a, i);
  }

  lemma {:induction false} ReturnedIsDecided(s: State, acts: seq<Action>, i: nat, c: Code)
    requires CallEnabled(s, i) && Runs(s, acts) && s.stages[i].Returned?
    ensures !DecidedIn(s, acts, i, c)
    decreases |acts|
  {
    if acts != [] {
      OthersStay(s, acts[0], i);
      ReturnedIsDecided(Next(s, acts[0]), acts[1..], i, c);
    }
  }

  /**
   In every run, a call returns a code iff some step of the run decided on it: a handle that is not live, a
   context found cancelled at the guard, the error of building the action, of resolving the chart or of the
   SDK, the SDK's success, or the way out of a cancelled one. No error is lost and none is made up.
   */
  lemma {:induction false} ReturnsIff(s: State, acts: seq<Action>, i: nat, c: Code)
    requires CallEnabled(s, i) && Runs(s, acts) && !s.stages[i].Returned?
    ensures CallEnabled(Exec(s, acts), i)
    ensures Exec(s, acts).stages[i] == Returned(c) <==> DecidedIn(s, acts, i, c)
    decreases |acts|
  {
    if acts != [] {
      var s' := Next(s, acts[0]);
      OthersStay(s, acts[0], i);
      DecidesReturns(s, acts[0], i, c);
      if s'.stages[i].Returned? {
        ReturnedIsDecided(s', acts[1..], i, c);
        ReturnedKept(s', acts[1..], i);
      } else {
        ReturnsIff(s', acts[1..], i, c);
      }
    }
  }

  /** A returned call stays as it is; what its goroutine did not start it never will. */
  lemma {:induction false} ReturnedKept(s: State, acts: seq<Action>, i: nat)
    requires CallEnabled(s, i) && Runs(s, acts) && s.stages[i].Returned?
    ensures CallEnabled(Exec(s, acts), i) && Exec(s, acts).stages[i] == s.stages[i]
    ensures s.work[i].NotSpawned? ==> Exec(s, acts).work[i].NotSpawned?
    decreases |acts|
  {
    if acts != [] {
      OthersStay(s, acts[0], i);
      ReturnedKept(Next(s, acts[0]), acts[1..], i);
    }
  }

  /** An error met before the SDK is what the call returns, and the SDK is never entered. */
  lemma ErrorBeforeSdk(s: State, acts: seq<Action>, i: nat, c: Code)
    requires Inv(s) && CallEnabled(s, i) && Runs(s, acts) && acts != []
    requires acts[0] == Build(i, Some(c)) || acts[0] == ResolveChart(i, Some(c))
    ensures CallEnabled(Exec(s, acts), i)
    ensures Exec(s, acts).stages[i] == Returned(c) && Exec(s, acts).work[i].NotSpawned?
  {
    ReturnedKept(Next(s, acts[0]), acts[1..], i);
  }

  /** An error of the SDK is what the call returns. */
  lemma ErrorInSdk(s: State, acts: seq<Action>, i: nat, c: Code)
    requires CallEnabled(s, i) && Runs(s, acts) && acts != [] && acts[0] == SelectResult(i, Some(c))
    ensures CallEnabled(Exec(s, acts), i) && Exec(s, acts).stages[i] == Returned(c)
  {
    ReturnedKept(Next(s, acts[0]), acts[1..], i);
  }

  /** No step reports an error whose code is OK. */
  ghost predicate ErrorsAreErrors(acts: seq<Action>) {
    forall a | a in acts && (a.Build? || a.ResolveChart? || a.SelectResult?) :: a.err != Some(OK)
  }

  /** Given that, a call returns OK iff the run has it take the SDK's success. */
  lemma {:induction false} SuccessIff(s: State, acts: seq<Action>, i: nat)
    requires CallEnabled(s, i) && Runs(s, acts) && !s.stages[i].Returned? && ErrorsAreErrors(acts)
    ensures CallEnabled(Exec(s, acts), i)
    ensures Exec(s, acts).stages[i] == Returned(OK) <==> SelectResult(i, None) in acts
  {
    ReturnsIff(s, acts, i, OK);
    OKDecidedIff(s, acts, i);
  }

  /** And then its goroutine had finished. */
  ghost predicate SuccessFinished(s: State) {
    forall i: nat | CallEnabled(s, i) && s.stages[i] == Returned(OK) :: s.work[i].Finished?
  }

  lemma {:induction false} SuccessWaitsForSdk(s: State, acts: seq<Action>)
    requires SuccessFinished(s) && Runs(s, acts) && ErrorsAreErrors(acts)
    ensures SuccessFinished(Exec(s, acts))
    decreases |acts|
  {
    if acts != [] {
      var s' := Next(s, acts[0]);
      assert acts[0] in acts && forall a | a in acts[1..] :: a in acts;
      forall i: nat | CallEnabled(s', i) && s'.stages[i] == Returned(OK)
        ensures s'.work[i].Finished?
      {
        OthersStay(s, acts[0], i);
      }
      SuccessWaitsForSdk(s', acts[1..]);
    }
  }

  lemma {:induction false} OKDecidedIff(s: State, acts: seq<Action>, i: nat)
    requires CallEnabled(s, i) && Runs(s, acts) && ErrorsAreErrors(acts)
    ensures DecidedIn(s, acts, i, OK) <==> SelectResult(i, None) in acts
    decreases |acts|
  {
    if acts != [] {
      OthersStay(s, acts[0], i);
      assert acts == [acts[0]] + acts[1..];
      assert acts[0] in acts && forall a | a in acts[1..] :: a in acts;
      OKDecidedIff(Next(s, acts[0]), acts[1..], i);
    }
  }

  // ---- What entering the SDK says -----------------------------------------

  /** In this run, the guard of call `i` was passed at step `k`, its context live then. */
  ghost predicate PassedGuardAt(s: State, acts: seq<Action>, i: nat, k: nat)
    requires Runs(s, acts)
  {
    && k < |acts| && acts[k] == Check(i)
    && Runs(s, acts[..k])
    && CallEnabled(Exec(s, acts[..k]), i)
    && Exec(s, acts[..k]).stages[i].Captured?
    && !IsCancelled(Exec(s, acts[..k]), Exec(s, acts[..k]).stages[i].ctx)
  }

  lemma {:induction false} PrefixRuns(s: State, acts: seq<Action>, k: nat)
    requires Runs(s, acts) && k <= |acts|
    ensures Runs(s, acts[..k]) && Runs(Exec(s, acts[..k]), acts[k..])
    ensures Exec(Exec(s, acts[..k]), acts[k..]) == Exec(s, acts)
    decreases |acts|
  {
    if k != 0 {
      PrefixRuns(Next(s, acts[0]), acts[1..], k - 1);
      assert acts[..k][1..] == acts[1..][..k - 1];
      assert acts[1..][k - 1..] == acts[k..];
    } else {
      assert acts[..0] == [] && acts[0..] == acts;
    }
  }

  predicate PastGuard(st: Stage) {
    st.Checked? || st.Built? || st.Resolved? || st.InSdk? || st.Failing?
  }

  /** A call past the guard passed it with a live context: the SDK is never entered any other way. */
  lemma {:induction false} PastGuardWasLive(s: State, acts: seq<Action>, i: nat) returns (k: nat)
    requires Inv(s) && Runs(s, acts) && i < |s.stages|
    requires s.stages[i].NotStarted? || s.stages[i].Entered? || s.stages[i].Captured?
    requires i < |Exec(s, acts).stages| && PastGuard(Exec(s, acts).stages[i])
    ensures PassedGuardAt(s, acts, i, k)
    decreases |acts|
  {
    var a := acts[0];
    var s' := Next(s, a);
    InvNext(s, a);
    if a == Check(i) && !IsCancelled(s, s.stages[i].ctx) {
      k := 0;
      assert acts[..0] == [];
    } else if s'.stages[i].Returned? {
      ReturnedStays(s', acts[1..], i);
      assert false;
    } else {
      var j := PastGuardWasLive(s', acts[1..], i);
      k := j + 1;
      assert acts[..k][1..] == acts[1..][..j];
    }
  }

  lemma {:induction false} ReturnedStays(s: State, acts: seq<Action>, i: nat)
    requires Runs(s, acts) && i < |s.stages| && s.stages[i].Returned?
    ensures i < |Exec(s, acts).stages| && Exec(s, acts).stages[i] == s.stages[i]
    decreases |acts|
  {
    if acts != [] {
      ReturnedStays(Next(s, acts[0]), acts[1..], i);
    }
  }

  /** Some step of the run cancels `ctx`. */
  ghost predicate CancelledDuring(s: State, acts: seq<Action>, ctx: nat)
    requires Runs(s, acts)
    decreases |acts|
  {
    acts != [] && (Cancels(s, acts[0], ctx) || CancelledDuring(Next(s, acts[0]), acts[1..], ctx))
  }

  lemma {:induction false} CancelledIffDuring(s: State, acts: seq<Action>, ctx: nat)
    requires Runs(s, acts)
    ensures ctx in Exec(s, acts).cancelled <==> ctx in s.cancelled || CancelledDuring(s, acts, ctx)
    decreases |acts|
  {
    if acts != [] {
      CancelledChangesBy(s, acts[0], ctx);
      CancelledIffDuring(Next(s, acts[0]), acts[1..], ctx);
    }
  }

  lemma {:induction false} ContextKept(s: State, acts: seq<Action>, i: nat)
    requires Runs(s, acts) && i < |s.stages| && (s.stages[i].Captured? || PastGuard(s.stages[i]))
    requires i < |Exec(s, acts).stages| && PastGuard(Exec(s, acts).stages[i])
    ensures Exec(s, acts).stages[i].ctx == s.stages[i].ctx
    decreases |acts|
  {
    if acts != [] {
      var s' := Next(s, acts[0]);
      if s'.stages[i].Returned? {
        ReturnedStays(s', acts[1..], i);
      } else {
        ContextKept(s', acts[1..], i);
      }
    }
  }

  /**
   "A cancelled context never reaches the SDK" holds exactly when nothing cancels it after the guard: a
   call about to enter, or inside, has a cancelled context iff a step since the guard cancelled it.
   */
  lemma CancelledInSdkIff(s: State, acts: seq<Action>, i: nat, k: nat)
    requires Runs(s, acts) && PassedGuardAt(s, acts, i, k)
    requires i < |Exec(s, acts).stages| && PastGuard(Exec(s, acts).stages[i])
    requires Exec(s, acts).stages[i].ctx.Some?
    ensures Runs(Exec(s, acts[..k]), acts[k..])
    ensures IsCancelled(Exec(s, acts), Exec(s, acts).stages[i].ctx) <==>
            CancelledDuring(Exec(s, acts[..k]), acts[k..], Exec(s, acts).stages[i].ctx.value)
  {
    PrefixRuns(s, acts, k);
    var mid := Exec(s, acts[..k]);
    ContextKept(mid, acts[k..], i);
    CancelledIffDuring(mid, acts[k..], Exec(s, acts).stages[i].ctx.value);
  }

  // ---- The race of the detached goroutine ---------------------------------

  /** Caller and goroutine both about to set the release's status. */
  ghost predicate StatusRace(s: State, i: nat) {
    CallEnabled(s, i) && s.stages[i].Failing? && s.work[i].Running?
  }

  ghost predicate FailingIsCancelled(s: State) {
    forall i: nat | i < |s.stages| && s.stages[i].Failing? :: IsCancelled(s, s.stages[i].ctx)
  }

  lemma {:induction false} FailingExec(s: State, acts: seq<Action>)
    requires FailingIsCancelled(s) && Runs(s, acts)
    ensures FailingIsCancelled(Exec(s, acts))
    decreases |acts|
  {
    if acts != [] {
      FailingExec(Next(s, acts[0]), acts[1..]);
    }
  }

  /** In every run that reaches the race, the call passed the guard and its context was cancelled after. */
  lemma RaceOnlyAfterLateCancel(n: nat, acts: seq<Action>, i: nat) returns (k: nat)
    requires Runs(Init(n), acts) && StatusRace(Exec(Init(n), acts), i)
    ensures PassedGuardAt(Init(n), acts, i, k)
    ensures Exec(Init(n), acts).stages[i].ctx.Some?
    ensures Runs(Exec(Init(n), acts[..k]), acts[k..])
    ensures CancelledDuring(Exec(Init(n), acts[..k]), acts[k..], Exec(Init(n), acts).stages[i].ctx.value)
  {
    FailingExec(Init(n), acts);
    SameLength(Init(n), acts);
    k := PastGuardWasLive(Init(n), acts, i);
    CancelledInSdkIff(Init(n), acts, i, k);
  }

  lemma {:induction false} SameLength(s: State, acts: seq<Action>)
    requires Runs(s, acts)
    ensures |Exec(s, acts).stages| == |s.stages|
    decreases |acts|
  {
    if acts != [] {
      SameLength(Next(s, acts[0]), acts[1..]);
    }
  }

  predicate Carries(st: Stage, ctx: nat) {
    ContextOf(st) == Some(ctx)
  }

  /**
   Freeing the handle cancels every call that captured the context before, at whatever stage it is. One
   still at the guard can only return CANCELLED, the SDK never entered; one past it that has entered the
   SDK, then or later, can at every moment inside take the way out through CANCELLED.
   */
  lemma FreeStillCancels(s: State, h: nat, acts: seq<Action>, i: nat)
    requires Inv(s) && Enabled(s, FreeContext(h)) && CallEnabled(s, i)
    requires Carries(s.stages[i], s.handles[h])
    requires Runs(Next(s, FreeContext(h)), acts)
    ensures var end := Exec(Next(s, FreeContext(h)), acts);
            && CallEnabled(end, i)
            && (s.stages[i].Captured? ==>
                  end.work[i].NotSpawned? && (end.stages[i] == s.stages[i] || end.stages[i] == Returned(Cancelled)))
            && (!s.stages[i].Captured? ==> end.stages[i].Returned? || Carries(end.stages[i], s.handles[h]))
            && (PastGuard(end.stages[i]) ==> IsCancelled(end, end.stages[i].ctx))
            && (end.stages[i].InSdk? ==> Enabled(end, SelectDone(i)))
            && (end.stages[i].Failing? ==> Enabled(end, FailRelease(i)))
  {
    var s' := Next(s, FreeContext(h));
    if s.stages[i].Captured? {
      CancelledAtGuard(s', acts, i, s.handles[h]);
    } else {
      CancelledInside(s', acts, i, s.handles[h]);
    }
  }

  lemma {:induction false} CancelledAtGuard(s: State, acts: seq<Action>, i: nat, ctx: nat)
    requires CallEnabled(s, i) && Runs(s, acts) && ctx in s.cancelled && s.work[i].NotSpawned?
    requires s.stages[i] == Captured(Some(ctx)) || s.stages[i] == Returned(Cancelled)
    ensures CallEnabled(Exec(s, acts), i) && Exec(s, acts).work[i].NotSpawned?
    ensures Exec(s, acts).stages[i] == s.stages[i] || Exec(s, acts).stages[i] == Returned(Cancelled)
    decreases |acts|
  {
    if acts != [] {
      CancelledAtGuard(Next(s, acts[0]), acts[1..], i, ctx);
    }
  }

  lemma {:induction false} CancelledInside(s: State, acts: seq<Action>, i: nat, ctx: nat)
    requires CallEnabled(s, i) && Runs(s, acts) && ctx in s.cancelled
    requires s.stages[i].Returned? || (PastGuard(s.stages[i]) && Carries(s.stages[i], ctx))
    ensures CallEnabled(Exec(s, acts), i) && ctx in Exec(s, acts).cancelled
    ensures var st := Exec(s, acts).stages[i];
            st.Returned? || (PastGuard(st) && Carries(st, ctx))
    decreases |acts|
  {
    if acts != [] {
      CancelledInside(Next(s, acts[0]), acts[1..], i, ctx);
    }
  }

  // ---- The later-cancel run -----------------------------------------------

  ghost predicate Reachable(s: State) {
    exists n: nat, acts: seq<Action> :: Runs(Init(n), acts) && Exec(Init(n), acts) == s
  }

  lemma {:induction false} RunsSnoc(s: State, acts: seq<Action>, a: Action)
    requires Runs(s, acts) && Enabled(Exec(s, acts), a)
    ensures Runs(s, acts + [a]) && Exec(s, acts + [a]) == Next(Exec(s, acts), a)
    decreases |acts|
  {
    if acts == [] {
      assert acts + [a] == [a];
    } else {
      RunsSnoc(Next(s, acts[0]), acts[1..], a);
      assert (acts + [a])[1..] == acts[1..] + [a];
    }
  }

  lemma Go(s: State, a: Action) returns (s': State)
    requires Reachable(s) && Enabled(s, a)
    ensures Reachable(s') && s' == Next(s, a)
  {
    var n: nat, acts: seq<Action> :| Runs(Init(n), acts) && Exec(Init(n), acts) == s;
    RunsSnoc(Init(n), acts, a);
    s' := Next(s, a);
  }

  /**
   An install or upgrade with nothing else at work, from any reachable state, without a context handle or
   with that of a live context: it gets through to the SDK, and returns what the SDK returns.
   */
  lemma PlainCall(s: State, i: nat, h: nat, err: Option<Code>) returns (s': State)
    requires Reachable(s) && CallEnabled(s, i) && s.stages[i].NotStarted?
    requires h == 0 || (h in s.handles && s.handles[h] !in s.cancelled)
    ensures Reachable(s') && CallEnabled(s', i) && s'.work[i].Finished?
    ensures s'.stages[i] == Returned(if err.Some? then err.value else OK)
  {
    s' := ToGuard(s, i, h);
    s' := Go(s', Build(i, None));
    s' := Go(s', ResolveChart(i, None));
    s' := Go(s', EnterSdk(i));
    s' := Go(s', Work(i));
    s' := Go(s', SelectResult(i, err));
  }

  lemma ToGuard(s: State, i: nat, h: nat) returns (s': State)
    requires Reachable(s) && CallEnabled(s, i) && s.stages[i].NotStarted?
    requires h == 0 || (h in s.handles && s.handles[h] !in s.cancelled)
    ensures Reachable(s') && CallEnabled(s', i)
    ensures s' == s.(stages := s.stages[i := Checked(if h == 0 then None else Some(s.handles[h]))])
  {
    s' := Go(s, Start(i, h));
    s' := Go(s', Capture(i));
    s' := Go(s', Check(i));
  }

  lemma PassGuard(ctx: nat) returns (s: State)
    ensures Reachable(s)
    ensures s == State(1, map[1 := ctx], {ctx}, {}, [Checked(Some(ctx))], [NotSpawned])
  {
    assert Runs(Init(1), []) && Exec(Init(1), []) == Init(1);
    s := Go(Init(1), NewContext(ctx));
    s := Go(s, Start(0, 1));
    s := Go(s, Capture(0));
    s := Go(s, Check(0));
  }

  /**
   A context freed between the guard and the SDK: the call enters with a context that is already
   cancelled and reaches the race; it returns CANCELLED with the install still running behind it.
   */
  lemma CancelAfterGuardReachesRace(ctx: nat) returns (inside: State, race: State, end: State)
    ensures Reachable(inside) && CallEnabled(inside, 0)
    ensures inside.stages[0] == InSdk(Some(ctx)) && ctx in inside.cancelled
    ensures Reachable(race) && StatusRace(race, 0)
    ensures Reachable(end) && CallEnabled(end, 0) && end.stages[0] == Returned(Cancelled) && end.work[0].Running?
  {
    var s := PassGuard(ctx);
    s := Go(s, Build(0, None));
    s := Go(s, ResolveChart(0, None));
    s := Go(s, FreeContext(1));
    inside := Go(s, EnterSdk(0));
    race := Go(inside, SelectDone(0));
    end := Go(race, FailRelease(0));
  }
}
