/**
 Any number of threads making registry calls through the C API, with each registry operation atomic.
 A typed free of a context or config is two registry operations with a hook between them that runs
 outside the registry lock; the generic free is one operation and runs no hook.
 */
module FreeProtocol {
  import opened Prelude
  import opened HandleTable

  datatype Call =
    | CPut(typ: HType, obj: nat, inlineKubeconfig: bool)
    | CGet(id: nat, typ: HType)
    | CFree(id: nat)
    | CFreeTyped(id: nat, typ: HType)
    | CCount
    | CCancel(id: nat)

  /** `Cancelling` is entry.cancel(); the other three are the steps of Config.Close. */
  datatype HookPc = Cancelling | CloseTest | CloseRemove | CloseClear

  datatype Stage =
    | Idle
    | Invoking(call: Call, op: Op, hooked: Option<nat>)
    | Answered(call: Call, op: Op, hooked: Option<nat>, resp: Resp, ev: nat)
    | Hooking(call: Call, obj: nat, pc: HookPc, ev: nat)
    | Leaving(call: Call, code: Code, ev: nat)

  /** A call that has returned; `ev` is the registry event that decided its code. */
  datatype Ret = Ret(tid: nat, call: Call, code: Code, ev: nat)

  /**
   Everything outside the registry's two fields. `cancelled` holds the cancelled contexts, `owns` the
   configs whose tempKubeconfig is set, `files` those whose temporary file exists, `objs` every object
   ever created. `log` and `rets` are the history of registry operations and of returned calls.
   */
  datatype World = World(
    log: seq<Event>,
    threads: seq<Stage>,
    cancelled: set<nat>,
    owns: set<nat>,
    files: set<nat>,
    objs: set<nat>,
    rets: seq<Ret>)

  datatype PState = PState(table: Table, w: World)

  predicate HasHook(typ: HType) {
    typ.TContext? || typ.TConfig?
  }

  predicate TwoPhase(call: Call) {
    call.CFreeTyped? && HasHook(call.typ)
  }

  /** The registry operation a call performs next; `hooked` is the object its hook has run on. */
  function OpOf(call: Call, hooked: Option<nat>): Op {
    match call
    case CPut(typ, obj, _) => Put(typ, obj)
    case CGet(id, typ) => Get(id, typ)
    case CFree(id) => Free(id)
    case CFreeTyped(id, typ) => if HasHook(typ) && hooked.None? then Get(id, typ) else FreeTyped(id, typ)
    case CCount => Count
    case CCancel(id) => Get(id, TContext)
  }

  function CodeOf(resp: Resp): Code {
    match resp
    case Invalid => InvalidHandle
    case WrongType => WrongHandleType
    case _ => OK
  }

  /** Does this answer send the call into a hook rather than back to its caller? */
  predicate EntersHook(call: Call, hooked: Option<nat>, resp: Resp) {
    (TwoPhase(call) || call.CCancel?) && hooked.None? && resp.Object?
  }

  function FirstHookPc(call: Call): HookPc {
    if call.CFreeTyped? && call.typ.TConfig? then CloseTest else Cancelling
  }

  /** Where a call goes once its hook has finished. */
  function AfterHook(call: Call, obj: nat, ev: nat): Stage {
    if call.CCancel? then Leaving(call, OK, ev)
    else Invoking(call, OpOf(call, Some(obj)), Some(obj))
  }

  // ---- Steps that touch no registry field ---------------------------------

  datatype Local = Begin(t: nat, call: Call) | Continue(t: nat)

  predicate LocalEnabled(w: World, a: Local) {
    && a.t < |w.threads|
    && match a
       case Begin(t, call) => w.threads[t].Idle? && (call.CPut? ==> call.obj !in w.objs)
       case Continue(t) => !w.threads[t].Idle? && !w.threads[t].Invoking?
  }

  function At(w: World, t: nat, st: Stage): World
    requires t < |w.threads|
  {
    w.(threads := w.threads[t := st])
  }

  function HookStep(w: World, t: nat): World
    requires t < |w.threads| && w.threads[t].Hooking?
  {
    var Hooking(call, obj, pc, ev) := w.threads[t];
    match pc
    case Cancelling => At(w.(cancelled := w.cancelled + {obj}), t, AfterHook(call, obj, ev))
    case CloseTest =>
      At(w, t, if obj in w.owns then Hooking(call, obj, CloseRemove, ev) else AfterHook(call, obj, ev))
    case CloseRemove => At(w.(files := w.files - {obj}), t, Hooking(call, obj, CloseClear, ev))
    case CloseClear => At(w.(owns := w.owns - {obj}), t, AfterHook(call, obj, ev))
  }

  /** Creating an object gives it an identity no earlier object had; NewConfig writes its file first. */
  function BeginStep(w: World, t: nat, call: Call): World
    requires t < |w.threads|
  {
    var w' := At(w, t, Invoking(call, OpOf(call, None), None));
    if !call.CPut? then w'
    else if call.typ.TConfig? && call.inlineKubeconfig then
      w'.(objs := w.objs + {call.obj}, owns := w.owns + {call.obj}, files := w.files + {call.obj})
    else w'.(objs := w.objs + {call.obj})
  }

  function LocalStep(w: World, a: Local): World
    requires LocalEnabled(w, a)
  {
    match a
    case Begin(t, call) => BeginStep(w, t, call)
    case Continue(t) =>
      match w.threads[t]
      case Answered(call, op, hooked, resp, ev) =>
        if EntersHook(call, hooked, resp) then At(w, t, Hooking(call, resp.obj, FirstHookPc(call), ev))
        else At(w, t, Leaving(call, CodeOf(resp), ev))
      case Hooking(_, _, _, _) => HookStep(w, t)
      case Leaving(call, code, ev) => At(w, t, Idle).(rets := w.rets + [Ret(t, call, code, ev)])
      case _ => w
  }

  /** The registry answers thread `t`. */
  function Record(w: World, t: nat, resp: Resp): World
    requires t < |w.threads| && w.threads[t].Invoking?
  {
    var Invoking(call, op, hooked) := w.threads[t];
    At(w, t, Answered(call, op, hooked, resp, |w.log|)).(log := w.log + [Event(t, op, resp)])
  }

  // ---- The machine --------------------------------------------------------

  datatype Action = Act(a: Local) | Registry(t: nat)

  predicate Enabled(s: PState, a: Action) {
    match a
    case Act(l) => LocalEnabled(s.w, l)
    case Registry(t) => t < |s.w.threads| && s.w.threads[t].Invoking?
  }

  function Next(s: PState, a: Action): PState
    requires Enabled(s, a)
  {
    match a
    case Act(l) => PState(s.table, LocalStep(s.w, l))
    case Registry(t) =>
      var r := Apply(s.table, s.w.threads[t].op);
      PState(r.0, Record(s.w, t, r.1))
  }

  function InitWorld(n: nat): World {
    World([], seq(n, _ => Idle), {}, {}, {}, {}, [])
  }

  function Init(n: nat): PState {
    PState(Empty, InitWorld(n))
  }

  predicate Runs(s: PState, acts: seq<Action>)
    decreases |acts|
  {
    acts == [] || (Enabled(s, acts[0]) && Runs(Next(s, acts[0]), acts[1..]))
  }

  function Exec(s: PState, acts: seq<Action>): PState
    requires Runs(s, acts)
    decreases |acts|
  {
    if acts == [] then s else Exec(Next(s, acts[0]), acts[1..])
  }
}
