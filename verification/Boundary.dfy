/**
 The C boundary: caller-owned strings in the C heap, out-parameters, the handle registry, and the shared
 shim bodies through which every export passes. A Go panic is recovered into a code.
 */
module Boundary {
  import opened Prelude
  import opened HandleTable
  import opened ErrorTrees

  /** How the wrapped Go call ends. */
  datatype Outcome<T> = Returned(value: T) | Errored(err: Err) | Panicked(message: string)

  /** The memory a C caller shares with the library. `slots` are its char* variables, 0 being NULL. */
  datatype Mem = Mem(heap: map<nat, string>, slots: map<nat, nat>, handleSlots: map<nat, nat>, table: Table)

  const NoOut := Coded(InvalidArg, Msg("out must not be NULL"))
  const NoName := Coded(InvalidArg, Msg("name and out must not be NULL"))

  function PanicText(message: string): string {
    "helm-c: recovered panic: " + message
  }

  /** The error of a registry lookup that did not return an object. */
  function LookupError(r: Resp): Err {
    if r.WrongType? then Coded(WrongHandleType, Msg("handle holds another type"))
    else Coded(InvalidHandle, Msg("invalid or already-freed handle"))
  }

  function CodeOfOutcome<T>(o: Outcome<T>): Code {
    match o
    case Returned(_) => OK
    case Errored(e) => FromError(Some(e))
    case Panicked(_) => Panic
  }

  function DetailOf<T>(o: Outcome<T>): string
    requires !o.Returned?
  {
    match o
    case Errored(e) => Text(e)
    case Panicked(m) => PanicText(m)
  }

  /** The library codes no error as OK. */
  predicate Proper<T>(o: Outcome<T>) {
    o.Errored? ==> FromError(Some(o.err)) != OK
  }

  function Cleared(m: Mem, errOut: Option<nat>): Mem {
    if errOut.None? then m else m.(slots := m.slots[errOut.value := 0])
  }

  /** One fresh non-NULL string was allocated, and one slot set to it; nothing else changed. */
  ghost predicate Stored(m: Mem, m': Mem, slot: nat, text: string) {
    exists p: nat ::
      && p != 0 && p !in m.heap
      && m' == m.(heap := m.heap[p := text], slots := m.slots[slot := p])
  }

  /** A failed call: at most its error slot is written, with one fresh string; out-parameters, table and
      every other slot are as they were. */
  ghost predicate FailedWith<T>(m: Mem, m': Mem, errOut: Option<nat>, o: Outcome<T>)
    requires !o.Returned?
  {
    if errOut.None? then m' == m
    else Stored(Cleared(m, errOut), m', errOut.value, DetailOf(o))
  }

  /** What a shim yielding a string amounts to once its inputs have decided the outcome. */
  ghost predicate StringCall(m: Mem, m': Mem, out: Option<nat>, errOut: Option<nat>, o: Outcome<string>) {
    if o.Returned? then out.Some? && Stored(Cleared(m, errOut), m', out.value, o.value)
    else FailedWith(m, m', errOut, o)
  }

  ghost predicate HandleCall(m: Mem, m': Mem, out: Option<nat>, errOut: Option<nat>, o: Outcome<Entry>) {
    if o.Returned? then
      var (t, r) := Apply(m.table, Op.Put(o.value.typ, o.value.obj));
      out.Some? && r.Issued? &&
      m' == Cleared(m, errOut).(table := t, handleSlots := m.handleSlots[out.value := r.id])
    else FailedWith(m, m', errOut, o)
  }

  /** The outcome a string shim presents: a NULL out-parameter fails before the call is made. */
  function WithOut<T>(out: Option<nat>, run: Outcome<T>): Outcome<T> {
    if out.None? then Errored(NoOut) else run
  }

  /** The handles of an action: config, then the chart if one is given, then the context if one is given. */
  function InputsOutcome(t: Table, cfgH: nat, ctxH: nat, chartH: nat): Outcome<()> {
    var cfg := Apply(t, Op.Get(cfgH, TConfig)).1;
    var chart := Apply(t, Op.Get(chartH, TChart)).1;
    var ctx := Apply(t, Op.Get(ctxH, TContext)).1;
    if !cfg.Object? then Errored(LookupError(cfg))
    else if chartH != 0 && !chart.Object? then Errored(LookupError(chart))
    else if ctxH != 0 && !ctx.Object? then Errored(LookupError(ctx))
    else Returned(())
  }

  /** helm_install and helm_upgrade: NULL arguments, then config, chart and context handles, then the run. */
  function ChartActionOutcome(t: Table, cfgH: nat, ctxH: nat, chartH: nat, name: bool, out: Option<nat>,
                              run: Outcome<string>): Outcome<string>
  {
    var inputs := InputsOutcome(t, cfgH, ctxH, chartH);
    if !name || out.None? then Errored(NoName)
    else if inputs.Errored? then Errored(inputs.err)
    else run
  }

  /** What runs between the lookup and the removal of a typed free. */
  datatype Hook = NoHook | HookReturns | HookPanics(message: string)

  /** A typed free: with a hook, the lookup comes first, and a panic in the hook leaves the entry alone. */
  function TypedFree(t: Table, h: nat, typ: HType, hook: Hook): (Table, Outcome<()>) {
    var got := Apply(t, Op.Get(h, typ)).1;
    if !hook.NoHook? && !got.Object? then (t, Errored(LookupError(got)))
    else if hook.HookPanics? then (t, Panicked(hook.message))
    else
      var (t', r) := Apply(t, Op.FreeTyped(h, typ));
      (t', FreeOutcome(r))
  }

  /** It returns OK, and removes the entry, exactly if the handle is live and of the type and no hook panics. */
  lemma TypedFreeSucceedsIff(t: Table, h: nat, typ: HType, hook: Hook)
    ensures var (t', o) := TypedFree(t, h, typ, hook);
            && (CodeOfOutcome(o) == OK <==> h in t.entries && t.entries[h].typ == typ && !hook.HookPanics?)
            && t' == (if CodeOfOutcome(o) == OK then t.(entries := t.entries - {h}) else t)
            && (CodeOfOutcome(o) == Panic <==> h in t.entries && t.entries[h].typ == typ && hook.HookPanics?)
            && (CodeOfOutcome(o) == InvalidHandle <==> h !in t.entries)
            && (CodeOfOutcome(o) == WrongHandleType <==> h in t.entries && t.entries[h].typ != typ)
  {
  }

  /** What a free amounts to, told from the registry's answer. */
  function FreeOutcome(r: Resp): Outcome<()> {
    if r.Freed? then Returned(()) else Errored(LookupError(r))
  }

  /** Shims that resolve one typed handle before their run. */
  function ThroughHandle<T>(t: Table, h: nat, typ: HType, run: Outcome<T>): Outcome<T> {
    var r := Apply(t, Op.Get(h, typ)).1;
    if r.Object? then run else Errored(LookupError(r))
  }

  /** The SDK is entered, and can decide the outcome, only when every handle is live and of its type. */
  lemma ActionRunsOnLiveHandles(t: Table, cfgH: nat, ctxH: nat, chartH: nat, name: bool, out: Option<nat>,
                                a: string, b: string)
    requires a != b
    ensures ChartActionOutcome(t, cfgH, ctxH, chartH, name, out, Returned(a)) !=
            ChartActionOutcome(t, cfgH, ctxH, chartH, name, out, Returned(b)) <==>
            && name && out.Some?
            && cfgH in t.entries && t.entries[cfgH].typ == TConfig
            && (chartH == 0 || (chartH in t.entries && t.entries[chartH].typ == TChart))
            && (ctxH == 0 || (ctxH in t.entries && t.entries[ctxH].typ == TContext))
  {
  }

  /**
   Over whole registry histories: the SDK is entered exactly for handles that were issued, as the types the
   call needs, and that no free has released, the optional ones being left out by 0.
   */
  lemma ActionRunsOnIssuedHandles(log: seq<Event>, cfgH: nat, ctxH: nat, chartH: nat, name: bool, out: Option<nat>,
                                  a: string, b: string)
    requires Consistent(log) && Puts(log) < TWO_64 && a != b
    ensures ChartActionOutcome(After(log), cfgH, ctxH, chartH, name, out, Returned(a)) !=
            ChartActionOutcome(After(log), cfgH, ctxH, chartH, name, out, Returned(b)) <==>
            && name && out.Some?
            && IssuedAs(log, cfgH, TConfig)
            && (chartH == 0 || IssuedAs(log, chartH, TChart))
            && (ctxH == 0 || IssuedAs(log, ctxH, TContext))
  {
    ActionRunsOnLiveHandles(After(log), cfgH, ctxH, chartH, name, out, a, b);
    TableShape(log);
  }

  /** What a handle argument of a given type calls for, in the state of the table. */
  function HandleCode(t: Table, h: nat, typ: HType): Code {
    if h !in t.entries then InvalidHandle
    else if t.entries[h].typ != typ then WrongHandleType
    else OK
  }

  /** The first failure of two steps, in this order. */
  function Then(first: Code, second: Code): Code {
    if first != OK then first else second
  }

  /** The code of a chart accessor: out, then the handle and its type, then the run; only then is it the run's. */
  lemma ChartShimCodeIs(t: Table, h: nat, out: Option<nat>, run: Outcome<string>)
    requires Proper(run)
    ensures var o := WithOut(out, ThroughHandle(t, h, TChart, run));
            && CodeOfOutcome(o) ==
               Then(if out.Some? then OK else InvalidArg, Then(HandleCode(t, h, TChart), CodeOfOutcome(run)))
            && (out.Some? && HandleCode(t, h, TChart) == OK ==> o == run)
            && (!(out.Some? && HandleCode(t, h, TChart) == OK) ==> o.Errored?)
  {
  }

  /** The code of install and upgrade: the first thing wrong, in the order of the checks. */
  lemma ActionCodeIs(t: Table, cfgH: nat, ctxH: nat, chartH: nat, name: bool, out: Option<nat>, run: Outcome<string>)
    requires Proper(run)
    ensures CodeOfOutcome(ChartActionOutcome(t, cfgH, ctxH, chartH, name, out, run)) ==
            Then(if name && out.Some? then OK else InvalidArg,
                 Then(InputsCode(t, cfgH, ctxH, chartH), CodeOfOutcome(run)))
  {
    InputsCodeIs(t, cfgH, ctxH, chartH);
  }

  function InputsCode(t: Table, cfgH: nat, ctxH: nat, chartH: nat): Code {
    Then(HandleCode(t, cfgH, TConfig),
         Then(if chartH == 0 then OK else HandleCode(t, chartH, TChart),
              if ctxH == 0 then OK else HandleCode(t, ctxH, TContext)))
  }

  lemma InputsCodeIs(t: Table, cfgH: nat, ctxH: nat, chartH: nat)
    ensures CodeOfOutcome(InputsOutcome(t, cfgH, ctxH, chartH)) == InputsCode(t, cfgH, ctxH, chartH)
    ensures Proper(InputsOutcome(t, cfgH, ctxH, chartH)) && !InputsOutcome(t, cfgH, ctxH, chartH).Panicked?
  {
  }

  /** Over registry histories: a chart accessor runs on issued, unreleased chart handles, and on nothing else. */
  lemma ChartShimRunsOnIssuedCharts(log: seq<Event>, h: nat, out: Option<nat>, a: string, b: string)
    requires Consistent(log) && Puts(log) < TWO_64 && a != b
    ensures WithOut(out, ThroughHandle(After(log), h, TChart, Returned(a))) !=
            WithOut(out, ThroughHandle(After(log), h, TChart, Returned(b))) <==>
            out.Some? && IssuedAs(log, h, TChart)
    ensures var code := CodeOfOutcome(WithOut(out, ThroughHandle(After(log), h, TChart, Returned(a))));
            && (code == InvalidArg <==> out.None?)
            && (code == InvalidHandle <==> out.Some? && (h !in IssuedFor(log) || h in Released(log)))
            && (code == WrongHandleType <==>
                  out.Some? && h in IssuedFor(log) && h !in Released(log) && IssuedFor(log)[h].typ != TChart)
  {
    TableShape(log);
  }

  ghost predicate IssuedAs(log: seq<Event>, h: nat, typ: HType) {
    h in IssuedFor(log) && IssuedFor(log)[h].typ == typ && h !in Released(log)
  }

  /** A call returns 0 exactly when it succeeded, and a negative number otherwise. */
  lemma ZeroIsSuccess<T>(o: Outcome<T>)
    requires Proper(o)
    ensures CodeNumber(CodeOfOutcome(o)) == 0 <==> o.Returned?
    ensures CodeNumber(CodeOfOutcome(o)) < 0 <==> !o.Returned?
  {
  }

  class Library {
    var heap: map<nat, string>
    var next: nat
    var slots: map<nat, nat>
    var handleSlots: map<nat, nat>
    const registry: Registry

    function View(): Mem
      reads this, registry
    {
      Mem(heap, slots, handleSlots, registry.Contents())
    }

    /** `next` stands for malloc's choice of an address not in use. */
    ghost predicate Valid()
      reads this
    {
      next > 0 && forall p | p in heap :: 0 < p < next
    }

    constructor ()
      ensures Valid() && fresh(registry)
      ensures View() == Mem(map[], map[], map[], Empty)
    {
      heap, slots, handleSlots := map[], map[], map[];
      next := 1;
      registry := new Registry();
    }

    method CString(s: string) returns (p: nat)
      requires Valid()
      modifies this`heap, this`next
      ensures Valid() && p != 0 && p !in old(heap)
      ensures heap == old(heap)[p := s]
    {
      p := next;
      heap := heap[p := s];
      next := next + 1;
    }

    /** helm_free_string; freeing a non-NULL pointer that is not live is undefined behaviour in C. */
    method FreeString(p: nat)
      requires Valid() && (p == 0 || p in heap)
      modifies this`heap
      ensures Valid() && heap == old(heap) - {p}
    {
      if p != 0 {
        heap := heap - {p};
      }
    }

    method ClearErrorOut(errOut: Option<nat>)
      requires Valid()
      modifies this`slots
      ensures Valid() && View() == Cleared(old(View()), errOut)
    {
      if errOut.Some? {
        slots := slots[errOut.value := 0];
      }
    }

    /** Both the error path and the deferred recover end here. */
    method Fail<T>(errOut: Option<nat>, o: Outcome<T>) returns (code: Code)
      requires Valid() && !o.Returned?
      modifies this`heap, this`next, this`slots
      ensures Valid() && code == CodeOfOutcome(o)
      ensures if errOut.None? then View() == old(View())
              else Stored(old(View()), View(), errOut.value, DetailOf(o))
    {
      if errOut.Some? {
        var p := CString(DetailOf(o));
        slots := slots[errOut.value := p];
        assert View() == old(View()).(heap := old(heap)[p := DetailOf(o)], slots := old(slots)[errOut.value := p]);
      }
      code := CodeOfOutcome(o);
    }

    method StringResult(out: Option<nat>, errOut: Option<nat>, run: Outcome<string>) returns (code: Code)
      requires Valid()
      modifies this`heap, this`next, this`slots
      ensures Valid() && code == CodeOfOutcome(WithOut(out, run))
      ensures StringCall(old(View()), View(), out, errOut, WithOut(out, run))
    {
      ClearErrorOut(errOut);
      if out.None? {
        code := Fail<string>(errOut, Errored(NoOut));
        return;
      }
      code := Deliver(out.value, errOut, run);
    }

    /** The end of every shim that yields a string. */
    method Deliver(out: nat, errOut: Option<nat>, run: Outcome<string>) returns (code: Code)
      requires Valid()
      modifies this`heap, this`next, this`slots
      ensures Valid() && code == CodeOfOutcome(run)
      ensures if run.Returned? then Stored(old(View()), View(), out, run.value)
              else if errOut.None? then View() == old(View())
              else Stored(old(View()), View(), errOut.value, DetailOf(run))
    {
      if !run.Returned? {
        code := Fail(errOut, run);
        return;
      }
      var p := CString(run.value);
      slots := slots[out := p];
      assert View() == old(View()).(heap := old(heap)[p := run.value], slots := old(slots)[out := p]);
      code := OK;
    }

    method HandleResult(out: Option<nat>, errOut: Option<nat>, run: Outcome<Entry>) returns (code: Code)
      requires Valid()
      modifies this`heap, this`next, this`slots, this`handleSlots, registry
      ensures Valid() && code == CodeOfOutcome(WithOut(out, run))
      ensures HandleCall(old(View()), View(), out, errOut, WithOut(out, run))
    {
      ClearErrorOut(errOut);
      if out.None? {
        code := Fail<Entry>(errOut, Errored(NoOut));
        return;
      }
      if !run.Returned? {
        code := Fail(errOut, run);
        return;
      }
      var h := registry.Put(run.value.typ, run.value.obj);
      handleSlots := handleSlots[out.value := h];
      code := OK;
    }

    method StatusResult(errOut: Option<nat>, run: Outcome<()>) returns (code: Code)
      requires Valid()
      modifies this`heap, this`next, this`slots
      ensures Valid() && code == CodeOfOutcome(run)
      ensures if run.Returned? then View() == Cleared(old(View()), errOut)
              else FailedWith(old(View()), View(), errOut, run)
    {
      ClearErrorOut(errOut);
      if !run.Returned? {
        code := Fail(errOut, run);
        return;
      }
      code := OK;
    }

    method Resolve(h: nat, typ: HType) returns (r: Outcome<nat>)
      ensures var got := Apply(registry.Contents(), Op.Get(h, typ)).1;
              r == if got.Object? then Returned(got.obj) else Errored(LookupError(got))
    {
      var got := registry.Get(h, typ);
      r := if got.Object? then Returned(got.obj) else Errored(LookupError(got));
    }

    method ChartHandleShim(h: nat, out: Option<nat>, errOut: Option<nat>, run: Outcome<string>) returns (code: Code)
      requires Valid()
      modifies this`heap, this`next, this`slots
      ensures Valid()
      ensures var o := WithOut(out, ThroughHandle(old(View()).table, h, TChart, run));
              code == CodeOfOutcome(o) && StringCall(old(View()), View(), out, errOut, o)
    {
      var chart := Resolve(h, TChart);
      code := StringResult(out, errOut, if chart.Returned? then run else Errored(chart.err));
    }

    /** configAndOptionalChart and ctxOrBackground. */
    method ResolveInputs(cfgH: nat, ctxH: nat, chartH: nat) returns (r: Outcome<()>)
      ensures r == InputsOutcome(registry.Contents(), cfgH, ctxH, chartH)
    {
      var cfg := Resolve(cfgH, TConfig);
      if cfg.Errored? {
        return Errored(cfg.err);
      }
      if chartH != 0 {
        var chart := Resolve(chartH, TChart);
        if chart.Errored? {
          return Errored(chart.err);
        }
      }
      if ctxH != 0 {
        var ctx := Resolve(ctxH, TContext);
        if ctx.Errored? {
          return Errored(ctx.err);
        }
      }
      return Returned(());
    }

    method ChartActionShim(cfgH: nat, ctxH: nat, chartH: nat, name: bool, out: Option<nat>, errOut: Option<nat>,
                           run: Outcome<string>) returns (code: Code)
      requires Valid()
      modifies this`heap, this`next, this`slots
      ensures Valid()
      ensures var o := ChartActionOutcome(old(View()).table, cfgH, ctxH, chartH, name, out, run);
              code == CodeOfOutcome(o) && StringCall(old(View()), View(), out, errOut, o)
    {
      ClearErrorOut(errOut);
      if !name || out.None? {
        code := Fail<string>(errOut, Errored(NoName));
        return;
      }
      var inputs := ResolveInputs(cfgH, ctxH, chartH);
      if !inputs.Returned? {
        code := Fail(errOut, inputs);
        return;
      }
      code := Deliver(out.value, errOut, run);
    }

    /** The per-type frees. What the hook does, none of it to this memory, is the subject of FreeProtocol. */
    method FreeTyped(h: nat, typ: HType, hook: Hook, errOut: Option<nat>) returns (code: Code)
      requires Valid()
      modifies this`heap, this`next, this`slots, registry
      ensures Valid()
      ensures var (t, o) := TypedFree(old(View()).table, h, typ, hook);
              && code == CodeOfOutcome(o)
              && if o.Returned? then View() == Cleared(old(View()), errOut).(table := t)
                 else FailedWith(old(View()), View(), errOut, o)
    {
      var o := RunFreeTyped(h, typ, hook);
      code := StatusResult(errOut, o);
    }

    method RunFreeTyped(h: nat, typ: HType, hook: Hook) returns (o: Outcome<()>)
      modifies registry
      ensures (registry.Contents(), o) == TypedFree(old(registry.Contents()), h, typ, hook)
    {
      if !hook.NoHook? {
        var obj := registry.Get(h, typ);
        if !obj.Object? {
          return Errored(LookupError(obj));
        }
        if hook.HookPanics? {
          return Panicked(hook.message);
        }
      }
      var r := registry.FreeTyped(h, typ);
      o := FreeOutcome(r);
    }

    /** helm_handle_free. */
    method HandleFree(h: nat, errOut: Option<nat>) returns (code: Code)
      requires Valid()
      modifies this`heap, this`next, this`slots, registry
      ensures Valid()
      ensures code == OK <==> h in old(View()).table.entries
      ensures code == OK ==>
                View() == Cleared(old(View()), errOut).(table := Apply(old(View()).table, Op.Free(h)).0)
      ensures code != OK ==>
                && code == InvalidHandle
                && FailedWith<()>(old(View()), View(), errOut, Errored(LookupError(Invalid)))
    {
      ClearErrorOut(errOut);
      var r := registry.Free(h);
      if r.Invalid? {
        code := Fail<()>(errOut, Errored(LookupError(Invalid)));
        return;
      }
      code := OK;
    }
  }
}
