/** What a caller that keeps its side of the ownership contract can rely on, over whole sessions. */
module Sessions {
  import opened Prelude
  import opened HandleTable
  import opened ErrorTrees
  import opened Boundary

  datatype Request =
    | AskString(out: Option<nat>, errOut: Option<nat>, text: Outcome<string>)
    | AskChart(chart: nat, out: Option<nat>, errOut: Option<nat>, text: Outcome<string>)
    | AskAction(cfg: nat, ctx: nat, chart: nat, name: bool, out: Option<nat>, errOut: Option<nat>,
                text: Outcome<string>)
    | AskHandle(out: Option<nat>, errOut: Option<nat>, entry: Outcome<Entry>)
    | AskStatus(errOut: Option<nat>, status: Outcome<()>)
    | FreeHandle(handle: nat, errOut: Option<nat>)
    | FreeTypedHandle(handle: nat, typ: HType, hook: Hook, errOut: Option<nat>)
    | FreeText(p: nat)

  /** The out-parameters are different variables, and the library codes no error as OK. */
  ghost predicate WellFormed(r: Request) {
    match r
    case AskString(out, errOut, text) => (out.Some? ==> out != errOut) && Proper(text)
    case AskChart(_, out, errOut, text) => (out.Some? ==> out != errOut) && Proper(text)
    case AskAction(_, _, _, _, out, errOut, text) => (out.Some? ==> out != errOut) && Proper(text)
    case AskHandle(_, _, entry) => Proper(entry)
    case AskStatus(_, status) => Proper(status)
    case _ => true
  }

  /** The strings a string call handed over, told from its code and the caller's own variables. */
  function Received(m: Mem, out: Option<nat>, errOut: Option<nat>, code: Code): set<nat> {
    var slot := if code == OK then out else errOut;
    if slot.Some? && slot.value in m.slots then {m.slots[slot.value]} else {}
  }

  lemma SuccessOwes(m: Mem, m': Mem, out: Option<nat>, errOut: Option<nat>, o: Outcome<string>)
    requires o.Returned? && StringCall(m, m', out, errOut, o) && out != errOut
    ensures out.value in m'.slots && m'.slots[out.value] != 0 && m'.slots[out.value] !in m.heap
    ensures m'.heap.Keys == m.heap.Keys + {m'.slots[out.value]}
    ensures m'.heap == m.heap[m'.slots[out.value] := o.value]
    ensures errOut.Some? ==> m'.slots[errOut.value] == 0
    ensures m'.table == m.table && m'.handleSlots == m.handleSlots
  {
    var m0 := Cleared(m, errOut);
    var p: nat :|
      && p != 0 && p !in m0.heap
      && m' == m0.(heap := m0.heap[p := o.value], slots := m0.slots[out.value := p]);
  }

  lemma FailureOwes<T>(m: Mem, m': Mem, errOut: Option<nat>, o: Outcome<T>)
    requires !o.Returned? && FailedWith(m, m', errOut, o)
    ensures errOut.None? ==> m' == m
    ensures errOut.Some? ==> m'.heap.Keys == m.heap.Keys + {m'.slots[errOut.value]}
    ensures errOut.Some? ==>
              && errOut.value in m'.slots && m'.slots[errOut.value] != 0 && m'.slots[errOut.value] !in m.heap
              && m' == m.(heap := m.heap[m'.slots[errOut.value] := DetailOf(o)],
                          slots := m.slots[errOut.value := m'.slots[errOut.value]])
  {
    if errOut.Some? {
      var m0 := Cleared(m, errOut);
      var p: nat :|
        && p != 0 && p !in m0.heap
        && m' == m0.(heap := m0.heap[p := DetailOf(o)], slots := m0.slots[errOut.value := p]);
      assert m.slots[errOut.value := 0][errOut.value := p] == m.slots[errOut.value := p];
    }
  }

  /** A string call allocates exactly what the caller received: one fresh string, or none. */
  lemma StringCallOwes(m: Mem, m': Mem, out: Option<nat>, errOut: Option<nat>, o: Outcome<string>)
    requires StringCall(m, m', out, errOut, o) && Proper(o) && (out.Some? ==> out != errOut)
    ensures var got := Received(m', out, errOut, CodeOfOutcome(o));
            && m'.heap.Keys == m.heap.Keys + got
            && m.heap.Keys !! got
            && 0 !in got
            && |got| == (if CodeOfOutcome(o) == OK || errOut.Some? then 1 else 0)
    ensures m'.table == m.table && m'.handleSlots == m.handleSlots
  {
    if o.Returned? {
      SuccessTakesOne(m, m', out, errOut, o);
    } else {
      FailureTakesOne(m, m', out, errOut, o);
    }
  }

  lemma SuccessTakesOne(m: Mem, m': Mem, out: Option<nat>, errOut: Option<nat>, o: Outcome<string>)
    requires o.Returned? && StringCall(m, m', out, errOut, o) && out != errOut
    ensures var got := Received(m', out, errOut, OK);
            m'.heap.Keys == m.heap.Keys + got && m.heap.Keys !! got && 0 !in got && |got| == 1
    ensures m'.table == m.table && m'.handleSlots == m.handleSlots
  {
    var p := SuccessHandsOver(m, m', out, errOut, o);
    assert m.heap.Keys !! {p} && |{p}| == 1;
  }

  lemma SuccessHandsOver(m: Mem, m': Mem, out: Option<nat>, errOut: Option<nat>, o: Outcome<string>) returns (p: nat)
    requires o.Returned? && StringCall(m, m', out, errOut, o) && out != errOut
    ensures Received(m', out, errOut, OK) == {p} && p != 0 && p !in m.heap.Keys
    ensures m'.heap.Keys == m.heap.Keys + {p}
    ensures m'.table == m.table && m'.handleSlots == m.handleSlots
  {
    SuccessOwes(m, m', out, errOut, o);
    p := m'.slots[out.value];
  }

  lemma FailureTakesOne(m: Mem, m': Mem, out: Option<nat>, errOut: Option<nat>, o: Outcome<string>)
    requires !o.Returned? && Proper(o) && FailedWith(m, m', errOut, o)
    ensures var got := Received(m', out, errOut, CodeOfOutcome(o));
            && m'.heap.Keys == m.heap.Keys + got && m.heap.Keys !! got && 0 !in got
            && |got| == if errOut.Some? then 1 else 0
    ensures m'.table == m.table && m'.handleSlots == m.handleSlots
  {
    FailureOwes(m, m', errOut, o);
    assert Received(m', out, errOut, CodeOfOutcome(o)) == if errOut.Some? then {m'.slots[errOut.value]} else {};
  }

  /** Success leaves error_out NULL; failure or panic leaves `out` as it was. */
  lemma OutParametersKept(m: Mem, m': Mem, out: nat, errOut: nat, o: Outcome<string>)
    requires StringCall(m, m', Some(out), Some(errOut), o) && Proper(o) && out != errOut
    requires out in m.slots
    ensures CodeOfOutcome(o) == OK ==> m'.slots[errOut] == 0 && m'.heap[m'.slots[out]] == o.value
    ensures CodeOfOutcome(o) != OK ==> m'.slots[out] == m.slots[out] && m'.heap[m'.slots[errOut]] == DetailOf(o)
    ensures o.Errored? ==> m'.heap[m'.slots[errOut]] == Text(o.err)
    ensures o.Panicked? ==> m'.heap[m'.slots[errOut]] == "helm-c: recovered panic: " + o.message
  {
    if o.Returned? {
      SuccessOwes(m, m', Some(out), Some(errOut), o);
    } else {
      FailureOwes(m, m', Some(errOut), o);
    }
  }

  /** The char* out-parameter of a request, if it has one. */
  function OutOf(r: Request): Option<nat> {
    if r.AskString? || r.AskChart? || r.AskAction? then r.out else None
  }

  /** The same for a handle call: error_out is NULL after success, and `out` is as it was after failure. */
  lemma HandleOutParametersKept(m: Mem, m': Mem, out: nat, errOut: nat, o: Outcome<Entry>)
    requires HandleCall(m, m', Some(out), Some(errOut), o)
    ensures o.Returned? ==>
              && m'.slots == m.slots[errOut := 0] && m'.heap == m.heap
              && out in m'.handleSlots
              && m'.table.nextID == m'.handleSlots[out] == Bump(m.table.nextID)
              && m'.table.entries == m.table.entries[m'.handleSlots[out] := o.value]
              && forall v | v in m.handleSlots && v != out ::
                   v in m'.handleSlots && m'.handleSlots[v] == m.handleSlots[v]
    ensures !o.Returned? ==>
              && m'.handleSlots == m.handleSlots && m'.table == m.table
              && errOut in m'.slots && m'.slots[errOut] in m'.heap
              && m'.heap[m'.slots[errOut]] == DetailOf(o)
  {
    if !o.Returned? {
      FailureOwes(m, m', Some(errOut), o);
    }
  }

  function OutcomeOf(t: Table, r: Request): Outcome<string>
    requires r.AskString? || r.AskChart? || r.AskAction?
  {
    match r
    case AskString(out, _, text) => WithOut(out, text)
    case AskChart(chart, out, _, text) => WithOut(out, ThroughHandle(t, chart, TChart, text))
    case AskAction(cfg, ctx, chart, name, out, _, text) => ChartActionOutcome(t, cfg, ctx, chart, name, out, text)
  }

  /** The errors the shims add of their own accord are coded, and not as OK. */
  lemma ErrorsAreProper(t: Table, r: Request)
    requires WellFormed(r) && (r.AskString? || r.AskChart? || r.AskAction?)
    ensures Proper(OutcomeOf(t, r))
  {
  }

  /** Handles are issued above every live one while the counter has not overflowed. */
  ghost predicate TableOrderly(t: Table) {
    t.nextID < TWO_64 && forall id | id in t.entries :: 1 <= id <= t.nextID
  }

  /** A caller: the library, the strings it holds and the handles it holds. */
  class Caller {
    const lib: Library
    var held: set<nat>
    var handles: set<nat>

    /** The ledger balances: every allocation is held by the caller, and so is every live handle. */
    ghost predicate Balanced()
      reads this, lib, lib.registry
    {
      && lib.Valid()
      && lib.heap.Keys == held
      && lib.registry.entries.Keys == handles
      && TableOrderly(lib.registry.Contents())
    }

    constructor ()
      ensures Balanced() && fresh(lib) && fresh(lib.registry)
      ensures held == {} && handles == {} && lib.registry.nextID == 0
    {
      lib := new Library();
      held, handles := {}, {};
    }

    method Keep(out: Option<nat>, errOut: Option<nat>, code: Code)
      modifies this`held
      ensures held == old(held) + Received(lib.View(), out, errOut, code)
    {
      var slot := if code == OK then out else errOut;
      if slot.Some? && slot.value in lib.slots {
        held := held + {lib.slots[slot.value]};
      }
    }

    /** A handle is issued exactly when the call returns OK, and then `out` holds it. */
    method TakeHandle(out: Option<nat>, errOut: Option<nat>, entry: Outcome<Entry>) returns (code: Code)
      requires Balanced() && Proper(entry) && lib.registry.nextID + 1 < TWO_64
      modifies this, lib, lib.registry
      ensures Balanced() && lib.registry.nextID <= old(lib.registry.nextID) + 1
      ensures code == OK ==>
                && out.Some? && out.value in lib.handleSlots
                && handles == old(handles) + {lib.handleSlots[out.value]}
                && lib.handleSlots[out.value] !in old(handles)
                && lib.handleSlots[out.value] != 0
                && entry.Returned?
                && lib.registry.entries == old(lib.registry.entries)[lib.handleSlots[out.value] := entry.value]
      ensures code != OK ==> handles == old(handles)
      ensures held == old(held) + Received(lib.View(), None, errOut, code)
    {
      code := lib.HandleResult(out, errOut, entry);
      if code == OK {
        handles := handles + {lib.handleSlots[out.value]};
      } else {
        FailureOwes(old(lib.View()), lib.View(), errOut, WithOut(out, entry));
        Keep(None, errOut, code);
      }
    }

    method DropHandle(h: nat, errOut: Option<nat>) returns (code: Code)
      requires Balanced()
      modifies this, lib, lib.registry
      ensures Balanced() && lib.registry.nextID == old(lib.registry.nextID)
      ensures handles == old(handles) - {h}
      ensures code == OK <==> h in old(handles)
      ensures held == old(held) + Received(lib.View(), None, errOut, code)
    {
      code := lib.HandleFree(h, errOut);
      if code == OK {
        handles := handles - {h};
      } else {
        FailureOwes<()>(old(lib.View()), lib.View(), errOut, Errored(LookupError(Invalid)));
        Keep(None, errOut, code);
      }
    }

    method DropTyped(h: nat, typ: HType, hook: Hook, errOut: Option<nat>) returns (code: Code)
      requires Balanced()
      modifies this, lib, lib.registry
      ensures Balanced() && lib.registry.nextID == old(lib.registry.nextID)
      ensures code == OK <==> h in old(handles) && old(lib.registry.entries)[h].typ == typ && !hook.HookPanics?
      ensures handles == if code == OK then old(handles) - {h} else old(handles)
      ensures held == old(held) + Received(lib.View(), None, errOut, code)
    {
      ghost var o := TypedFree(lib.registry.Contents(), h, typ, hook).1;
      TypedFreeSucceedsIff(lib.registry.Contents(), h, typ, hook);
      code := lib.FreeTyped(h, typ, hook, errOut);
      if code == OK {
        handles := handles - {h};
      } else {
        FailureOwes<()>(old(lib.View()), lib.View(), errOut, o);
        Keep(None, errOut, code);
      }
    }

    /** Frees a string this caller holds; nothing else may be passed to helm_free_string but NULL. */
    method DropText(p: nat)
      requires Balanced() && p in held
      modifies this`held, lib`heap
      ensures Balanced() && held == old(held) - {p}
    {
      lib.FreeString(p);
      held := held - {p};
    }

    /** Takes what a string call from `before` handed over. */
    method KeepText(out: Option<nat>, errOut: Option<nat>, code: Code, ghost before: Mem, ghost o: Outcome<string>)
      requires lib.Valid() && StringCall(before, lib.View(), out, errOut, o) && code == CodeOfOutcome(o)
      requires Proper(o) && (out.Some? ==> out != errOut)
      requires before.heap.Keys == held && before.table.entries.Keys == handles && TableOrderly(before.table)
      modifies this`held
      ensures Balanced() && lib.registry.Contents() == before.table
      ensures held == old(held) + Received(lib.View(), out, errOut, code)
    {
      StringCallOwes(before, lib.View(), out, errOut, o);
      Keep(out, errOut, code);
    }

    method AskText(r: Request) returns (code: Code)
      requires Balanced() && WellFormed(r) && (r.AskString? || r.AskChart? || r.AskAction?)
      modifies this`held, lib`heap, lib`next, lib`slots
      ensures Balanced() && lib.registry.Contents() == old(lib.registry.Contents())
      ensures held == old(held) + Received(lib.View(), r.out, r.errOut, code)
    {
      ghost var before := lib.View();
      match r {
        case AskString(out, errOut, text) => code := lib.StringResult(out, errOut, text);
        case AskChart(chart, out, errOut, text) => code := lib.ChartHandleShim(chart, out, errOut, text);
        case AskAction(cfg, ctx, chart, name, out, errOut, text) =>
          code := lib.ChartActionShim(cfg, ctx, chart, name, out, errOut, text);
      }
      ErrorsAreProper(before.table, r);
      KeepText(r.out, r.errOut, code, before, OutcomeOf(before.table, r));
    }

    /**
     One request: the caller's strings grow by what its own variables received and shrink only by what it
     frees, and its handles grow only by one issued with OK.
     */
    method Ask(r: Request) returns (code: Code)
      requires Balanced() && WellFormed(r) && lib.registry.nextID + 1 < TWO_64
      modifies this, lib, lib.registry
      ensures Balanced() && lib.registry.nextID <= old(lib.registry.nextID) + 1
      ensures held == if r.FreeText? then old(held) - {r.p}
                      else old(held) + Received(lib.View(), OutOf(r), r.errOut, code)
      ensures !r.AskHandle? ==> handles <= old(handles)
      ensures r.AskHandle? && code == OK ==> exists h :: h !in old(handles) && handles == old(handles) + {h}
      ensures r.AskHandle? && code != OK ==> handles == old(handles)
    {
      code := OK;
      match r {
        case AskHandle(out, errOut, entry) => code := TakeHandle(out, errOut, entry);
        case AskStatus(errOut, status) =>
          code := lib.StatusResult(errOut, status);
          if code != OK {
            FailureOwes(old(lib.View()), lib.View(), errOut, status);
            Keep(None, errOut, code);
          }
        case FreeHandle(h, errOut) => code := DropHandle(h, errOut);
        case FreeTypedHandle(h, typ, hook, errOut) => code := DropTyped(h, typ, hook, errOut);
        case FreeText(p) =>
          if p in held {
            DropText(p);
          }
        case _ => code := AskText(r);
      }
    }

    /** Frees what is still held. */
    method Finish()
      requires Balanced()
      modifies this, lib, lib.registry
      ensures lib.heap == map[] && lib.registry.entries == map[]
    {
      while handles != {}
        invariant Balanced()
        decreases handles
      {
        var h :| h in handles;
        var code := DropHandle(h, None);
      }
      while held != {}
        invariant Balanced() && handles == {}
        decreases held
      {
        var p :| p in held;
        DropText(p);
      }
    }

    /**
     A whole session of any requests, in which calls may fail, panic, or free a handle any number of
     times, and the caller then frees what it holds: no string and no handle is left.
     */
    method Session(requests: seq<Request>)
      requires Balanced() && forall i: nat | i < |requests| :: WellFormed(requests[i])
      requires lib.registry.nextID + |requests| < TWO_64
      modifies this, lib, lib.registry
      ensures lib.heap == map[] && lib.registry.entries == map[]
    {
      var i := 0;
      while i < |requests|
        invariant 0 <= i <= |requests| && Balanced()
        invariant lib.registry.nextID + (|requests| - i) < TWO_64
      {
        var code := Ask(requests[i]);
        i := i + 1;
      }
      Finish();
    }
  }
}
