/**
 What every interleaving of setters and loggers guarantees: quiescence of a replaced registration,
 silence while nothing is registered, the threshold, and termination of every swap.
 */
module LogTheorems {
  import opened Prelude
  import opened LogDelivery
  import RW = RWMutex

  ghost predicate Reachable(s: State) {
    && s.regs != []
    && exists n: nat, acts: seq<Action> :: Runs(Init(n), acts) && Exec(Init(n), acts) == s
  }

  lemma ReachableInv(s: State)
    requires Reachable(s)
    ensures Inv(s)
  {
    var n: nat, acts: seq<Action> :| Runs(Init(n), acts) && Exec(Init(n), acts) == s;
    assert Inv(Init(n));
    InvExec(Init(n), acts);
  }

  // ---- Quiescence ---------------------------------------------------------

  predicate Uses(r: Reg, cb: nat, data: nat) {
    r.cb == Some(cb) && r.data == data
  }

  /** A delivery in flight uses exactly the pair registered at that moment, which is not NULL. */
  lemma InFlightIsCurrent(s: State, t: nat)
    requires Reachable(s)
    requires t < |s.threads| && s.threads[t].LCalling?
    ensures s.cb == Some(s.threads[t].cb) && s.data == s.threads[t].data
    ensures s.regs != [] && Uses(Last(s), s.threads[t].cb, s.threads[t].data)
  {
    ReachableInv(s);
    assert LockRight(s, t) && DataRight(s, t);
  }

  lemma LaterDeliveriesUseLater(s: State, a: Action)
    requires Inv(s) && Enabled(s, a)
    ensures forall i: nat | |s.delivered| <= i < |Next(s, a).delivered| :: Next(s, a).delivered[i].used >= |s.regs| - 1
  {
    NewDeliveryRight(s, a);
  }

  lemma {:induction false} DeliveriesUseLater(s: State, acts: seq<Action>)
    requires Inv(s) && Runs(s, acts)
    ensures forall i: nat | |s.delivered| <= i < |Exec(s, acts).delivered| ::
              Exec(s, acts).delivered[i].used >= |s.regs| - 1
    decreases |acts|
  {
    if acts != [] {
      var s1 := Next(s, acts[0]);
      NextKeepsHistory(s, acts[0]);
      InvNext(s, acts[0]);
      LaterDeliveriesUseLater(s, acts[0]);
      DeliveriesUseLater(s1, acts[1..]);
      InvExec(s1, acts[1..]);
    }
  }

  /**
   Quiescence. Take a state in which a setter that installed registration `g` has released the write
   lock, so in particular any state after it returned. Unless (cb, data) is registered again, from `g`
   on, no later delivery starts with that pair, and none using it is in flight at any later point.
   */
  lemma ReplacedPairIsQuiet(s: State, acts: seq<Action>, g: nat, cb: nat, data: nat)
    requires Reachable(s) && g < |s.regs| && Runs(s, acts)
    requires forall k: nat | g <= k < |Exec(s, acts).regs| :: !Uses(Exec(s, acts).regs[k], cb, data)
    ensures forall t: nat | t < |Exec(s, acts).threads| && Exec(s, acts).threads[t].LCalling? ::
              !(Exec(s, acts).threads[t].cb == cb && Exec(s, acts).threads[t].data == data)
    ensures forall i: nat | |s.delivered| <= i < |Exec(s, acts).delivered| ::
              !(Exec(s, acts).delivered[i].cb == cb && Exec(s, acts).delivered[i].data == data)
  {
    ReachableInv(s);
    var end := Exec(s, acts);
    InvExec(s, acts);
    DeliveriesUseLater(s, acts);
    forall t: nat | t < |end.threads| && end.threads[t].LCalling?
      ensures !(end.threads[t].cb == cb && end.threads[t].data == data)
    {
      assert LockRight(end, t) && DataRight(end, t);
      assert Current(end) == Last(end);
    }
    forall i: nat | |s.delivered| <= i < |end.delivered|
      ensures !(end.delivered[i].cb == cb && end.delivered[i].data == data)
    {
      assert DeliveryRight(end, end.delivered[i]);
    }
  }

  /** A setter past its unlock has its registration in the history, where the theorem above finds it. */
  lemma SetterInstalled(s: State, t: nat)
    requires Reachable(s) && t < |s.threads| && s.threads[t].SUnlocked?
    ensures s.threads[t].gen < |s.regs| && s.regs[s.threads[t].gen] == s.threads[t].r
  {
    ReachableInv(s);
    assert DataRight(s, t);
  }

  /** While only NULL is registered nothing is delivered, whatever the handler global says. */
  lemma SilentWhileNull(s: State, acts: seq<Action>)
    requires Reachable(s) && Runs(s, acts)
    requires forall k: nat | |s.regs| - 1 <= k < |Exec(s, acts).regs| :: Exec(s, acts).regs[k].cb.None?
    ensures Exec(s, acts).delivered == s.delivered
  {
    ReachableInv(s);
    var end := Exec(s, acts);
    InvExec(s, acts);
    DeliveriesUseLater(s, acts);
    var next := |s.delivered|;
    assert next < |end.delivered| ==> DeliveryRight(end, end.delivered[next]);
  }

  // ---- The threshold ------------------------------------------------------

  /**
   Every delivered record met the threshold it was tested against, and the pair it was delivered to was
   registered no earlier. It met the threshold of that very pair too unless a swap between the two tests
   had raised it; `LogRuns.SwapBetweenTestsDelivers` shows that every swap that raises it can break it.
   */
  lemma DeliveredMetThreshold(s: State, i: nat)
    requires Reachable(s) && i < |s.delivered|
    ensures var d := s.delivered[i];
            && d.tested <= d.used < |s.regs|
            && d.level >= s.regs[d.tested].level
            && Uses(s.regs[d.used], d.cb, d.data)
            && (s.regs[d.used].level <= s.regs[d.tested].level ==> d.level >= s.regs[d.used].level)
  {
    ReachableInv(s);
    assert DeliveryRight(s, s.delivered[i]);
  }

  // ---- Termination --------------------------------------------------------

  /** Steps a call still has to take. */
  function StepsLeft(st: Stage): nat {
    match st
    case Idle => 0
    case SWant(_) => 7
    case SWait(_) => 6
    case SHeld(_) => 5
    case SWroteCb(_) => 4
    case SWroteData(_) => 3
    case SWroteAll(_, _) => 2
    case SUnlocked(_, _) => 1
    case LResolve(_) => 11
    case LEnabledWant(_) => 10
    case LEnabledWait(_) => 9
    case LEnabledHeld(_) => 8
    case LEnabledGot(_, _, _) => 7
    case LHandleWant(_, _) => 6
    case LHandleWait(_, _) => 5
    case LHandleHeld(_, _) => 4
    case LChecked(_, _) => 3
    case LCalling(_, _, _, _) => 2
    case LReturned => 1
  }

  function Work(threads: seq<Stage>): nat {
    if threads == [] then 0 else StepsLeft(threads[0]) + Work(threads[1..])
  }

  lemma {:induction false} WorkUpdate(threads: seq<Stage>, t: nat, st: Stage)
    requires t < |threads|
    ensures Work(threads[t := st]) + StepsLeft(threads[t]) == Work(threads) + StepsLeft(st)
  {
    if t != 0 {
      assert threads[t := st][1..] == threads[1..][t - 1 := st];
      WorkUpdate(threads[1..], t - 1, st);
    } else {
      assert threads[t := st][1..] == threads[1..];
    }
  }

  lemma AdvanceWorks(s: State, t: nat)
    requires Inv(s) && Enabled(s, Advance(t))
    ensures Work(Next(s, Advance(t)).threads) < Work(s.threads)
  {
    assert DataRight(s, t);
    var st := Next(s, Advance(t)).threads[t];
    assert Next(s, Advance(t)).threads == s.threads[t := st];
    WorkUpdate(s.threads, t, st);
  }

  ghost predicate Quiet(s: State) {
    forall t: nat | t < |s.threads| :: s.threads[t].Idle?
  }

  ghost predicate OnlyAdvances(acts: seq<Action>) {
    forall i: nat | i < |acts| :: acts[i].Advance?
  }

  /** No deadlock: while a call is unfinished, some call can step, because callbacks always return. */
  lemma SomeoneAdvances(s: State, t: nat) returns (u: nat)
    requires Inv(s) && t < |s.threads| && !s.threads[t].Idle?
    ensures Enabled(s, Advance(u))
  {
    u := t;
    assert LockRight(s, t);
    if Blocked(s, t) {
      u := s.lock.writer.value;
      assert LockRight(s, u);
      if s.threads[u].Idle? || Blocked(s, u) {
        u :| u in s.lock.readers;
        assert LockRight(s, u);
      }
    }
  }

  lemma {:induction false} WorkBoundsRun(s: State, acts: seq<Action>)
    requires Inv(s) && Runs(s, acts) && OnlyAdvances(acts)
    ensures |acts| + Work(Exec(s, acts).threads) <= Work(s.threads)
    decreases |acts|
  {
    if acts != [] {
      NextKeepsHistory(s, acts[0]);
      InvNext(s, acts[0]);
      AdvanceWorks(s, acts[0].t);
      WorkBoundsRun(Next(s, acts[0]), acts[1..]);
    }
  }

  /**
   Termination with no new calls, under every scheduler: runs are bounded by the work in flight, and one
   that cannot be extended has returned every call, in particular every helm_set_log_handler.
   */
  lemma EveryCallReturns(s: State, acts: seq<Action>)
    requires Reachable(s) && Runs(s, acts) && OnlyAdvances(acts)
    ensures |acts| <= Work(s.threads)
    ensures Quiet(Exec(s, acts)) || exists u: nat :: Enabled(Exec(s, acts), Advance(u))
  {
    ReachableInv(s);
    InvExec(s, acts);
    WorkBoundsRun(s, acts);
    var end := Exec(s, acts);
    if t: nat :| t < |end.threads| && !end.threads[t].Idle? {
      var u := SomeoneAdvances(end, t);
    }
  }

  // ---- A pending swap against endless new calls ---------------------------

  /** Setter `w` has announced itself and waits for the readers inside. */
  ghost predicate Pending(s: State, w: nat) {
    w < |s.threads| && s.threads[w].SWait? && s.lock.writer == Some(w) && !s.lock.acquired
  }

  /** Steps a reader still has to take inside the lock. */
  function ToRelease(st: Stage): nat {
    match st
    case LEnabledWait(_) => 3
    case LEnabledHeld(_) => 2
    case LEnabledGot(_, _, _) => 1
    case LHandleWait(_, _) => 5
    case LHandleHeld(_, _) => 4
    case LChecked(_, _) => 3
    case LCalling(_, _, _, _) => 2
    case LReturned => 1
    case _ => 0
  }

  function Load(threads: seq<Stage>, readers: set<nat>, from: nat): nat
    requires from <= |threads|
    decreases |threads| - from
  {
    if from == |threads| then 0
    else (if from in readers then ToRelease(threads[from]) else 0) + Load(threads, readers, from + 1)
  }

  lemma {:induction false} LoadDrops(s: State, s': State, t: nat, from: nat)
    requires |s'.threads| == |s.threads| && from <= |s.threads| && t < |s.threads|
    requires forall u: nat | u < |s.threads| && u != t ::
               s'.threads[u] == s.threads[u] && (u in s'.lock.readers <==> u in s.lock.readers)
    requires (if t in s'.lock.readers then ToRelease(s'.threads[t]) else 0) +
             (if t in s.lock.readers then 1 else 0) <=
             (if t in s.lock.readers then ToRelease(s.threads[t]) else 0)
    ensures Load(s'.threads, s'.lock.readers, from) + (if from <= t && t in s.lock.readers then 1 else 0) <=
            Load(s.threads, s.lock.readers, from)
    decreases |s.threads| - from
  {
    if from < |s.threads| {
      LoadDrops(s, s', t, from + 1);
    }
  }

  lemma PendingStep(s: State, a: Action, w: nat)
    requires Inv(s) && Enabled(s, a) && Pending(s, w) && Pending(Next(s, a), w)
    ensures Load(Next(s, a).threads, Next(s, a).lock.readers, 0) + (if a.t in s.lock.readers then 1 else 0) <=
            Load(s.threads, s.lock.readers, 0)
  {
    var s' := Next(s, a);
    StepMoves(s, a);
    assert LockRight(s, a.t) && DataRight(s, a.t);
    assert LockRight(s, w);
    LoadDrops(s, s', a.t, 0);
  }

  function HolderSteps(s: State, acts: seq<Action>): nat
    requires s.regs != [] && Runs(s, acts)
    decreases |acts|
  {
    if acts == [] then 0
    else
      NextKeepsHistory(s, acts[0]);
      (if acts[0].t in s.lock.readers then 1 else 0) + HolderSteps(Next(s, acts[0]), acts[1..])
  }

  ghost predicate PendingThroughout(s: State, acts: seq<Action>, w: nat)
    requires s.regs != [] && Runs(s, acts)
    decreases |acts|
  {
    && Pending(s, w)
    && (acts != [] ==>
          (NextKeepsHistory(s, acts[0]); PendingThroughout(Next(s, acts[0]), acts[1..], w)))
  }

  /**
   A pending swap outlasts at most Load steps of the readers that were inside when it announced itself,
   however many new loggers and setters begin meanwhile: those are kept out.
   */
  lemma {:induction false} PendingSwapIsBounded(s: State, acts: seq<Action>, w: nat)
    requires Inv(s) && Runs(s, acts) && PendingThroughout(s, acts, w)
    ensures HolderSteps(s, acts) + Load(Exec(s, acts).threads, Exec(s, acts).lock.readers, 0) <=
            Load(s.threads, s.lock.readers, 0)
    decreases |acts|
  {
    if acts != [] {
      NextKeepsHistory(s, acts[0]);
      InvNext(s, acts[0]);
      PendingStep(s, acts[0], w);
      PendingSwapIsBounded(Next(s, acts[0]), acts[1..], w);
    }
  }

  /** And while it is pending, either it can acquire or every reader inside can step: none is stuck. */
  lemma PendingSwapIsNotStuck(s: State, w: nat)
    requires Inv(s) && Pending(s, w)
    ensures if s.lock.readers == {} then Enabled(s, Advance(w))
            else forall t | t in s.lock.readers :: Enabled(s, Advance(t))
  {
    forall t | t in s.lock.readers
      ensures Enabled(s, Advance(t))
    {
      assert LockRight(s, t);
    }
  }

  // ---- Why the callback must not call back --------------------------------

  ghost predicate NoStepOf(acts: seq<Action>, t: nat) {
    forall i: nat | i < |acts| :: acts[i].t != t
  }

  /**
   If the callback running on `t` waits for a helm_set_log_handler call `u` it made, so that `t` takes no
   step before `u` returns, then `u` never gets the lock: the two wait for each other for ever.
   */
  lemma {:induction false} ReentrantSetNeverReturns(s: State, acts: seq<Action>, t: nat, u: nat)
    requires Inv(s) && Runs(s, acts) && NoStepOf(acts, t) && t != u
    requires t < |s.threads| && s.threads[t].LCalling?
    requires u < |s.threads| && (s.threads[u].SWant? || s.threads[u].SWait?)
    ensures var end := Exec(s, acts);
            u < |end.threads| && (end.threads[u].SWant? || end.threads[u].SWait?)
    decreases |acts|
  {
    if acts != [] {
      assert LockRight(s, t) && LockRight(s, u);
      NextKeepsHistory(s, acts[0]);
      InvNext(s, acts[0]);
      StepMoves(s, acts[0]);
      assert acts[0].t != t;
      assert NoStepOf(acts[1..], t) by {
        forall i: nat | i < |acts[1..]| ensures acts[1..][i].t != t {
          assert acts[1..][i] == acts[i + 1];
        }
      }
      ReentrantSetNeverReturns(Next(s, acts[0]), acts[1..], t, u);
    }
  }

  ghost predicate WantsToLog(st: Stage) {
    st.LEnabledWant? || st.LEnabledWait?
  }

  /** The same for a callback that logs while a swap `w` is pending: the nested record waits for ever. */
  lemma {:induction false} ReentrantLogNeverReturns(s: State, acts: seq<Action>, t: nat, u: nat, w: nat)
    requires Inv(s) && Runs(s, acts) && NoStepOf(acts, t) && t != u
    requires t < |s.threads| && s.threads[t].LCalling? && Pending(s, w)
    requires u < |s.threads| && WantsToLog(s.threads[u]) && u !in s.lock.readers
    ensures var end := Exec(s, acts);
            u < |end.threads| && WantsToLog(end.threads[u]) && Pending(end, w)
    decreases |acts|
  {
    if acts != [] {
      assert LockRight(s, t) && LockRight(s, u) && LockRight(s, w);
      NextKeepsHistory(s, acts[0]);
      InvNext(s, acts[0]);
      StepMoves(s, acts[0]);
      assert acts[0].t != t;
      assert LockRight(s, acts[0].t);
      assert NoStepOf(acts[1..], t) by {
        forall i: nat | i < |acts[1..]| ensures acts[1..][i].t != t {
          assert acts[1..][i] == acts[i + 1];
        }
      }
      ReentrantLogNeverReturns(Next(s, acts[0]), acts[1..], t, u, w);
    }
  }

  // ---- The two globals ----------------------------------------------------

  ghost predicate NoSetter(s: State) {
    forall t: nat | t < |s.threads| :: !IsSetter(s.threads[t])
  }

  /** Every setter in flight registers a callback if `some`, and NULL otherwise. */
  ghost predicate SettersAre(s: State, some: bool) {
    forall t: nat | t < |s.threads| && IsSetter(s.threads[t]) :: s.threads[t].r.cb.Some? == some
  }

  /** Setter calls that overlap all register a callback or all register NULL. */
  ghost predicate CompatibleSetters(s: State, acts: seq<Action>)
    requires s.regs != [] && Runs(s, acts)
    decreases |acts|
  {
    acts == [] ||
    (&& (acts[0].BeginSet? ==> SettersAre(s, acts[0].cb.Some?))
     && (NextKeepsHistory(s, acts[0]); CompatibleSetters(Next(s, acts[0]), acts[1..])))
  }

  ghost predicate GlobalsAgree(s: State) {
    s.handler.CHandler? <==> s.cb.Some?
  }

  predicate WroteCallback(st: Stage) {
    st.SWroteCb? || st.SWroteData? || st.SWroteAll? || st.SUnlocked?
  }

  ghost predicate CompatInv(s: State) {
    && (SettersAre(s, true) || SettersAre(s, false))
    && (forall t: nat | t < |s.threads| && WroteCallback(s.threads[t]) :: s.threads[t].r.cb.Some? == s.cb.Some?)
    && (GlobalsAgree(s) || exists t: nat :: t < |s.threads| && WroteCallback(s.threads[t]))
  }

  lemma CompatInvSetter(s: State, t: nat)
    requires Inv(s) && CompatInv(s) && Enabled(s, Advance(t)) && IsSetter(s.threads[t])
    ensures CompatInv(Next(s, Advance(t)))
  {
    var s' := Next(s, Advance(t));
    var some := s.threads[t].r.cb.Some?;
    assert SettersAre(s, some);
    assert SettersAre(s', some);
    if WroteCallback(s'.threads[t]) {
    } else if !s.threads[t].SUnlocked? && !GlobalsAgree(s) {
      var u: nat :| u < |s.threads| && WroteCallback(s.threads[u]);
      assert WroteCallback(s'.threads[u]);
    }
  }

  lemma CompatInvOther(s: State, a: Action)
    requires Inv(s) && CompatInv(s) && Enabled(s, a)
    requires a.Advance? ==> !IsSetter(s.threads[a.t])
    requires a.BeginSet? ==> SettersAre(s, a.cb.Some?)
    ensures CompatInv(Next(s, a))
  {
    var s' := Next(s, a);
    StepMoves(s, a);
    LoggerFrame(s, a);
    assert s'.handler == s.handler;
    assert !WroteCallback(s'.threads[a.t]) && !WroteCallback(s.threads[a.t]);
    assert IsSetter(s'.threads[a.t]) ==> a.BeginSet? && s'.threads[a.t].r.cb == a.cb;
    var some := if a.BeginSet? then a.cb.Some? else if SettersAre(s, true) then true else false;
    assert SettersAre(s', some);
    if !GlobalsAgree(s) {
      var u: nat :| u < |s.threads| && WroteCallback(s.threads[u]);
      assert WroteCallback(s'.threads[u]);
    }
  }

  lemma {:induction false} CompatInvExec(s: State, acts: seq<Action>)
    requires Inv(s) && CompatInv(s) && Runs(s, acts) && CompatibleSetters(s, acts)
    ensures CompatInv(Exec(s, acts))
    decreases |acts|
  {
    if acts != [] {
      NextKeepsHistory(s, acts[0]);
      InvNext(s, acts[0]);
      if acts[0].Advance? && IsSetter(s.threads[acts[0].t]) {
        CompatInvSetter(s, acts[0].t);
      } else {
        CompatInvOther(s, acts[0]);
      }
      CompatInvExec(Next(s, acts[0]), acts[1..]);
    }
  }

  /**
   If overlapping setters always agree on whether they register a callback or NULL, the two globals agree
   whenever no setter is in flight. `LogRuns.MixedSettersCanDisagree` is the other half.
   */
  lemma CompatibleSettersAgree(n: nat, acts: seq<Action>)
    requires Runs(Init(n), acts) && CompatibleSetters(Init(n), acts)
    requires NoSetter(Exec(Init(n), acts))
    ensures GlobalsAgree(Exec(Init(n), acts))
  {
    assert Inv(Init(n));
    assert SettersAre(Init(n), true) && GlobalsAgree(Init(n));
    CompatInvExec(Init(n), acts);
  }
}
