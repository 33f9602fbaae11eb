/**
 The log-callback protocol: helm_set_log_handler swaps a callback, its user data and its threshold under
 a write lock, then installs a handler behind a second lock; loggers test the threshold under the read
 lock, release it, take it again and run the callback while holding it.
 */
module LogDelivery {
  import opened Prelude
  import RW = RWMutex

  // ---- Levels -------------------------------------------------------------

  const DEBUG: int := -4
  const INFO: int := 0
  const WARN: int := 4
  const ERROR: int := 8

  /** slog level to HELM_LOG_* value. */
  function CLevel(l: int): (m: int)
    ensures 0 <= m <= 3
    ensures m == 0 <==> l < INFO
    ensures m == 3 <==> l >= ERROR
  {
    if l < INFO then 0 else if l < WARN then 1 else if l < ERROR then 2 else 3
  }

  /** HELM_LOG_* minimum to slog level; anything unknown is the highest. */
  function CSlogLevel(m: int): (l: int)
    ensures 0 <= m <= 3 ==> CLevel(l) == m
    ensures !(0 <= m <= 3) ==> l == ERROR
  {
    if m == 0 then DEBUG else if m == 1 then INFO else if m == 2 then WARN else ERROR
  }

  lemma CLevelMonotone(k: int, l: int)
    requires k <= l
    ensures CLevel(k) <= CLevel(l)
    ensures CLevel(k) < CLevel(l) <==> exists m :: 1 <= m <= 3 && k < CSlogLevel(m) <= l
  {
    if CLevel(k) < CLevel(l) {
      assert k < CSlogLevel(CLevel(l)) <= l;
    }
  }

  /** Filtering by slog level is filtering by enum value, except for records below Debug at minimum 0. */
  lemma FilterIsEnumFilter(m: int, l: int)
    requires 0 <= m <= 3
    ensures (l >= CSlogLevel(m) <==> CLevel(l) >= m) <==> m != 0 || l >= DEBUG
  {
  }

  // ---- State --------------------------------------------------------------

  /** What one call of helm_set_log_handler registers; `cb` is None for a NULL callback. */
  datatype Reg = Reg(cb: Option<nat>, data: nat, level: int)

  datatype Handler = Discard | CHandler

  /**
   Setters go through the stages from SWant, loggers through those from LResolve or LEnabledWant. `gen` is
   the position in `regs` of the registration that passed the Enabled test (for a logger) or that the call
   installed (for a setter).
   */
  datatype Stage =
    | Idle
    | SWant(r: Reg)
    | SWait(r: Reg)
    | SHeld(r: Reg)
    | SWroteCb(r: Reg)
    | SWroteData(r: Reg)
    | SWroteAll(r: Reg, gen: nat)
    | SUnlocked(r: Reg, gen: nat)
    | LResolve(level: int)
    | LEnabledWant(level: int)
    | LEnabledWait(level: int)
    | LEnabledHeld(level: int)
    | LEnabledGot(level: int, pass: bool, gen: nat)
    | LHandleWant(level: int, gen: nat)
    | LHandleWait(level: int, gen: nat)
    | LHandleHeld(level: int, gen: nat)
    | LChecked(level: int, gen: nat)
    | LCalling(level: int, gen: nat, cb: nat, data: nat)
    | LReturned

  /** A callback invocation; `tested` and `used` are the registrations at Enabled and at Handle. */
  datatype Delivery = Delivery(cb: nat, data: nat, level: int, tested: nat, used: nat)

  /** `regs` is the history of registrations, the last one being current; `delivered` of invocations. */
  datatype State = State(
    lock: RW.RW,
    cb: Option<nat>,
    data: nat,
    level: int,
    handler: Handler,
    threads: seq<Stage>,
    regs: seq<Reg>,
    delivered: seq<Delivery>)

  datatype Action =
    | BeginSet(t: nat, cb: Option<nat>, data: nat, min: int)
    | BeginLog(t: nat, level: int, resolve: bool)
    | Advance(t: nat)

  predicate Blocked(s: State, t: nat)
    requires t < |s.threads|
  {
    match s.threads[t]
    case SWant(_) => !RW.CanAnnounce(s.lock)
    case SWait(_) => !RW.CanAcquire(s.lock, t)
    case LEnabledWait(_) => t !in s.lock.readers
    case LHandleWait(_, _) => t !in s.lock.readers
    case _ => false
  }

  predicate Enabled(s: State, a: Action) {
    && a.t < |s.threads|
    && if a.Advance? then !s.threads[a.t].Idle? && !Blocked(s, a.t) else s.threads[a.t].Idle?
  }

  function To(s: State, t: nat, st: Stage): State
    requires t < |s.threads|
  {
    s.(threads := s.threads[t := st])
  }

  function AdvanceSetter(s: State, t: nat): State
    requires t < |s.threads|
  {
    match s.threads[t]
    case SWant(r) => To(s.(lock := RW.Announce(s.lock, t)), t, SWait(r))
    case SWait(r) => To(s.(lock := RW.Acquire(s.lock)), t, SHeld(r))
    case SHeld(r) => To(s.(cb := r.cb), t, SWroteCb(r))
    case SWroteCb(r) => To(s.(data := r.data), t, SWroteData(r))
    case SWroteData(r) => To(s.(level := r.level, regs := s.regs + [r]), t, SWroteAll(r, |s.regs|))
    case SWroteAll(r, gen) => To(s.(lock := RW.Unlock(s.lock)), t, SUnlocked(r, gen))
    case SUnlocked(r, gen) => To(s.(handler := if r.cb.None? then Discard else CHandler), t, Idle)
    case _ => s
  }

  function AdvanceLogger(s: State, t: nat): State
    requires t < |s.threads| && s.regs != []
  {
    match s.threads[t]
    case LResolve(level) => To(s, t, if s.handler.Discard? then Idle else LEnabledWant(level))
    case LEnabledWant(level) => To(s.(lock := RW.RLock(s.lock, t)), t, LEnabledWait(level))
    case LEnabledWait(level) => To(s, t, LEnabledHeld(level))
    case LEnabledHeld(level) => To(s, t, LEnabledGot(level, s.cb.Some? && level >= s.level, |s.regs| - 1))
    case LEnabledGot(level, pass, gen) =>
      To(s.(lock := RW.RUnlock(s.lock, t)), t, if pass then LHandleWant(level, gen) else Idle)
    case LHandleWant(level, gen) => To(s.(lock := RW.RLock(s.lock, t)), t, LHandleWait(level, gen))
    case LHandleWait(level, gen) => To(s, t, LHandleHeld(level, gen))
    case LHandleHeld(level, gen) => To(s, t, if s.cb.None? then LReturned else LChecked(level, gen))
    case LChecked(level, gen) =>
      if s.cb.None? then s
      else To(s.(delivered := s.delivered + [Delivery(s.cb.value, s.data, level, gen, |s.regs| - 1)]),
              t, LCalling(level, gen, s.cb.value, s.data))
    case LCalling(_, _, _, _) => To(s, t, LReturned)
    case LReturned => To(s.(lock := RW.RUnlock(s.lock, t)), t, Idle)
    case _ => s
  }

  predicate IsSetter(st: Stage) {
    st.SWant? || st.SWait? || st.SHeld? || st.SWroteCb? || st.SWroteData? || st.SWroteAll? || st.SUnlocked?
  }

  function Next(s: State, a: Action): State
    requires Enabled(s, a)
    requires s.regs != []
  {
    match a
    case BeginSet(t, cb, data, min) => To(s, t, SWant(Reg(cb, data, CSlogLevel(min))))
    case BeginLog(t, level, resolve) => To(s, t, if resolve then LResolve(level) else LEnabledWant(level))
    case Advance(t) => if IsSetter(s.threads[t]) then AdvanceSetter(s, t) else AdvanceLogger(s, t)
  }

  lemma NextKeepsHistory(s: State, a: Action)
    requires Enabled(s, a) && s.regs != []
    ensures s.regs <= Next(s, a).regs && s.delivered <= Next(s, a).delivered
    ensures |Next(s, a).threads| == |s.threads|
  {
  }

  /** Silent until a host opts in; the threshold's zero value is Info. */
  function Init(n: nat): State {
    State(RW.Unlocked, None, 0, INFO, Discard, seq(n, _ => Idle), [Reg(None, 0, INFO)], [])
  }

  predicate Runs(s: State, acts: seq<Action>)
    requires s.regs != []
    decreases |acts|
  {
    acts == [] ||
    (Enabled(s, acts[0]) &&
     (NextKeepsHistory(s, acts[0]); Runs(Next(s, acts[0]), acts[1..])))
  }

  function Exec(s: State, acts: seq<Action>): State
    requires s.regs != [] && Runs(s, acts)
    decreases |acts|
  {
    if acts == [] then s
    else NextKeepsHistory(s, acts[0]); Exec(Next(s, acts[0]), acts[1..])
  }

  // ---- The invariant ------------------------------------------------------

  function Current(s: State): Reg {
    Reg(s.cb, s.data, s.level)
  }

  function Last(s: State): Reg
    requires s.regs != []
  {
    s.regs[|s.regs| - 1]
  }

  predicate WaitsToRead(st: Stage) {
    st.LEnabledWait? || st.LHandleWait?
  }

  predicate Reads(st: Stage) {
    st.LEnabledHeld? || st.LEnabledGot? || st.LHandleHeld? || st.LChecked? || st.LCalling? || st.LReturned?
  }

  predicate Writes(st: Stage) {
    st.SHeld? || st.SWroteCb? || st.SWroteData? || st.SWroteAll?
  }

  ghost predicate LockRight(s: State, t: nat)
    requires t < |s.threads|
  {
    var st := s.threads[t];
    if Reads(st) then t in s.lock.readers
    else if WaitsToRead(st) then s.lock.writer != Some(t) && (t in s.lock.readers || t in s.lock.parked)
    else if st.SWait? then s.lock.writer == Some(t) && !s.lock.acquired
    else if Writes(st) then s.lock.writer == Some(t) && s.lock.acquired
    else RW.Uninvolved(s.lock, t)
  }

  ghost predicate Passed(s: State, level: int, gen: nat) {
    gen < |s.regs| && s.regs[gen].cb.Some? && level >= s.regs[gen].level
  }

  ghost predicate DataRight(s: State, t: nat)
    requires t < |s.threads| && s.regs != []
  {
    match s.threads[t]
    case SHeld(r) => Current(s) == Last(s)
    case SWroteCb(r) => s.cb == r.cb
    case SWroteData(r) => s.cb == r.cb && s.data == r.data
    case SWroteAll(r, gen) => Current(s) == Last(s) && gen == |s.regs| - 1 && r == Last(s)
    case SUnlocked(r, gen) => gen < |s.regs| && s.regs[gen] == r
    case LEnabledGot(level, pass, gen) => gen < |s.regs| && (pass ==> Passed(s, level, gen))
    case LHandleWant(level, gen) => Passed(s, level, gen)
    case LHandleWait(level, gen) => Passed(s, level, gen)
    case LHandleHeld(level, gen) => Passed(s, level, gen)
    case LChecked(level, gen) => Passed(s, level, gen) && s.cb.Some?
    case LCalling(level, gen, cb, data) => Passed(s, level, gen) && s.cb == Some(cb) && s.data == data
    case _ => true
  }

  ghost predicate DeliveryRight(s: State, d: Delivery) {
    && d.tested <= d.used < |s.regs|
    && s.regs[d.used].cb == Some(d.cb)
    && s.regs[d.used].data == d.data
    && Passed(s, d.level, d.tested)
  }

  ghost predicate Inv(s: State) {
    && s.regs != []
    && LockInv(s)
    && (!s.lock.acquired ==> Current(s) == Last(s))
    && (forall t: nat | t < |s.threads| :: DataRight(s, t))
    && (forall i: nat | i < |s.delivered| :: DeliveryRight(s, s.delivered[i]))
  }

  /** A thread's relation to the lock. */
  datatype View = Outside | WantsRead | Reading | WantsWrite | Writing

  function ViewOf(st: Stage): View {
    if Reads(st) then Reading
    else if WaitsToRead(st) then WantsRead
    else if st.SWait? then WantsWrite
    else if Writes(st) then Writing
    else Outside
  }

  /** The only ways a thread's view and the lock change together. */
  predicate Moves(l: RW.RW, l': RW.RW, t: nat, v: View, v': View) {
    || (l' == l && v' == v)
    || (l' == l && v.WantsRead? && v'.Reading? && t in l.readers)
    || (v.Outside? && v'.WantsRead? && l' == RW.RLock(l, t))
    || (v.Reading? && v'.Outside? && l' == RW.RUnlock(l, t))
    || (v.Outside? && v'.WantsWrite? && RW.CanAnnounce(l) && l' == RW.Announce(l, t))
    || (v.WantsWrite? && v'.Writing? && RW.CanAcquire(l, t) && l' == RW.Acquire(l))
    || (v.Writing? && v'.Outside? && l' == RW.Unlock(l))
  }

  lemma StepMoves(s: State, a: Action)
    requires Enabled(s, a) && s.regs != []
    ensures Moves(s.lock, Next(s, a).lock, a.t, ViewOf(s.threads[a.t]), ViewOf(Next(s, a).threads[a.t]))
    ensures forall u: nat | u < |s.threads| && u != a.t :: Next(s, a).threads[u] == s.threads[u]
    ensures |Next(s, a).threads| == |s.threads|
  {
    if a.Advance? {
      if IsSetter(s.threads[a.t]) {
        SetterMoves(s, a.t);
      } else {
        LoggerMoves(s, a.t);
      }
    }
  }

  lemma SetterMoves(s: State, t: nat)
    requires Enabled(s, Advance(t)) && IsSetter(s.threads[t])
    ensures var s' := AdvanceSetter(s, t);
            |s'.threads| == |s.threads| && Moves(s.lock, s'.lock, t, ViewOf(s.threads[t]), ViewOf(s'.threads[t]))
  {
  }

  lemma LoggerMoves(s: State, t: nat)
    requires Enabled(s, Advance(t)) && !IsSetter(s.threads[t]) && s.regs != []
    ensures var s' := AdvanceLogger(s, t);
            |s'.threads| == |s.threads| && Moves(s.lock, s'.lock, t, ViewOf(s.threads[t]), ViewOf(s'.threads[t]))
  {
  }

  ghost predicate LockInv(s: State) {
    && RW.WellFormed(s.lock)
    && (forall t | t in s.lock.readers || t in s.lock.parked :: t < |s.threads|)
    && (s.lock.writer.Some? ==> s.lock.writer.value < |s.threads|)
    && (forall t: nat | t < |s.threads| :: LockRight(s, t))
  }

  lemma MovesKeepLockInv(s: State, s': State, t: nat)
    requires LockInv(s) && t < |s.threads| == |s'.threads|
    requires Moves(s.lock, s'.lock, t, ViewOf(s.threads[t]), ViewOf(s'.threads[t]))
    requires forall u: nat | u < |s.threads| && u != t :: s'.threads[u] == s.threads[u]
    ensures LockInv(s')
  {
    assert LockRight(s, t);
    forall u: nat | u < |s'.threads|
      ensures LockRight(s', u)
    {
      assert LockRight(s, u);
    }
  }

  lemma InvNextSetter(s: State, t: nat)
    requires Inv(s) && Enabled(s, Advance(t)) && IsSetter(s.threads[t])
    ensures forall u: nat | u < |s.threads| :: DataRight(Next(s, Advance(t)), u)
    ensures !Next(s, Advance(t)).lock.acquired ==> Current(Next(s, Advance(t))) == Last(Next(s, Advance(t)))
  {
    var s' := Next(s, Advance(t));
    assert LockRight(s, t) && DataRight(s, t);
    forall u: nat | u < |s.threads|
      ensures DataRight(s', u)
    {
      assert LockRight(s, u) && DataRight(s, u);
    }
  }

  lemma LoggerFrame(s: State, a: Action)
    requires Inv(s) && Enabled(s, a) && (a.Advance? ==> !IsSetter(s.threads[a.t]))
    ensures Current(Next(s, a)) == Current(s) && Next(s, a).regs == s.regs
    ensures Next(s, a).lock.acquired == s.lock.acquired
  {
    StepMoves(s, a);
    assert LockRight(s, a.t);
  }

  lemma InvNextLogger(s: State, a: Action)
    requires Inv(s) && Enabled(s, a) && (a.Advance? ==> !IsSetter(s.threads[a.t]))
    ensures forall u: nat | u < |s.threads| :: DataRight(Next(s, a), u)
  {
    var s' := Next(s, a);
    LoggerFrame(s, a);
    StepMoves(s, a);
    forall u: nat | u < |s.threads| && u != a.t
      ensures DataRight(s', u)
    {
      assert DataRight(s, u);
    }
    assert LockRight(s, a.t) && DataRight(s, a.t);
    assert DataRight(s', a.t);
  }

  lemma NewDeliveryRight(s: State, a: Action)
    requires Inv(s) && Enabled(s, a)
    ensures |Next(s, a).delivered| <= |s.delivered| + 1
    ensures |Next(s, a).delivered| > |s.delivered| ==>
              a.Advance? && s.threads[a.t].LChecked? &&
              Next(s, a).regs == s.regs && DeliveryRight(s, Next(s, a).delivered[|s.delivered|])
  {
    assert LockRight(s, a.t) && DataRight(s, a.t);
  }

  lemma InvNext(s: State, a: Action)
    requires Inv(s) && Enabled(s, a)
    ensures Inv(Next(s, a))
  {
    var s' := Next(s, a);
    NextKeepsHistory(s, a);
    StepMoves(s, a);
    MovesKeepLockInv(s, s', a.t);
    NewDeliveryRight(s, a);
    if a.Advance? && IsSetter(s.threads[a.t]) {
      InvNextSetter(s, a.t);
    } else {
      InvNextLogger(s, a);
      LoggerFrame(s, a);
    }
    forall i: nat | i < |s'.delivered|
      ensures DeliveryRight(s', s'.delivered[i])
    {
      if i < |s.delivered| {
        assert DeliveryRight(s, s.delivered[i]);
      }
    }
  }

  lemma {:induction false} InvExec(s: State, acts: seq<Action>)
    requires Inv(s) && Runs(s, acts)
    ensures Inv(Exec(s, acts))
    ensures s.regs <= Exec(s, acts).regs && s.delivered <= Exec(s, acts).delivered
    decreases |acts|
  {
    if acts != [] {
      NextKeepsHistory(s, acts[0]);
      InvNext(s, acts[0]);
      InvExec(Next(s, acts[0]), acts[1..]);
    }
  }
}
