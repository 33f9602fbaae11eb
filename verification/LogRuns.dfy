/** Runs of the log-callback protocol that its callers have to know about. */
module LogRuns {
  import opened Prelude
  import opened LogDelivery
  import opened LogTheorems
  import RW = RWMutex

  lemma {:induction false} RunsSnoc(s: State, acts: seq<Action>, a: Action)
    requires s.regs != [] && Runs(s, acts) && Exec(s, acts).regs != [] && Enabled(Exec(s, acts), a)
    ensures Runs(s, acts + [a]) && Exec(s, acts + [a]) == Next(Exec(s, acts), a)
    decreases |acts|
  {
    if acts == [] {
      assert acts + [a] == [a];
      NextKeepsHistory(s, a);
    } else {
      NextKeepsHistory(s, acts[0]);
      RunsSnoc(Next(s, acts[0]), acts[1..], a);
      assert (acts + [a])[1..] == acts[1..] + [a];
    }
  }

  lemma Go(s: State, a: Action) returns (s': State)
    requires Reachable(s) && Enabled(s, a)
    ensures Reachable(s') && s' == Next(s, a)
  {
    var n: nat, acts: seq<Action> :| Runs(Init(n), acts) && Exec(Init(n), acts) == s;
    RunsSnoc(Init(n), acts, a);
    NextKeepsHistory(s, a);
    s' := Next(s, a);
  }

  /** An undisturbed setter has the write lock after three steps. */
  lemma SetToHeld(s: State, t: nat, cb: Option<nat>, data: nat, min: int) returns (s': State)
    requires Reachable(s) && s.lock == RW.Unlocked && t < |s.threads| && s.threads[t].Idle?
    ensures Reachable(s')
    ensures s' == s.(lock := RW.RW(Some(t), true, {}, {}),
                     threads := s.threads[t := SHeld(Reg(cb, data, CSlogLevel(min)))])
  {
    s' := Go(s, BeginSet(t, cb, data, min));
    s' := Go(s', Advance(t));
    s' := Go(s', Advance(t));
  }

  /** An undisturbed setter, up to but not including its write of the handler global. */
  lemma SetToUnlock(s: State, t: nat, cb: Option<nat>, data: nat, min: int) returns (s': State)
    requires Reachable(s) && s.lock == RW.Unlocked && t < |s.threads| && s.threads[t].Idle?
    ensures Reachable(s')
    ensures var r := Reg(cb, data, CSlogLevel(min));
            s' == s.(cb := cb, data := data, level := r.level, regs := s.regs + [r],
                     threads := s.threads[t := SUnlocked(r, |s.regs|)])
  {
    s' := SetToHeld(s, t, cb, data, min);
    s' := HeldToUnlock(s', t);
  }

  lemma HeldToUnlock(s: State, t: nat) returns (s': State)
    requires Reachable(s) && t < |s.threads| && s.threads[t].SHeld?
    requires s.lock == RW.RW(Some(t), true, {}, {})
    ensures Reachable(s')
    ensures var r := s.threads[t].r;
            s' == s.(lock := RW.Unlocked, cb := r.cb, data := r.data, level := r.level, regs := s.regs + [r],
                     threads := s.threads[t := SUnlocked(r, |s.regs|)])
  {
    s' := Go(s, Advance(t));
    s' := Go(s', Advance(t));
    s' := Go(s', Advance(t));
    s' := Go(s', Advance(t));
  }

  lemma InitReachable(n: nat)
    ensures Reachable(Init(n))
  {
    assert Runs(Init(n), []) && Exec(Init(n), []) == Init(n);
  }

  /**
   A NULL setter and a callback setter that overlap can leave the globals disagreeing, from any reachable
   state with the lock free and two threads to spare: the callback is registered, both calls have
   returned, and yet a record that resolves the handler is dropped.
   */
  lemma MixedSettersCanDisagree(s: State, t: nat, u: nat, cb: nat, data: nat, min: int) returns (s': State)
    requires Reachable(s) && s.lock == RW.Unlocked
    requires t < |s.threads| && u < |s.threads| && t != u && s.threads[t].Idle? && s.threads[u].Idle?
    ensures Reachable(s') && s'.threads == s.threads && s'.delivered == s.delivered && s'.lock == RW.Unlocked
    ensures s'.cb == Some(cb) && s'.data == data && s'.level == CSlogLevel(min)
    ensures s'.handler.Discard? && !GlobalsAgree(s')
  {
    s' := SetToUnlock(s, t, None, 0, min);
    s' := SetToUnlock(s', u, Some(cb), data, min);
    s' := Go(s', Advance(u));
    s' := Go(s', Advance(t));
    assert s'.threads == s.threads;
  }

  /** An undisturbed reader has the read lock after two steps. */
  lemma ReadLocked(s: State, t: nat) returns (s': State)
    requires Reachable(s) && s.lock == RW.Unlocked && t < |s.threads|
    requires s.threads[t].LEnabledWant? || s.threads[t].LHandleWant?
    ensures Reachable(s')
    ensures s' == s.(lock := RW.RW(None, false, {t}, {}),
                     threads := s.threads[t := match s.threads[t]
                                               case LEnabledWant(level) => LEnabledHeld(level)
                                               case LHandleWant(level, gen) => LHandleHeld(level, gen)])
  {
    s' := Go(s, Advance(t));
    assert s'.lock == RW.RW(None, false, {t}, {});
    s' := Go(s', Advance(t));
  }

  /** A record that passed the threshold of one registration, about to test for a callback again. */
  lemma LogToHandle(s: State, t: nat, level: int) returns (s': State)
    requires Reachable(s) && s.lock == RW.Unlocked && t < |s.threads| && s.threads[t].Idle?
    requires s.cb.Some? && level >= s.level
    ensures Reachable(s')
    ensures s' == s.(threads := s.threads[t := LHandleWant(level, |s.regs| - 1)])
  {
    s' := Go(s, BeginLog(t, level, false));
    s' := ReadLocked(s', t);
    s' := TestedToHandle(s', t);
  }

  lemma TestedToHandle(s: State, t: nat) returns (s': State)
    requires Reachable(s) && s.lock == RW.RW(None, false, {t}, {}) && t < |s.threads| && s.threads[t].LEnabledHeld?
    requires s.cb.Some? && s.threads[t].level >= s.level
    ensures Reachable(s')
    ensures s' == s.(lock := RW.Unlocked, threads := s.threads[t := LHandleWant(s.threads[t].level, |s.regs| - 1)])
  {
    s' := Go(s, Advance(t));
    s' := Go(s', Advance(t));
    assert s'.lock == RW.Unlocked;
  }

  /** From there to the callback. */
  lemma HandleToCall(s: State, t: nat) returns (s': State)
    requires Reachable(s) && s.lock == RW.Unlocked && t < |s.threads| && s.threads[t].LHandleWant? && s.cb.Some?
    ensures Reachable(s') && s'.regs == s.regs
    ensures s'.delivered == s.delivered +
                            [Delivery(s.cb.value, s.data, s.threads[t].level, s.threads[t].gen, |s.regs| - 1)]
  {
    s' := ReadLocked(s, t);
    s' := Go(s', Advance(t));
    s' := Go(s', Advance(t));
  }

  /** And from there to the logger's return, with the lock free again. */
  lemma HandleToReturn(s: State, t: nat) returns (s': State)
    requires Reachable(s) && s.lock == RW.Unlocked && t < |s.threads| && s.threads[t].LHandleWant? && s.cb.Some?
    ensures Reachable(s')
    ensures s' == s.(threads := s.threads[t := Idle],
                     delivered := s.delivered +
                                  [Delivery(s.cb.value, s.data, s.threads[t].level, s.threads[t].gen, |s.regs| - 1)])
  {
    s' := ReadLocked(s, t);
    s' := HeldToReturn(s', t);
  }

  lemma HeldToReturn(s: State, t: nat) returns (s': State)
    requires Reachable(s) && s.lock == RW.RW(None, false, {t}, {}) && t < |s.threads| && s.threads[t].LHandleHeld?
    requires s.cb.Some?
    ensures Reachable(s')
    ensures s' == s.(lock := RW.Unlocked, threads := s.threads[t := Idle],
                     delivered := s.delivered +
                                  [Delivery(s.cb.value, s.data, s.threads[t].level, s.threads[t].gen, |s.regs| - 1)])
  {
    s' := Go(s, Advance(t));
    s' := Go(s', Advance(t));
    s' := CallToReturn(s', t);
  }

  lemma CallToReturn(s: State, t: nat) returns (s': State)
    requires Reachable(s) && s.lock == RW.RW(None, false, {t}, {}) && t < |s.threads| && s.threads[t].LCalling?
    ensures Reachable(s') && s' == s.(lock := RW.Unlocked, threads := s.threads[t := Idle])
  {
    s' := Go(s, Advance(t));
    s' := Go(s', Advance(t));
    assert s'.lock == RW.Unlocked;
  }

  /** A record the Enabled test refuses. */
  lemma RefusedRun(s: State, t: nat, level: int) returns (s': State)
    requires Reachable(s) && s.lock == RW.Unlocked && t < |s.threads| && s.threads[t] == LEnabledWant(level)
    requires s.cb.None? || level < s.level
    ensures Reachable(s') && s' == s.(threads := s.threads[t := Idle])
  {
    s' := ReadLocked(s, t);
    s' := Go(s', Advance(t));
    s' := Go(s', Advance(t));
    assert s'.lock == RW.Unlocked;
  }

  lemma EnabledToReturn(s: State, t: nat, level: int) returns (s': State)
    requires Reachable(s) && s.lock == RW.Unlocked && t < |s.threads| && s.threads[t] == LEnabledWant(level)
    requires s.cb.Some? && level >= s.level
    ensures Reachable(s')
    ensures s' == s.(threads := s.threads[t := Idle],
                     delivered := s.delivered + [Delivery(s.cb.value, s.data, level, |s.regs| - 1, |s.regs| - 1)])
  {
    s' := ReadLocked(s, t);
    s' := TestedToHandle(s', t);
    s' := HandleToReturn(s', t);
  }

  /**
   One record from start to end with no other thread at work, from any reachable state with the lock free. It
   reaches the registered callback, once, with the registered data, iff a callback is registered, the record
   meets its threshold, and, for a logger that resolves the handler first, the handler is the callback's.
   */
  lemma LogRun(s: State, t: nat, level: int, resolve: bool) returns (s': State)
    requires Reachable(s) && s.lock == RW.Unlocked && t < |s.threads| && s.threads[t].Idle?
    ensures Reachable(s')
    ensures s' == s.(delivered := s.delivered +
                                  if s.cb.Some? && level >= s.level && (resolve ==> s.handler.CHandler?)
                                  then [Delivery(s.cb.value, s.data, level, |s.regs| - 1, |s.regs| - 1)]
                                  else [])
  {
    if resolve && s.handler.Discard? {
      s' := DiscardedRun(s, t, level);
    } else {
      s' := ToEnabled(s, t, level, resolve);
      if s.cb.Some? && level >= s.level {
        s' := EnabledToReturn(s', t, level);
      } else {
        s' := RefusedRun(s', t, level);
      }
      assert s'.threads == s.threads;
    }
  }

  lemma DiscardedRun(s: State, t: nat, level: int) returns (s': State)
    requires Reachable(s) && s.lock == RW.Unlocked && t < |s.threads| && s.threads[t].Idle? && s.handler.Discard?
    ensures Reachable(s') && s' == s
  {
    s' := Go(s, BeginLog(t, level, true));
    s' := Go(s', Advance(t));
    assert s'.threads == s.threads;
  }

  lemma ToEnabled(s: State, t: nat, level: int, resolve: bool) returns (s': State)
    requires Reachable(s) && t < |s.threads| && s.threads[t].Idle? && (resolve ==> s.handler.CHandler?)
    ensures Reachable(s') && s' == s.(threads := s.threads[t := LEnabledWant(level)])
  {
    s' := Go(s, BeginLog(t, level, resolve));
    if resolve {
      s' := Go(s', Advance(t));
    }
  }

  /** One helm_set_log_handler from start to end with no other thread at work. */
  lemma SetRun(s: State, t: nat, cb: Option<nat>, data: nat, min: int) returns (s': State)
    requires Reachable(s) && s.lock == RW.Unlocked && t < |s.threads| && s.threads[t].Idle?
    ensures Reachable(s')
    ensures s' == s.(cb := cb, data := data, level := CSlogLevel(min),
                     handler := if cb.Some? then CHandler else Discard,
                     regs := s.regs + [Reg(cb, data, CSlogLevel(min))])
  {
    s' := SetToUnlock(s, t, cb, data, min);
    s' := Go(s', Advance(t));
    assert s'.threads == s.threads;
  }

  /** After a swap and nothing else, the new callback gets exactly the records that meet its own minimum. */
  lemma SetThenLog(s: State, t: nat, cb: nat, data: nat, min: int, level: int, resolve: bool) returns (s': State)
    requires Reachable(s) && s.lock == RW.Unlocked && t < |s.threads| && s.threads[t].Idle?
    ensures Reachable(s')
    ensures s'.delivered == s.delivered + if level >= CSlogLevel(min)
                                          then [Delivery(cb, data, level, |s.regs|, |s.regs|)] else []
  {
    s' := SetRun(s, t, Some(cb), data, min);
    s' := LogRun(s', t, level, resolve);
  }

  /**
   While the two globals agree, a logger that resolves the handler and one that had it from before are
   served alike, at every level; while they disagree, and the handler discards, a record that the registered
   callback asks for is dropped for the one and delivered for the other.
   */
  lemma ResolvingMattersIff(s: State, t: nat, level: int) returns (resolved: State, direct: State)
    requires Reachable(s) && s.lock == RW.Unlocked && t < |s.threads| && s.threads[t].Idle?
    ensures Reachable(resolved) && Reachable(direct)
    ensures s.delivered <= resolved.delivered <= direct.delivered
    ensures |direct.delivered| == |s.delivered| + (if s.cb.Some? && level >= s.level then 1 else 0)
    ensures resolved == direct <==> GlobalsAgree(s) || s.cb.None? || level < s.level
  {
    resolved := LogRun(s, t, level, true);
    direct := LogRun(s, t, level, false);
  }

  /** So with setters that agree, when none is in flight a resolving logger is served by the callback alone. */
  lemma AgreeingSettersDeliver(n: nat, acts: seq<Action>, t: nat, level: int) returns (s': State)
    requires Runs(Init(n), acts) && CompatibleSetters(Init(n), acts)
    requires NoSetter(Exec(Init(n), acts)) && Exec(Init(n), acts).lock == RW.Unlocked
    requires t < |Exec(Init(n), acts).threads| && Exec(Init(n), acts).threads[t].Idle?
    ensures var s := Exec(Init(n), acts);
            && Reachable(s')
            && (|s'.delivered| > |s.delivered| <==> s.cb.Some? && level >= s.level)
  {
    CompatibleSettersAgree(n, acts);
    InvExecInit(n, acts);
    s' := LogRun(Exec(Init(n), acts), t, level, true);
  }

  lemma InvExecInit(n: nat, acts: seq<Action>)
    requires Runs(Init(n), acts)
    ensures Reachable(Exec(Init(n), acts))
  {
    assert Inv(Init(n));
    InvExec(Init(n), acts);
  }

  /** The disagreement two overlapping setters can leave drops every record of every resolving logger. */
  lemma MixedSettersDropRecords(s: State, t: nat, u: nat, cb: nat, data: nat, min: int, level: int)
    returns (after: State, s': State)
    requires Reachable(s) && s.lock == RW.Unlocked
    requires t < |s.threads| && u < |s.threads| && t != u && s.threads[t].Idle? && s.threads[u].Idle?
    requires level >= CSlogLevel(min)
    ensures Reachable(after) && after.cb == Some(cb) && after.level <= level && after.delivered == s.delivered
    ensures Reachable(s') && s'.delivered == after.delivered && s'.threads == after.threads
  {
    after := MixedSettersCanDisagree(s, t, u, cb, data, min);
    s' := LogRun(after, t, level, true);
  }

  ghost predicate BelowThreshold(s: State, d: Delivery) {
    d.used < |s.regs| && d.level < s.regs[d.used].level
  }

  /**
   Handle tests for a callback again but not for the level. From any reachable state with the lock free, a
   callback registered and two threads to spare, take any record that meets the current threshold and any
   swap to another callback between its two tests: it is delivered to the new callback, and below that
   callback's threshold exactly when the new minimum is above the record's level.
   */
  lemma SwapBetweenTestsDelivers(s: State, t: nat, u: nat, level: int, cb: nat, data: nat, min: int)
    returns (s': State)
    requires Reachable(s) && s.lock == RW.Unlocked && s.cb.Some?
    requires t < |s.threads| && u < |s.threads| && t != u && s.threads[t].Idle? && s.threads[u].Idle?
    requires s.level <= level
    ensures Reachable(s') && s'.regs == s.regs + [Reg(Some(cb), data, CSlogLevel(min))]
    ensures s'.delivered == s.delivered + [Delivery(cb, data, level, |s.regs| - 1, |s.regs|)]
    ensures BelowThreshold(s', s'.delivered[|s.delivered|]) <==> level < CSlogLevel(min)
  {
    s' := LogToHandle(s, t, level);
    s' := SetToUnlock(s', u, Some(cb), data, min);
    s' := HandleToCall(s', t);
  }

  /** Some record at the current threshold is delivered below the new one iff the swap raises the minimum. */
  lemma SwapBreaksThresholdIff(s: State, t: nat, u: nat, cb: nat, data: nat, min: int)
    requires Reachable(s) && s.lock == RW.Unlocked && s.cb.Some?
    requires t < |s.threads| && u < |s.threads| && t != u && s.threads[t].Idle? && s.threads[u].Idle?
    ensures CSlogLevel(min) > s.level <==>
            exists s': State ::
              && Reachable(s')
              && s'.regs == s.regs + [Reg(Some(cb), data, CSlogLevel(min))]
              && |s'.delivered| == |s.delivered| + 1
              && s'.delivered[|s.delivered|].tested == |s.regs| - 1
              && s'.delivered[|s.delivered|].used == |s.regs|
              && BelowThreshold(s', s'.delivered[|s.delivered|])
  {
    ReachableInv(s);
    assert s.level == s.regs[|s.regs| - 1].level;
    if CSlogLevel(min) > s.level {
      var s' := SwapBetweenTestsDelivers(s, t, u, s.level, cb, data, min);
    }
    if s': State :|
        && Reachable(s')
        && s'.regs == s.regs + [Reg(Some(cb), data, CSlogLevel(min))]
        && |s'.delivered| == |s.delivered| + 1
        && s'.delivered[|s.delivered|].tested == |s.regs| - 1
        && s'.delivered[|s.delivered|].used == |s.regs|
        && BelowThreshold(s', s'.delivered[|s.delivered|])
    {
      DeliveredMetThreshold(s', |s.delivered|);
    }
  }

  /** For example an Info record of a callback at Info, delivered to one at Error. */
  lemma SwapBetweenTestsDeliversBelowThreshold() returns (s: State)
    ensures Reachable(s) && |s.delivered| == 1 && BelowThreshold(s, s.delivered[0])
    ensures Uses(s.regs[s.delivered[0].used], s.delivered[0].cb, s.delivered[0].data)
  {
    InitReachable(2);
    s := SetToUnlock(Init(2), 0, Some(7), 70, 1);
    s := Go(s, Advance(0));
    s := SwapBetweenTestsDelivers(s, 1, 0, INFO, 8, 80, 3);
  }
}
