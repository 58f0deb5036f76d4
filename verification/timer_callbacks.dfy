/** Callbacks: to whom they go, when they come, and what the service does not promise about them. */
module TimerCallbacks {
  import opened HeapModel
  import opened Timers
  import opened LocHeapImpl
  import opened TimerService
  import opened TimerProofs
  import opened TimerTheorems

  // ---------- Runs, from their last step ----------

  lemma {:induction false} RunAppend(s: State, steps: seq<Step>, s': State, step: Step)
    requires Run(s, steps, s') && Enabled(s', step) && StepSafe(s', step)
    ensures Run(s, steps + [step], Next(s', step))
    decreases |steps|
  {
    hide Enabled, StepSafe, Next;
    if steps == [] {
      assert steps + [step] == [step];
    } else {
      assert (steps + [step])[1..] == steps[1..] + [step];
      RunAppend(Next(s, steps[0]), steps[1..], s', step);
    }
  }

  lemma {:induction false} RunLast(s: State, steps: seq<Step>, s': State) returns (m: State)
    requires Run(s, steps, s') && steps != []
    ensures var n := |steps| - 1;
      Run(s, steps[..n], m) && Enabled(m, steps[n]) && StepSafe(m, steps[n]) && s' == Next(m, steps[n])
    decreases |steps|
  {
    hide Enabled, StepSafe, Next;
    if |steps| == 1 {
      m := s;
      assert steps[..0] == [] && steps[1..] == [];
    } else {
      m := RunLast(Next(s, steps[0]), steps[1..], s');
      assert steps[..|steps| - 1][1..] == steps[1..][..|steps| - 2];
    }
  }

  // ---------- Use after free ----------

  /** The client is destroyed after the run's last expire() has read the pointer to its client. */
  predicate DestroyedInHand(steps: seq<Step>, c: Cid) {
    exists i, j :: 0 <= i < j < |steps| && steps[i] == System(MsgRead) && steps[j] == Destroy(c)
      && forall k :: i < k < |steps| ==> steps[k] != System(MsgRead)
  }

  /** While expire() has a client in hand the message thread does nothing else, and only Destroy ends the client. */
  lemma WhileInHand(m: State, step: Step)
    requires CallsOk(m) && Enabled(m, step) && StepSafe(m, step) && HasClient(m.proc) && HasClient(Next(m, step).proc)
    ensures Next(m, step).proc.client == m.proc.client
    ensures m.proc.client in m.clients && m.proc.client in Next(m, step).clients
    ensures Next(m, step).clients[m.proc.client].alive <==>
      m.clients[m.proc.client].alive && step != Destroy(m.proc.client)
    ensures step != System(MsgRead)
  {
  }

  lemma TakesInHand(m: State, step: Step)
    requires Good(m) && Enabled(m, step) && StepSafe(m, step) && !HasClient(m.proc) && HasClient(Next(m, step).proc)
    ensures step == System(MsgRead) && Runs(Next(m, step), Next(m, step).proc.client)
  {
    hide Removed, Popped, Push, Inv, CallsOk;
    if step.System? && step.sys.MsgRead? { ReadCalls(m); }
  }

  /** The client in hand was read by the run's last such step, and lives unless destroyed since. */
  lemma {:induction false} InHandSince(now: int, steps: seq<Step>, s: State) returns (i: nat)
    requires Run(Init(now), steps, s) && HasClient(s.proc)
    ensures i < |steps| && steps[i] == System(MsgRead) && s.proc.client in s.clients
    ensures forall k :: i < k < |steps| ==> steps[k] != System(MsgRead)
    ensures s.clients[s.proc.client].alive <==> forall j :: i < j < |steps| ==> steps[j] != Destroy(s.proc.client)
    decreases |steps|
  {
    hide Run, Enabled, StepSafe, Next, CallsOk, Inv, Init;
    if steps == [] { StartsIdle(now, s); }
    var n := |steps| - 1;
    var m := RunLast(Init(now), steps, s);
    InitHolds(now);
    RunKeepsGood(Init(now), steps[..n], m);
    if HasClient(m.proc) {
      WhileInHand(m, steps[n]);
      i := InHandSince(now, steps[..n], m);
      assert forall j :: i < j < |steps| ==> j == n || steps[j] == steps[..n][j];
    } else {
      TakesInHand(m, steps[n]);
      i := n;
    }
  }

  lemma StartsIdle(now: int, s: State)
    requires Run(Init(now), [], s)
    ensures s.proc.Idle?
  {
  }

  /** The only use after free there is: expire() reads the pointer to its client, stops it and calls it back, and
      between any two of these the client may be destroyed. Every other step of every thread touches existing
      objects only. */
  lemma NoUseAfterFree(now: int, steps: seq<Step>, s: State, step: Step)
    requires Run(Init(now), steps, s) && Enabled(s, step)
    ensures StepSafe(s, step) <==>
      !((step == System(MsgStop) || step == System(MsgCall)) && DestroyedInHand(steps, s.proc.client))
  {
    hide Inv, CallsOk, StepSafe, Init, Run;
    InitHolds(now);
    RunKeepsGood(Init(now), steps, s);
    EveryStepIsSafe(s, step);
    if step == System(MsgStop) || step == System(MsgCall) {
      var i := InHandSince(now, steps, s);
      if DestroyedInHand(steps, s.proc.client) {
        var i', j' :| 0 <= i' < j' < |steps| && steps[i'] == System(MsgRead) && steps[j'] == Destroy(s.proc.client)
          && forall k :: i' < k < |steps| ==> steps[k] != System(MsgRead);
        assert i' == i;
      }
    }
  }

  // ---------- What a client can do about it ----------

  /** Every timer that c started still runs, or c stopped it, or its callback has come: a client can count
      its starts, its successful stops and the callbacks it got. */
  predicate Accounted(s: State, c: Cid) {
    forall d :: d in s.delegates && s.delegates[d].client == c ==>
      s.delegates[d].linked || s.delegates[d].stops + s.delegates[d].calls == 1
  }

  /** By its own count a client knows exactly whether a callback to it is pending. */
  lemma AccountedIffNonePending(s: State, c: Cid)
    requires Reachable(s)
    ensures Accounted(s, c) <==> !(s.proc.Calling? && s.proc.client == c)
  {
    hide Reachable, Inv;
    ReachableGood(s);
    forall d | d in s.delegates && s.delegates[d].client == c
      ensures (s.delegates[d].linked || s.delegates[d].stops + s.delegates[d].calls == 1) <==> !IsCalling(s, d)
    {
      AtMostOneCallback(s, d);
    }
  }

  /** Every timer that c ever started has called it back. */
  predicate CalledBack(s: State, c: Cid) {
    forall d :: d in s.delegates && s.delegates[d].client == c ==> s.delegates[d].calls == 1
  }

  /** Then no expire() has c in hand. */
  lemma CalledBackIsFree(s: State, c: Cid)
    requires Reachable(s) && CalledBack(s, c)
    ensures !(HasClient(s.proc) && s.proc.client == c)
  {
    hide Reachable, Inv;
    ReachableGood(s);
    if s.proc.Calling? { AtMostOneCallback(s, s.proc.d); }
  }

  /** A run whose clients are destroyed only when all their timers have called them back. */
  predicate Careful(s: State, steps: seq<Step>)
    decreases |steps|
  {
    steps != [] ==>
      && Enabled(s, steps[0]) && StepSafe(s, steps[0])
      && (steps[0].Destroy? ==> CalledBack(s, steps[0].c))
      && Careful(Next(s, steps[0]), steps[1..])
  }

  lemma CarefulStep(s: State, step: Step)
    requires Reachable(s) && CallSafe(s) && Enabled(s, step) && StepSafe(s, step)
    requires step.Destroy? ==> CalledBack(s, step.c)
    ensures CallSafe(Next(s, step)) && Reachable(Next(s, step))
  {
    hide Reachable, Inv, CallsOk, CalledBack;
    Goes(s, step);
    ReachableGood(s);
    if step.System? {
      hide Next;
      SystemKeepsGood(s, step.sys);
      SystemNext(s, step);
    } else if step.Destroy? {
      CalledBackIsFree(s, step.c);
    }
  }

  lemma SystemNext(s: State, step: Step)
    requires step.System? && Enabled(s, step) && StepSafe(s, step)
    ensures Next(s, step) == SysNext(s, step.sys)
  {
  }

  lemma {:induction false} CarefulRun(s: State, steps: seq<Step>, s': State)
    requires Reachable(s) && CallSafe(s) && Run(s, steps, s') && Careful(s, steps)
    ensures Reachable(s') && CallSafe(s')
    decreases |steps|
  {
    hide Reachable, CallSafe, Enabled, StepSafe, Next, CalledBack;
    if steps != [] {
      CarefulStep(s, steps[0]);
      CarefulRun(Next(s, steps[0]), steps[1..], s');
    }
  }

  /** With careful clients nothing is ever used after it was freed. */
  lemma CarefulClientsAreSafe(now: int, steps: seq<Step>, s: State, step: Step)
    requires Run(Init(now), steps, s) && Careful(Init(now), steps) && Enabled(s, step)
    ensures StepSafe(s, step)
  {
    hide Reachable, Run, Careful, Inv, CallsOk, StepSafe;
    InitReachable(now);
    InitHolds(now);
    CarefulRun(Init(now), steps, s);
    ReachableGood(s);
    EveryStepIsSafe(s, step);
  }

  // ---------- To whom and for what ----------

  /** expire() ends the very timer that expired, unless the client has stopped that itself since expire() read the
      pointer: then it ends the timer that the client has started instead. */
  lemma WhoseCallback(s: State)
    requires Reachable(s) && s.proc.Calling?
    ensures s.proc.d in s.delegates && s.proc.popped in s.delegates
    ensures s.delegates[s.proc.d].client == s.delegates[s.proc.popped].client == s.proc.client
    ensures s.delegates[s.proc.d].fires == 1 && s.delegates[s.proc.d].calls == 0
    ensures s.proc.d == s.proc.popped <==> s.delegates[s.proc.popped].stops == 0
  {
    hide Reachable, Inv;
    ReachableGood(s);
    AtMostOneCallback(s, s.proc.d);
    AtMostOneCallback(s, s.proc.popped);
  }

  // ---------- When callbacks come ----------

  /** The step that popped the timer about to fire, taken in state m. */
  predicate Pops(m: State, step: Step) {
    && m.tree.Node?
    && (|| (step == System(MsgTake) && m.proc.Idle? && m.queue != [] && m.queue[0].ExpireMsg?)
        || (step == System(MsgCheck) && m.proc.Checking? && m.tree.data.due <= m.proc.now))
  }

  lemma ClientsKeepProc(m: State, step: Step)
    requires Enabled(m, step) && StepSafe(m, step) && !step.System?
    ensures Next(m, step).proc == m.proc
  {
  }

  lemma EnterFiringBy(m: State, sys: Sys)
    requires Ready(m, sys) && Safe(m, sys) && HasPopped(SysNext(m, sys).proc)
    ensures var p := SysNext(m, sys).proc;
      if Pops(m, System(sys)) then p == Firing(if sys == MsgTake then m.now else m.proc.now, m.tree.data)
      else HasPopped(m.proc) && p.timer == m.proc.timer && p.now == m.proc.now
  {
    hide Removed, Popped, Push, Usable, Exists;
    match sys
    case MsgTake => { assert m.queue[0].ExpireMsg?; }
    case MsgCheck =>
    case MsgRead =>
    case _ =>
  }

  lemma EnterFiring(m: State, step: Step)
    requires Enabled(m, step) && StepSafe(m, step) && HasPopped(Next(m, step).proc)
    ensures var p := Next(m, step).proc;
      if Pops(m, step) then p == Firing(if step == System(MsgTake) then m.now else m.proc.now, m.tree.data)
      else HasPopped(m.proc) && p.timer == m.proc.timer && p.now == m.proc.now
  {
    if step.System? {
      SystemNext(m, step);
      hide SysNext, Safe;
      EnterFiringBy(m, step.sys);
    } else {
      hide Next;
      ClientsKeepProc(m, step);
    }
  }

  /** In every reachable state, the timer about to be ended is early, at the time read for this expiration, if and
      only if it was popped by taking an Expire message at a time when the heap's top was not due. */
  lemma {:induction false} WhoPopped(now: int, steps: seq<Step>, s: State) returns (i: nat, m: State)
    requires Run(Init(now), steps, s) && HasPopped(s.proc)
    ensures i < |steps| && Run(Init(now), steps[..i], m) && Pops(m, steps[i]) && s.proc.timer == m.tree.data
    ensures forall k :: i < k < |steps| ==> !(steps[k].System? && (steps[k].sys.MsgTake? || steps[k].sys.MsgCheck?))
    ensures s.proc.now < s.proc.timer.due <==> steps[i] == System(MsgTake) && m.now < m.tree.data.due
    decreases |steps|
  {
    hide Run, Enabled, StepSafe, Next, Init;
    if steps == [] { StartsIdle(now, s); }
    var n := |steps| - 1;
    m := RunLast(Init(now), steps, s);
    EnterFiring(m, steps[n]);
    if Pops(m, steps[n]) {
      i := n;
    } else {
      NotTaking(m, steps[n]);
      i, m := WhoPopped(now, steps[..n], m);
      assert steps[..n][..i] == steps[..i] && steps[..n][i] == steps[i];
      assert forall k :: i < k < |steps| ==> k == n || steps[k] == steps[..n][k];
    }
  }

  lemma NotTaking(m: State, step: Step)
    requires Enabled(m, step) && HasPopped(m.proc)
    ensures !(step.System? && (step.sys.MsgTake? || step.sys.MsgCheck?))
  {
  }

  // ---------- Witnesses ----------

  lemma Goes(s: State, step: Step)
    requires Reachable(s) && Enabled(s, step) && (step == System(MsgStop) || step == System(MsgCall) ==> CallSafe(s))
    ensures StepSafe(s, step) && Reachable(Next(s, step))
  {
    hide Init, Run, StepSafe, Next, Inv, CallsOk;
    ReachableGood(s);
    EveryStepIsSafe(s, step);
    hide Enabled;
    var now: int, steps: seq<Step> :| Run(Init(now), steps, s);
    RunAppend(Init(now), steps, s, step);
  }

  /** One client whose timer 0, due at 10, is in the heap and armed for; the clock is at 1. */
  function OneTimer(): State {
    State(1, Leaf(Timer(0, 10)), [], Idle, Waiting, true, Some(10),
          map[0 := Delegate(0, 10, true, 0, 0, 0, 0)], map[0 := Client(Some(0), true, 2)])
  }

  lemma InitReachable(now: int)
    ensures Reachable(Init(now))
  {
    assert Run(Init(now), [], Init(now));
  }

  lemma OneTimerReachable()
    ensures Reachable(OneTimer())
  {
    hide Reachable;
    var s0 := Init(1);
    InitReachable(1);
    Goes(s0, NewClient(0));
    var s1 := Next(s0, NewClient(0));
    Goes(s1, Start(0, 0, 10));
    var s2 := Next(s1, Start(0, 0, 10));
    Goes(s2, System(MsgTake));
    var s3 := Next(s2, System(MsgTake));
    Goes(s3, System(MsgArm));
    assert Next(s3, System(MsgArm)) == OneTimer();
  }

  /** The poll thread woken for timer 0; meanwhile its client stops it and starts timer 1, due at 100. */
  function Restarted(): State {
    State(10, Leaf(Timer(1, 100)), [], Idle, Woken, true, Some(100),
          map[0 := Delegate(0, 10, false, 0, 1, 1, 0), 1 := Delegate(0, 100, true, 0, 0, 0, 0)],
          map[0 := Client(Some(1), true, 2)])
  }

  /** The same, after the stop of timer 0. */
  function StoppedWhileWoken(): State {
    State(10, Nil, [], Idle, Woken, true, Some(10),
          map[0 := Delegate(0, 10, false, 0, 1, 1, 0)], map[0 := Client(None, true, 1)])
  }

  lemma StoppedWhileWokenReachable()
    ensures Reachable(StoppedWhileWoken())
  {
    hide Reachable;
    OneTimerReachable();
    var s0 := OneTimer();
    Goes(s0, Tick(10));
    var s1 := Next(s0, Tick(10));
    Goes(s1, System(PollWake));
    var s2 := Next(s1, System(PollWake));
    Goes(s2, Stop(0));
    var s3 := Next(s2, Stop(0));
    Goes(s3, System(MsgTake));
    assert Next(s3, System(MsgTake)) == StoppedWhileWoken();
  }

  lemma RestartedReachable()
    ensures Reachable(Restarted())
  {
    hide Reachable;
    StoppedWhileWokenReachable();
    var s4 := StoppedWhileWoken();
    Goes(s4, Start(0, 1, 100));
    var s5 := Next(s4, Start(0, 1, 100));
    Goes(s5, System(MsgTake));
    var s6 := Next(s5, System(MsgTake));
    Goes(s6, System(MsgArm));
    assert Next(s6, System(MsgArm)) == Restarted();
  }

  /** Timer 1 has been popped, though it is due at 100 only. */
  function PoppedEarly(): State {
    State(10, Nil, [], Firing(10, Timer(1, 100)), Waiting, false, None,
          map[0 := Delegate(0, 10, false, 0, 1, 1, 0), 1 := Delegate(0, 100, true, 0, 0, 0, 0)],
          map[0 := Client(Some(1), true, 2)])
  }

  lemma PoppedEarlyReachable()
    ensures Reachable(PoppedEarly())
  {
    hide Reachable;
    RestartedReachable();
    var s0 := Restarted();
    Goes(s0, System(PollDisarm));
    var s1 := Next(s0, System(PollDisarm));
    Goes(s1, System(PollRemove));
    var s2 := Next(s1, System(PollRemove));
    Goes(s2, System(PollSend));
    var s3 := Next(s2, System(PollSend));
    Goes(s3, System(MsgTake));
    assert Next(s3, System(MsgTake)) == PoppedEarly();
  }

  /** A callback can come before its time: the Expire message pops the heap's top without looking at its due time. */
  lemma EarlyCallback()
    ensures exists s, d :: Reachable(s) && d in s.delegates && s.delegates[d].calls == 1 && s.now < s.delegates[d].due
  {
    hide Reachable;
    PoppedEarlyReachable();
    var s4 := PoppedEarly();
    Goes(s4, System(MsgRead));
    var s5 := Next(s4, System(MsgRead));
    Goes(s5, System(MsgStop));
    var s6 := Next(s5, System(MsgStop));
    Goes(s6, System(MsgCall));
    var s7 := Next(s6, System(MsgCall));
    assert Reachable(s7) && 1 in s7.delegates && s7.delegates[1].calls == 1 && s7.now < s7.delegates[1].due;
  }

  /** Timer 0 has expired, and expire() has read the pointer to its client. */
  function InHand(): State {
    State(10, Nil, [], Stopping(10, Timer(0, 10), 0), Waiting, false, None,
          map[0 := Delegate(0, 10, true, 0, 0, 0, 0)], map[0 := Client(Some(0), true, 2)])
  }

  /** Timer 0 is due, and the poll thread has disarmed the fd. */
  function Disarming(): State {
    State(10, Leaf(Timer(0, 10)), [], Idle, Disarmed, true, None,
          map[0 := Delegate(0, 10, true, 0, 0, 0, 0)], map[0 := Client(Some(0), true, 2)])
  }

  lemma DisarmingReachable()
    ensures Reachable(Disarming())
  {
    hide Reachable;
    OneTimerReachable();
    var s0 := OneTimer();
    Goes(s0, Tick(10));
    var s1 := Next(s0, Tick(10));
    Goes(s1, System(PollWake));
    var s2 := Next(s1, System(PollWake));
    Goes(s2, System(PollDisarm));
    assert Next(s2, System(PollDisarm)) == Disarming();
  }

  lemma InHandReachable()
    ensures Reachable(InHand())
  {
    hide Reachable;
    DisarmingReachable();
    var s3 := Disarming();
    Goes(s3, System(PollRemove));
    var s4 := Next(s3, System(PollRemove));
    Goes(s4, System(PollSend));
    var s5 := Next(s4, System(PollSend));
    Goes(s5, System(MsgTake));
    var s6 := Next(s5, System(MsgTake));
    Goes(s6, System(MsgRead));
    assert Next(s6, System(MsgRead)) == InHand();
  }

  /** The client is destroyed between stop() and its callback, and the callback comes to freed memory. */
  lemma CallbackAfterDestroy()
    ensures exists s :: Reachable(s) && Ready(s, MsgCall) && !Safe(s, MsgCall)
  {
    hide Reachable;
    InHandReachable();
    var s0 := InHand();
    Goes(s0, System(MsgStop));
    var s1 := Next(s0, System(MsgStop));
    Goes(s1, Destroy(0));
    var s2 := Next(s1, Destroy(0));
    assert Reachable(s2) && Ready(s2, MsgCall) && !Safe(s2, MsgCall);
  }

  predicate OnlyTimerStopped(s: State, d: Id, c: Cid) {
    && d in s.delegates && s.delegates[d].client == c && s.delegates[d].stops == 1
    && forall e :: e in s.delegates && s.delegates[e].client == c ==> e == d
  }

  /** Not even a client's own successful stop of its only timer before its destruction prevents that: expire() may
      have read the pointer already, and stops a client that is gone. */
  lemma OwnStopIsNotEnough()
    ensures exists s, d ::
      Reachable(s) && Ready(s, MsgStop) && !Safe(s, MsgStop) && OnlyTimerStopped(s, d, s.proc.client)
  {
    hide Reachable;
    InHandReachable();
    var s0 := InHand();
    Goes(s0, Stop(0));
    var s1 := Next(s0, Stop(0));
    Goes(s1, Destroy(0));
    var s2 := Next(s1, Destroy(0));
    assert Reachable(s2) && Ready(s2, MsgStop) && !Safe(s2, MsgStop);
    assert OnlyTimerStopped(s2, 0, s2.proc.client);
  }

  /** A client that stops the expiring timer in time and starts another one gets that one's callback at once. */
  lemma WrongTimerEnded()
    ensures exists s :: Reachable(s) && CallsAtOnce(s)
  {
    hide Reachable;
    InHandReachable();
    var s0 := InHand();
    Goes(s0, Stop(0));
    var s1 := Next(s0, Stop(0));
    Goes(s1, Start(0, 1, 100));
    var s2 := Next(s1, Start(0, 1, 100));
    Goes(s2, System(MsgStop));
    var s3 := Next(s2, System(MsgStop));
    assert Reachable(s3) && CallsAtOnce(s3);
  }

  /** The callback under way is for a timer that is not due, though the one popped was. */
  predicate CallsAtOnce(s: State) {
    && s.proc.Calling? && s.proc.d in s.delegates && s.proc.popped in s.delegates
    && s.delegates[s.proc.popped].due <= s.proc.now <= s.now < s.delegates[s.proc.d].due
  }
}
