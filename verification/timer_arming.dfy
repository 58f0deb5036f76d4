/** When the timer fd stays armed although no timer is left, and what that leads to. */
module TimerArming {
  import opened HeapModel
  import opened Timers
  import opened LocHeapImpl
  import opened TimerService
  import opened TimerProofs
  import opened TimerTheorems
  import opened TimerCallbacks

  /** The heap is empty and the message thread done, but the fd is still polled and armed. */
  predicate Stale(s: State) { s.tree.Nil? && s.proc.Idle? && s.polled && s.armed.Some? }

  // ---------- What the steps say about the fd ----------

  predicate ByMsgThread(step: Step) {
    step.System? && !step.sys.PollWake? && !step.sys.PollDisarm? && !step.sys.PollRemove? && !step.sys.PollSend?
  }

  /** The fd has been armed and not disarmed since. */
  predicate ArmedSince(steps: seq<Step>) {
    exists i :: 0 <= i < |steps| && steps[i] == System(MsgArm) && NoneAfter(steps, i, System(PollDisarm))
  }

  predicate NoneAfter(steps: seq<Step>, i: int, step: Step)
    requires 0 <= i
  {
    forall k :: i < k < |steps| ==> steps[k] != step
  }

  /** Step i is the message thread's last one before it arms the fd in step j: the one that has called addPoll. */
  predicate AddsPoll(steps: seq<Step>, i: int, j: int) {
    && 0 <= i < j < |steps| && steps[j] == System(MsgArm) && ByMsgThread(steps[i])
    && forall k :: i < k < j ==> !ByMsgThread(steps[k])
  }

  /** The fd has been added to the poll and not removed since. */
  ghost predicate PolledSince(steps: seq<Step>) {
    exists i, j :: AddsPoll(steps, i, j) && NoneAfter(steps, i, System(PollRemove))
  }

  /** The message thread's last step is i, and the fd has not been removed since. */
  predicate LastMsgStep(steps: seq<Step>, i: int) {
    && 0 <= i < |steps| && ByMsgThread(steps[i]) && NoneAfter(steps, i, System(PollRemove))
    && forall k :: i < k < |steps| ==> !ByMsgThread(steps[k])
  }

  /** What a step does to the fd, and when the message thread is between addPoll and settime. */
  lemma FdStep(m: State, step: Step)
    requires Enabled(m, step) && StepSafe(m, step)
    ensures var s := Next(m, step);
      && (s.armed.Some? <==> step == System(MsgArm) || (m.armed.Some? && step != System(PollDisarm)))
      && (s.polled <==> (s.proc.Arming? && !m.proc.Arming?) || (m.polled && step != System(PollRemove)))
      && (s.proc.Arming? && !m.proc.Arming? ==> ByMsgThread(step) && step != System(MsgArm))
      && (m.proc.Arming? ==>
          (s.proc.Arming? <==> step != System(MsgArm)) && (ByMsgThread(step) ==> step == System(MsgArm)))
      && (step == System(MsgArm) ==> m.proc.Arming?)
  {
    if step.System? {
      SystemNext(m, step);
      hide Next;
      FdSystemStep(m, step.sys);
    } else {
      FdClientStep(m, step);
    }
  }

  lemma FdClientStep(m: State, step: Step)
    requires Enabled(m, step) && StepSafe(m, step) && !step.System?
    ensures var s := Next(m, step); s.armed == m.armed && s.polled == m.polled && s.proc == m.proc && s.tree == m.tree
  {
  }

  lemma FdSystemStep(m: State, sys: Sys)
    requires Ready(m, sys) && Safe(m, sys)
    ensures var s := SysNext(m, sys);
      && (s.armed.Some? <==> sys == MsgArm || (m.armed.Some? && sys != PollDisarm))
      && (s.polled <==> (s.proc.Arming? && !m.proc.Arming?) || (m.polled && sys != PollRemove))
      && (s.proc.Arming? && !m.proc.Arming? ==> sys.MsgTake? || sys.MsgRearm?)
      && (m.proc.Arming? ==> (s.proc.Arming? <==> sys != MsgArm))
  {
    hide Removed, Popped, Push, Usable, Exists;
    match sys
    case MsgTake => { match m.queue[0] case _ => }
    case _ =>
  }

  lemma {:induction false} ArmedExactly(now: int, steps: seq<Step>, s: State)
    requires Run(Init(now), steps, s)
    ensures s.armed.Some? <==> ArmedSince(steps)
    decreases |steps|
  {
    hide Run, Enabled, StepSafe, Next, Init;
    if steps == [] {
      StartsDisarmed(now, s);
    } else {
      var n := |steps| - 1;
      var m := RunLast(Init(now), steps, s);
      FdStep(m, steps[n]);
      ArmedExactly(now, steps[..n], m);
      ArmedNext(steps[..n], steps[n]);
      assert steps[..n] + [steps[n]] == steps;
    }
  }

  lemma StartsDisarmed(now: int, s: State)
    requires Run(Init(now), [], s)
    ensures s.armed.None? && !s.polled && s.proc.Idle?
  {
  }

  lemma ArmedNext(steps: seq<Step>, step: Step)
    ensures ArmedSince(steps + [step]) <==> step == System(MsgArm) || (ArmedSince(steps) && step != System(PollDisarm))
  {
    var all := steps + [step];
    if step == System(MsgArm) { assert all[|steps|] == step && NoneAfter(all, |steps|, System(PollDisarm)); }
    if ArmedSince(steps) && step != System(PollDisarm) {
      var i :| 0 <= i < |steps| && steps[i] == System(MsgArm) && NoneAfter(steps, i, System(PollDisarm));
      assert all[i] == steps[i] && NoneAfter(all, i, System(PollDisarm));
    }
    if ArmedSince(all) && step != System(MsgArm) {
      var i :| 0 <= i < |all| && all[i] == System(MsgArm) && NoneAfter(all, i, System(PollDisarm));
      assert steps[i] == all[i] && all[|steps|] == step;
      assert forall k :: i < k < |steps| ==> steps[k] == all[k];
      assert NoneAfter(steps, i, System(PollDisarm));
    }
  }

  lemma {:induction false} PolledExactly(now: int, steps: seq<Step>, s: State)
    requires Run(Init(now), steps, s)
    ensures s.polled <==> PolledSince(steps) || (s.proc.Arming? && exists i :: LastMsgStep(steps, i))
    decreases |steps|
  {
    hide Run, Enabled, StepSafe, Next, Init, PolledSince, LastMsgStep, ByMsgThread;
    if steps == [] {
      StartsDisarmed(now, s);
      NeverPolled();
    } else {
      var n := |steps| - 1;
      var m := RunLast(Init(now), steps, s);
      FdStep(m, steps[n]);
      PolledExactly(now, steps[..n], m);
      PolledNext(steps[..n], steps[n]);
      LastMsgNext(steps[..n], steps[n]);
      assert steps[..n] + [steps[n]] == steps;
    }
  }

  lemma NeverPolled()
    ensures !PolledSince([])
  {
  }

  lemma LastMsgNext(steps: seq<Step>, step: Step)
    ensures (exists i :: LastMsgStep(steps + [step], i)) <==>
      ByMsgThread(step) || (step != System(PollRemove) && exists i :: LastMsgStep(steps, i))
  {
    var all := steps + [step];
    if ByMsgThread(step) {
      assert LastMsgStep(all, |steps|);
    } else {
      if i :| LastMsgStep(steps, i) {
        if step != System(PollRemove) { assert all[i] == steps[i] && LastMsgStep(all, i); }
      }
      if i :| LastMsgStep(all, i) {
        assert all[|steps|] == step;
        assert forall k :: 0 <= k < |steps| ==> steps[k] == all[k];
        assert LastMsgStep(steps, i);
      }
    }
  }

  lemma PolledNext(steps: seq<Step>, step: Step)
    ensures PolledSince(steps + [step]) <==>
      (step != System(PollRemove) && PolledSince(steps))
        || (step == System(MsgArm) && exists i :: LastMsgStep(steps, i))
  {
    var all := steps + [step];
    assert forall k :: 0 <= k < |steps| ==> steps[k] == all[k];
    assert all[|steps|] == step;
    if step != System(PollRemove) && PolledSince(steps) {
      var i, j :| AddsPoll(steps, i, j) && NoneAfter(steps, i, System(PollRemove));
      assert AddsPoll(all, i, j) && NoneAfter(all, i, System(PollRemove));
    }
    if step == System(MsgArm) {
      if i :| LastMsgStep(steps, i) { assert AddsPoll(all, i, |steps|) && NoneAfter(all, i, System(PollRemove)); }
    }
    if PolledSince(all) {
      var i, j :| AddsPoll(all, i, j) && NoneAfter(all, i, System(PollRemove));
      if j < |steps| {
        assert AddsPoll(steps, i, j) && NoneAfter(steps, i, System(PollRemove));
      } else {
        assert LastMsgStep(steps, i);
      }
    }
  }

  /** After any run that ends with an empty heap and an idle message thread, the fd is stale if and only if it has been
      armed and not disarmed since, and added to the poll and not removed since. */
  lemma StaleExactly(now: int, steps: seq<Step>, s: State)
    requires Run(Init(now), steps, s) && s.tree.Nil? && s.proc.Idle?
    ensures Stale(s) <==> ArmedSince(steps) && PolledSince(steps)
  {
    hide Run, ArmedSince, PolledSince;
    ArmedExactly(now, steps, s);
    PolledExactly(now, steps, s);
  }

  // ---------- Since the heap became empty ----------

  /** The last timer leaves the heap: a Remove message is taken for it, or an expiration pops it. */
  predicate Empties(m: State, step: Step) {
    && m.tree.Node? && m.tree.left.Nil? && m.tree.right.Nil?
    && (|| (step == System(MsgTake) && m.queue != [] && m.queue[0].RemoveMsg? && m.queue[0].d == m.tree.data.id)
        || (step == System(MsgTake) && m.queue != [] && m.queue[0].ExpireMsg?)
        || (step == System(MsgCheck) && m.proc.Checking? && m.tree.data.due <= m.proc.now))
  }

  lemma RemovedNil(t: Tree<Timer>, x: Timer)
    requires t.Node? && Removed(t, x, Earlier).Nil?
    ensures t.data == x && t.left.Nil? && t.right.Nil?
  {
  }

  lemma EmptiesBy(m: State, sys: Sys)
    requires Ready(m, sys) && Safe(m, sys) && m.tree.Node? && SysNext(m, sys).tree.Nil?
    ensures Empties(m, System(sys)) && SysNext(m, sys).polled == m.polled && SysNext(m, sys).armed == m.armed
  {
    hide Usable;
    match sys
    case MsgTake => {
      match m.queue[0]
      case PushMsg(_) =>
      case RemoveMsg(d) => { RemovedNil(m.tree, TimerOf(m, d)); hide Removed; }
      case ExpireMsg => { hide Removed, Push; }
    }
    case _ =>
  }

  lemma EmptiesStep(m: State, step: Step)
    requires Enabled(m, step) && StepSafe(m, step) && m.tree.Node? && Next(m, step).tree.Nil?
    ensures Empties(m, step) && Next(m, step).polled == m.polled && Next(m, step).armed == m.armed
  {
    if step.System? {
      SystemNext(m, step);
      hide Next, SysNext, Safe, Ready;
      EmptiesBy(m, step.sys);
    } else {
      FdClientStep(m, step);
    }
  }

  lemma ArmingHasTimer(s: State)
    requires Inv(s) && s.proc.Arming?
    ensures s.tree.Node?
  {
  }

  /** The step of a run that emptied the heap for the last time, if the fd has ever been armed. From then on only
      the poll thread touches the fd: it is polled and armed if and only if it was in that step and has not been
      disarmed or removed since. */
  lemma {:induction false} EmptiedAt(now: int, steps: seq<Step>, s: State) returns (i: nat, m: State)
    requires Run(Init(now), steps, s) && s.tree.Nil? && System(MsgArm) in steps
    ensures i < |steps| && Run(Init(now), steps[..i], m) && Empties(m, steps[i])
    ensures s.armed.Some? <==> m.armed.Some? && NoneAfter(steps, i, System(PollDisarm))
    ensures s.polled <==> m.polled && NoneAfter(steps, i, System(PollRemove))
    decreases |steps|
  {
    hide Run, Enabled, StepSafe, Next, Init, Inv, CallsOk, Empties;
    var n := |steps| - 1;
    m := RunLast(Init(now), steps, s);
    InitHolds(now);
    RunKeepsGood(Init(now), steps[..n], m);
    RunKeepsGood(Init(now), steps, s);
    FdStep(m, steps[n]);
    if m.proc.Arming? { ArmingHasTimer(m); }
    if s.proc.Arming? { ArmingHasTimer(s); }
    if m.tree.Node? {
      EmptiesStep(m, steps[n]);
      i := n;
    } else {
      assert steps[n] != System(MsgArm);
      assert System(MsgArm) in steps[..n] by {
        var k :| 0 <= k < |steps| && steps[k] == System(MsgArm);
        assert steps[..n][k] == steps[k];
      }
      i, m := EmptiedAt(now, steps[..n], m);
      assert steps[..n][..i] == steps[..i] && steps[..n][i] == steps[i];
      assert forall k :: i < k < |steps| ==> k == n || steps[k] == steps[..n][k];
    }
  }

  /** Both ways of emptying the heap leave the fd alone. So a run leaves a stale fd if and only if the fd was polled and
      armed when the last timer left the heap, and the poll thread has not woken up to it since. */
  lemma StaleSinceEmptied(now: int, steps: seq<Step>, s: State) returns (i: nat, m: State)
    requires Run(Init(now), steps, s) && s.tree.Nil? && s.proc.Idle? && System(MsgArm) in steps
    ensures i < |steps| && Run(Init(now), steps[..i], m) && Empties(m, steps[i])
    ensures var untouched := NoneAfter(steps, i, System(PollDisarm)) && NoneAfter(steps, i, System(PollRemove));
      Stale(s) <==> m.polled && m.armed.Some? && untouched
  {
    hide Run, Empties, NoneAfter;
    i, m := EmptiedAt(now, steps, s);
  }

  /** A run that never arms the fd does not leave it stale. */
  lemma NeverArmed(now: int, steps: seq<Step>, s: State)
    requires Run(Init(now), steps, s) && System(MsgArm) !in steps
    ensures !Stale(s)
  {
    hide Run;
    ArmedExactly(now, steps, s);
  }

  // ---------- What a stale fd leads to ----------

  /** The poll thread has woken up to the stale fd, and a new client has started timer d. */
  function Woken(s: State, t: int, c: Cid, d: Id, due: int): State {
    s.(now := t, poll := Poll.Woken, queue := [PushMsg(d)],
       delegates := s.delegates[d := Delegate(c, due, true, 0, 0, 0, 0)],
       clients := s.clients[c := Client(Some(d), true, 2)])
  }

  lemma WokenReachable(s: State, c: Cid, d: Id, due: int) returns (t: int)
    requires Reachable(s) && Stale(s) && s.queue == [] && s.poll.Waiting?
    requires c !in s.clients && d !in s.delegates
    ensures t == (if s.armed.value <= s.now then s.now else s.armed.value) && Reachable(Woken(s, t, c, d, due))
  {
    hide Reachable;
    t := if s.armed.value <= s.now then s.now else s.armed.value;
    Goes(s, Tick(t));
    var s1 := Next(s, Tick(t));
    Goes(s1, System(PollWake));
    var s2 := Next(s1, System(PollWake));
    Goes(s2, NewClient(c));
    var s3 := Next(s2, NewClient(c));
    Goes(s3, Start(c, d, due));
    assert Next(s3, Start(c, d, due)) == Woken(s, t, c, d, due);
  }

  /** Its Expire message follows timer d into the queue. */
  function Overtaken(w: State, x: Timer): State {
    w.(poll := Waiting, queue := [ExpireMsg], tree := Leaf(x), polled := false, armed := None)
  }

  lemma OvertakenReachable(w: State, x: Timer)
    requires Reachable(w) && w.tree.Nil? && w.proc.Idle? && w.poll.Woken? && w.queue == [PushMsg(x.id)]
    requires Exists(w, x.id)
    requires x == TimerOf(w, x.id)
    ensures Reachable(Overtaken(w, x))
  {
    hide Reachable;
    Goes(w, System(MsgTake));
    var s1 := Next(w, System(MsgTake));
    Goes(s1, System(MsgArm));
    var s2 := Next(s1, System(MsgArm));
    Goes(s2, System(PollDisarm));
    var s3 := Next(s2, System(PollDisarm));
    Goes(s3, System(PollRemove));
    var s4 := Next(s3, System(PollRemove));
    Goes(s4, System(PollSend));
    assert Next(s4, System(PollSend)) == Overtaken(w, x);
  }

  lemma OvertakenCalls(o: State, x: Timer) returns (s: State)
    requires Reachable(o) && o.tree == Leaf(x) && o.proc.Idle? && o.queue == [ExpireMsg] && Exists(o, x.id)
    requires x == TimerOf(o, x.id) && o.delegates[x.id].linked && o.delegates[x.id].calls == 0
    requires Usable(o, o.delegates[x.id].client) && o.clients[o.delegates[x.id].client].timer == Some(x.id)
    ensures Reachable(s) && x.id in s.delegates && s.delegates[x.id].calls == 1
    ensures s.now == o.now && s.delegates[x.id].due == x.due
  {
    hide Reachable;
    Goes(o, System(MsgTake));
    var s1 := Next(o, System(MsgTake));
    Goes(s1, System(MsgRead));
    var s2 := Next(s1, System(MsgRead));
    Goes(s2, System(MsgStop));
    var s3 := Next(s2, System(MsgStop));
    Goes(s3, System(MsgCall));
    s := Next(s3, System(MsgCall));
  }

  /** Wherever the service rests with a stale fd, a timer started later can be called back early, as early as one likes:
      the stale fd wakes the poll thread, and its Expire message pops whatever is in the heap by then. */
  lemma StaleCallsEarly(s: State, c: Cid, d: Id, due: int) returns (s': State)
    requires Reachable(s) && Stale(s) && s.queue == [] && s.poll.Waiting?
    requires c !in s.clients && d !in s.delegates && s.now < due && s.armed.value < due
    ensures Reachable(s') && d in s'.delegates && s'.delegates[d].calls == 1 && s'.delegates[d].due == due
    ensures s'.now == if s.armed.value <= s.now then s.now else s.armed.value
  {
    hide Reachable;
    var t := WokenReachable(s, c, d, due);
    var w, x := Woken(s, t, c, d, due), Timer(d, due);
    OvertakenReachable(w, x);
    s' := OvertakenCalls(Overtaken(w, x), x);
  }

  // ---------- Witnesses ----------

  /** Stopping the only timer leaves the fd armed. */
  lemma StaleAfterStop()
    ensures exists s :: Reachable(s) && Stale(s) && s.queue == [] && s.poll.Waiting?
  {
    hide Reachable;
    OneTimerReachable();
    var s0 := OneTimer();
    Goes(s0, Stop(0));
    var s1 := Next(s0, Stop(0));
    Goes(s1, System(MsgTake));
    var s2 := Next(s1, System(MsgTake));
    assert Reachable(s2) && Stale(s2) && s2.queue == [] && s2.poll.Waiting?;
  }

  /** Two timers, due at 10 and at 100, are both due; the fd, armed for the second, has woken the poll thread, and
      has then been armed for the first, just added. */
  function BothDue(): State {
    State(100, Push(Leaf(Timer(0, 100)), Timer(1, 10), Earlier), [ExpireMsg], Idle, Waiting, true, Some(10),
          map[0 := Delegate(0, 100, true, 0, 0, 0, 0), 1 := Delegate(1, 10, true, 0, 0, 0, 0)],
          map[0 := Client(Some(0), true, 2), 1 := Client(Some(1), true, 2)])
  }

  function FirstDue(): State {
    State(100, Leaf(Timer(0, 100)), [PushMsg(1)], Idle, Unpolled, false, None,
          map[0 := Delegate(0, 100, true, 0, 0, 0, 0), 1 := Delegate(1, 10, true, 0, 0, 0, 0)],
          map[0 := Client(Some(0), true, 2), 1 := Client(Some(1), true, 2)])
  }

  lemma FirstDueReachable()
    ensures Reachable(FirstDue())
  {
    hide Reachable;
    InitReachable(0);
    var s0 := Init(0);
    Goes(s0, NewClient(0));
    var s1 := Next(s0, NewClient(0));
    Goes(s1, Start(0, 0, 100));
    var s2 := Next(s1, Start(0, 0, 100));
    Goes(s2, System(MsgTake));
    var s3 := Next(s2, System(MsgTake));
    Goes(s3, System(MsgArm));
    var s4 := Next(s3, System(MsgArm));
    FirstDueFrom(s4);
  }

  lemma FirstDueFrom(s4: State)
    requires Reachable(s4)
    requires s4 == State(0, Leaf(Timer(0, 100)), [], Idle, Waiting, true, Some(100),
      map[0 := Delegate(0, 100, true, 0, 0, 0, 0)], map[0 := Client(Some(0), true, 2)])
    ensures Reachable(FirstDue())
  {
    hide Reachable;
    Goes(s4, NewClient(1));
    var s5 := Next(s4, NewClient(1));
    Goes(s5, Start(1, 1, 10));
    var s6 := Next(s5, Start(1, 1, 10));
    Goes(s6, Tick(100));
    var s7 := Next(s6, Tick(100));
    Goes(s7, System(PollWake));
    var s8 := Next(s7, System(PollWake));
    Goes(s8, System(PollDisarm));
    var s9 := Next(s8, System(PollDisarm));
    Goes(s9, System(PollRemove));
    assert Next(s9, System(PollRemove)) == FirstDue();
  }

  lemma BothDueReachable()
    ensures Reachable(BothDue())
  {
    hide Reachable;
    FirstDueReachable();
    var s0 := FirstDue();
    Goes(s0, System(MsgTake));
    var s1 := Next(s0, System(MsgTake));
    Goes(s1, System(MsgArm));
    var s2 := Next(s1, System(MsgArm));
    Goes(s2, System(PollSend));
    assert Next(s2, System(PollSend)) == BothDue();
  }

  /** Timer 1 has been called back, timer 0 has been popped. */
  function OneCalled(): State {
    State(100, Nil, [RemoveMsg(1)], Firing(100, Timer(0, 100)), Waiting, true, Some(10),
          map[0 := Delegate(0, 100, true, 0, 0, 0, 0), 1 := Delegate(1, 10, false, 1, 0, 0, 1)],
          map[0 := Client(Some(0), true, 2), 1 := Client(None, true, 2)])
  }

  lemma OneCalledReachable()
    ensures Reachable(OneCalled())
  {
    hide Reachable;
    BothDueReachable();
    var s0 := BothDue();
    Goes(s0, System(MsgTake));
    var s1 := Next(s0, System(MsgTake));
    Goes(s1, System(MsgRead));
    var s2 := Next(s1, System(MsgRead));
    Goes(s2, System(MsgStop));
    var s3 := Next(s2, System(MsgStop));
    Goes(s3, System(MsgCall));
    var s4 := Next(s3, System(MsgCall));
    Goes(s4, System(MsgCheck));
    assert Next(s4, System(MsgCheck)) == OneCalled();
  }

  /** An expiration can leave the fd armed, too: no client has stopped a timer or is gone, and every timer has been
      called back when it was due. */
  lemma StaleAfterExpiry()
    ensures exists s :: Reachable(s) && Stale(s) && s.queue == [] && s.poll.Waiting? && NoneStopped(s)
  {
    hide Reachable;
    OneCalledReachable();
    var s0 := OneCalled();
    Goes(s0, System(MsgRead));
    var s1 := Next(s0, System(MsgRead));
    Goes(s1, System(MsgStop));
    var s2 := Next(s1, System(MsgStop));
    Goes(s2, System(MsgCall));
    var s3 := Next(s2, System(MsgCall));
    Goes(s3, System(MsgCheck));
    var s4 := Next(s3, System(MsgCheck));
    Goes(s4, System(MsgRearm));
    var s5 := Next(s4, System(MsgRearm));
    StaleAfterExpiryFrom(s5);
  }

  lemma StaleAfterExpiryFrom(s5: State)
    requires Reachable(s5)
    requires s5 == State(100, Nil, [RemoveMsg(1), RemoveMsg(0)], Idle, Waiting, true, Some(10),
      map[0 := Delegate(0, 100, false, 1, 0, 0, 1), 1 := Delegate(1, 10, false, 1, 0, 0, 1)],
      map[0 := Client(None, true, 2), 1 := Client(None, true, 2)])
    ensures exists s :: Reachable(s) && Stale(s) && s.queue == [] && s.poll.Waiting? && NoneStopped(s)
  {
    hide Reachable;
    Goes(s5, System(MsgTake));
    var s6 := Next(s5, System(MsgTake));
    Goes(s6, System(MsgTake));
    var s7 := Next(s6, System(MsgTake));
    assert Reachable(s7) && Stale(s7) && s7.queue == [] && s7.poll.Waiting? && NoneStopped(s7);
  }

  predicate NoneStopped(s: State) {
    && (forall c :: c in s.clients ==> s.clients[c].alive)
    && (forall d :: d in s.delegates ==> s.delegates[d].stops == 0 && s.delegates[d].calls == 1)
  }
}
