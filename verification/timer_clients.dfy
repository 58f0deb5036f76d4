/** What a client of the timer service can tell about an expire() that may have it in hand. */
module TimerClients {
  import opened HeapModel
  import opened Timers
  import opened LocHeapImpl
  import opened TimerService
  import opened TimerProofs
  import opened TimerTheorems
  import opened TimerCallbacks

  predicate InHand(s: State, c: Cid) { HasClient(s.proc) && s.proc.client == c }

  // ---------- When it can be sure ----------

  /** In this step c stops a timer of its own. */
  ghost predicate StopsItself(now: int, steps: seq<Step>, j: int, c: Cid) {
    && 0 <= j < |steps| && (steps[j] == Stop(c) || steps[j] == Destroy(c))
    && exists m :: Run(Init(now), steps[..j], m) && c in m.clients && m.clients[c].timer.Some?
  }

  lemma StopsItselfBefore(now: int, steps: seq<Step>, n: nat, j: int, c: Cid)
    requires n <= |steps| && StopsItself(now, steps[..n], j, c)
    ensures StopsItself(now, steps, j, c)
  {
    hide Run;
    assert steps[..n][..j] == steps[..j] && steps[..n][j] == steps[j];
  }

  /** Only its client's own stop unlinks the timer whose client is in hand. */
  lemma WhileStopping(m: State, step: Step)
    requires Good(m) && Enabled(m, step) && StepSafe(m, step) && m.proc.Stopping? && Next(m, step).proc.Stopping?
    ensures Next(m, step).proc == m.proc && step != System(MsgRead) && step != System(MsgCall)
    ensures m.proc.timer.id in m.delegates && m.proc.timer.id in Next(m, step).delegates && m.proc.client in m.clients
    ensures var x, c := m.proc.timer.id, m.proc.client;
      m.delegates[x].linked && !Next(m, step).delegates[x].linked ==>
        (step == Stop(c) || step == Destroy(c)) && m.clients[c].timer.Some?
  {
    hide Core;
    StoppingFacts(m);
    if step.System? {
      SystemNext(m, step);
    } else {
      hide Next;
      UnlinksOwn(m, step);
      var x := m.proc.timer.id;
      if m.delegates[x].linked && !Next(m, step).delegates[x].linked {
        var c :| c in m.clients && (step == Stop(c) || step == Destroy(c)) && m.clients[c].timer == Some(x);
        RunsOneTimer(m, c);
      }
    }
  }

  lemma StoppingFacts(m: State)
    requires CallsOk(m) && m.proc.Stopping?
    ensures m.proc.timer.id in m.delegates && m.proc.client in m.clients
    ensures m.delegates[m.proc.timer.id].client == m.proc.client
  {
  }

  lemma UnlinksOwn(m: State, step: Step)
    requires Enabled(m, step) && StepSafe(m, step) && !step.System?
    ensures Next(m, step).proc == m.proc && m.delegates.Keys <= Next(m, step).delegates.Keys
    ensures forall x :: x in m.delegates && m.delegates[x].linked && !Next(m, step).delegates[x].linked ==>
      exists c :: c in m.clients && (step == Stop(c) || step == Destroy(c)) && m.clients[c].timer == Some(x)
  {
    forall x | x in m.delegates && m.delegates[x].linked && !Next(m, step).delegates[x].linked
      ensures exists c :: c in m.clients && (step == Stop(c) || step == Destroy(c)) && m.clients[c].timer == Some(x)
    {
      match step
      case Stop(c) => assert m.clients[c].timer == Some(x);
      case Destroy(c) => assert m.clients[c].timer == Some(x);
      case _ =>
    }
  }

  lemma EnterStopping(m: State, step: Step)
    requires Good(m) && Enabled(m, step) && StepSafe(m, step) && !m.proc.Stopping? && Next(m, step).proc.Stopping?
    ensures var s := Next(m, step);
      step == System(MsgRead) && s.proc.timer.id in s.delegates && s.delegates[s.proc.timer.id].linked
  {
    hide Removed, Popped, Push, Inv, CallsOk;
  }

  /** The timer that a client in hand is about to be stopped for runs, unless the client has stopped it itself since
      it was read; and nobody has been called back since. */
  lemma {:induction false} StillRuns(now: int, steps: seq<Step>, s: State) returns (i: nat)
    requires Run(Init(now), steps, s) && s.proc.Stopping?
    ensures i < |steps| && steps[i] == System(MsgRead) && forall k :: i < k < |steps| ==> steps[k] != System(MsgCall)
    ensures s.proc.timer.id in s.delegates
    ensures s.delegates[s.proc.timer.id].linked || exists j :: i < j && StopsItself(now, steps, j, s.proc.client)
    decreases |steps|
  {
    hide Run, Enabled, StepSafe, Next, CallsOk, Inv, Init, StopsItself;
    if steps == [] { StartsIdle(now, s); }
    var n := |steps| - 1;
    var m := RunLast(Init(now), steps, s);
    InitHolds(now);
    RunKeepsGood(Init(now), steps[..n], m);
    if m.proc.Stopping? {
      WhileStopping(m, steps[n]);
      i := StillRuns(now, steps[..n], m);
      assert forall k :: i < k < |steps| ==> k == n || steps[k] == steps[..n][k];
      if m.delegates[m.proc.timer.id].linked {
        if !s.delegates[s.proc.timer.id].linked { StopsNow(now, steps, n, m, s.proc.client); }
      } else {
        var j :| i < j && StopsItself(now, steps[..n], j, m.proc.client);
        StopsItselfBefore(now, steps, n, j, m.proc.client);
        StaysUnlinked(m, steps[n], m.proc.timer.id);
      }
    } else {
      EnterStopping(m, steps[n]);
      i := n;
    }
  }

  lemma StopsNow(now: int, steps: seq<Step>, n: nat, m: State, c: Cid)
    requires n < |steps| && Run(Init(now), steps[..n], m) && (steps[n] == Stop(c) || steps[n] == Destroy(c))
    requires c in m.clients && m.clients[c].timer.Some?
    ensures StopsItself(now, steps, n, c)
  {
  }

  lemma StaysUnlinked(m: State, step: Step, d: Id)
    requires Enabled(m, step) && StepSafe(m, step) && d in m.delegates && !m.delegates[d].linked && m.proc.Stopping?
    requires Next(m, step).proc.Stopping?
    ensures d in Next(m, step).delegates && !Next(m, step).delegates[d].linked
  {
  }

  /** A client that runs no timer and misses no callback is in no expire()'s hand, if it has been called back since
      it last stopped a timer itself. It can know all of that. */
  lemma CalledSinceIsFree(now: int, steps: seq<Step>, s: State, c: Cid, k: int)
    requires Run(Init(now), steps, s) && c in s.clients && s.clients[c].timer.None? && Accounted(s, c)
    requires k == -1 || (0 <= k < |steps| && steps[k] == System(MsgCall))
    requires forall j :: k < j ==> !StopsItself(now, steps, j, c)
    ensures !InHand(s, c)
  {
    hide Run, Inv, CallsOk, Init, StopsItself, Accounted;
    assert Reachable(s);
    AccountedIffNonePending(s, c);
    if s.proc.Stopping? && s.proc.client == c {
      ReachableGood(s);
      var i := StillRuns(now, steps, s);
      assert k <= i;
      StoppingRuns(s);
    }
  }

  lemma StoppingRuns(s: State)
    requires Good(s) && s.proc.Stopping?
    ensures s.proc.timer.id in s.delegates && s.proc.client in s.clients
    ensures s.delegates[s.proc.timer.id].linked ==> s.clients[s.proc.client].timer == Some(s.proc.timer.id)
  {
    hide Core;
    StoppingFacts(s);
    RunsOneTimer(s, s.proc.client);
  }

  // ---------- When it cannot ----------

  /** All that c has seen of the service: its timers, and which of them it stopped and was called back for. */
  ghost predicate SameView(s: State, s': State, c: Cid) {
    && c in s.clients && c in s'.clients
    && s'.clients[c].timer == s.clients[c].timer && s'.clients[c].alive == s.clients[c].alive
    && (forall d :: d in s.delegates && s.delegates[d].client == c <==>
        d in s'.delegates && s'.delegates[d].client == c)
    && (forall d :: d in s.delegates && s.delegates[d].client == c ==>
          && s'.delegates[d].due == s.delegates[d].due && s'.delegates[d].linked == s.delegates[d].linked
          && s'.delegates[d].stops == s.delegates[d].stops && s'.delegates[d].calls == s.delegates[d].calls)
  }

  lemma DeleteView(s: State, d: Id, c: Cid)
    requires c in s.clients && d in s.delegates && s.delegates[d].client in s.clients
    ensures SameView(s, Delete(s, d), c)
  {
  }

  lemma TakeView(s: State, c: Cid)
    requires Ready(s, MsgTake) && Safe(s, MsgTake) && c in s.clients
    ensures SameView(s, SysNext(s, MsgTake), c)
  {
    hide Removed, Popped, Push;
    match s.queue[0]
    case PushMsg(d) =>
    case RemoveMsg(d) => {
      hide Delete;
      var s' := s.(queue := s.queue[1..], tree := Removed(s.tree, TimerOf(s, d), Earlier));
      DeleteView(s', d, c);
      DeleteView(s'.(proc := Idle), d, c);
    }
    case ExpireMsg =>
  }

  lemma StopView(s: State, c: Cid)
    requires Good(s) && Ready(s, MsgStop) && Safe(s, MsgStop) && c in s.clients && s.proc.client != c
    ensures SameView(s, SysNext(s, MsgStop), c)
  {
    hide Core, CallsOk;
    RunsOneTimer(s, s.proc.client);
    hide Inv;
  }

  /** As long as c is not in hand, the service does nothing that c could see. */
  lemma ServiceKeepsView(s: State, sys: Sys, c: Cid)
    requires Good(s) && Ready(s, sys) && Safe(s, sys) && c in s.clients && !InHand(s, c)
    ensures SameView(s, SysNext(s, sys), c)
  {
    match sys
    case MsgTake => { hide Inv, CallsOk, SysNext, SameView; TakeView(s, c); }
    case MsgStop => { hide Inv, CallsOk, SysNext, SameView; StopView(s, c); }
    case MsgArm => {
      hide Inv, CallsOk, Delete;
      var s' := s.(armed := Some(s.proc.due), proc := Idle);
      if s.proc.del.Some? { DeleteView(s', s.proc.del.value, c); }
    }
    case MsgCall => { hide Inv; }
    case _ => { hide Inv, CallsOk, Popped; }
  }

  /** A run of the service alone that ends c's timer comes by a state in which c is in hand; up to there c has seen
      nothing. */
  lemma {:induction false} ComesInHand(s: State, steps: seq<Step>, s': State, c: Cid, d: Id)
    returns (most: seq<Step>, p: State)
    requires Good(s) && CallSafe(s) && Run(s, steps, s') && Alone(steps)
    requires c in s.clients && d in s.delegates && s.delegates[d].client == c && s.delegates[d].linked
    requires d in s'.delegates && !s'.delegates[d].linked
    ensures Run(s, most, p) && Alone(most) && Good(p) && InHand(p, c) && SameView(s, p, c)
    decreases |steps|
  {
    hide Inv, CallsOk, SysNext, Ready, Safe, SameView, CallSafe;
    if InHand(s, c) {
      most, p := [], s;
      ViewSelf(s, c);
    } else {
      var sys, m := steps[0].sys, Next(s, steps[0]);
      SystemKeepsGood(s, sys);
      ServiceKeepsView(s, sys, c);
      ViewTimer(s, m, c, d);
      var rest;
      rest, p := ComesInHand(m, steps[1..], s', c, d);
      most := [steps[0]] + rest;
      assert most[1..] == rest;
      ViewChain(s, m, p, c);
    }
  }

  lemma ViewSelf(s: State, c: Cid)
    requires c in s.clients
    ensures SameView(s, s, c)
  {
  }

  lemma ViewTimer(s: State, s': State, c: Cid, d: Id)
    requires SameView(s, s', c) && d in s.delegates && s.delegates[d].client == c
    ensures c in s'.clients && d in s'.delegates && s'.delegates[d].client == c
    ensures s'.delegates[d].linked == s.delegates[d].linked
  {
  }

  lemma ViewChain(s: State, m: State, p: State, c: Cid)
    requires SameView(s, m, c) && SameView(m, p, c)
    ensures SameView(s, p, c)
  {
  }

  lemma RunChain(s: State, first: Step, rest: seq<Step>, p: State)
    requires Enabled(s, first) && StepSafe(s, first) && Run(Next(s, first), rest, p)
    ensures Run(s, [first] + rest, p)
  {
    assert ([first] + rest)[1..] == rest;
  }

  /** However the service got where it is, a client that runs a timer cannot tell that state from one in which
      expire() has the client in hand: the clock and the service's threads alone lead to such a state, with nothing
      seen. */
  lemma RunningLeavesDoubt(s: State, c: Cid) returns (steps: seq<Step>, p: State)
    requires Good(s) && CallSafe(s) && Runs(s, c) && s.clients[c].timer.Some?
    ensures Run(s, steps, p) && forall i :: 0 <= i < |steps| ==> steps[i].System? || steps[i].Tick?
    ensures Good(p) && InHand(p, c) && SameView(s, p, c)
  {
    hide Inv, CallsOk, Run, Quiet, CallSafe;
    CurrentRuns(s, c);
    var d := s.clients[c].timer.value;
    var t := if s.delegates[d].due <= s.now then s.now else s.delegates[d].due;
    var s1 := s.(now := t);
    StepKeepsGood(s, Tick(t));
    TickSafe(s, t);
    var rest, s2 := Settles(s1);
    DueTimersFire(s1, rest, s2, d);
    RunKeepsGood(s1, rest, s2);
    CalledIsEnded(s2, d);
    var most;
    most, p := ComesInHand(s1, rest, s2, c, d);
    RunChain(s, Tick(t), most, p);
    steps := [Tick(t)] + most;
    TickView(s, t, c);
    ViewChain(s, s1, p, c);
  }

  lemma CurrentRuns(s: State, c: Cid)
    requires Good(s) && c in s.clients && s.clients[c].timer.Some?
    ensures var d := s.clients[c].timer.value; d in s.delegates && s.delegates[d].client == c && s.delegates[d].linked
  {
    hide Core;
    RunsOneTimer(s, c);
  }

  lemma TickSafe(s: State, t: int)
    requires CallSafe(s)
    ensures CallSafe(s.(now := t))
  {
  }

  lemma CalledIsEnded(s: State, d: Id)
    requires Good(s) && d in s.delegates && s.delegates[d].calls == 1
    ensures !s.delegates[d].linked
  {
    hide Items, Heap, Sharers;
    assert LifeOk(s, Pending(s), d);
  }

  lemma TickView(s: State, t: int, c: Cid)
    requires c in s.clients && s.now <= t
    ensures SameView(s, Next(s, Tick(t)), c)
  {
  }

  /** Nor can it tell after it has stopped that timer itself, with success: whether it is in hand then is the service's
      secret, and if it is and destroys itself, expire() goes on with freed memory. */
  lemma OwnStopLeavesDoubt(s: State, c: Cid) returns (steps: seq<Step>, p: State)
    requires Reachable(s) && CallSafe(s) && Runs(s, c) && s.clients[c].timer.Some?
    ensures Run(s, steps, p) && forall i :: 0 <= i < |steps| ==> steps[i].System? || steps[i].Tick?
    ensures Enabled(s, Stop(c)) && StepSafe(s, Stop(c)) && Enabled(p, Stop(c)) && StepSafe(p, Stop(c))
    ensures var now, later := Next(s, Stop(c)), Next(p, Stop(c));
      && SameView(now, later, c) && InHand(later, c)
      && Enabled(later, Destroy(c)) && StepSafe(later, Destroy(c))
      && (var gone := Next(later, Destroy(c));
          var step := System(if gone.proc.Stopping? then MsgStop else MsgCall);
          Enabled(gone, step) && !StepSafe(gone, step))
  {
    hide Reachable, Inv, CallsOk, Run, SameView;
    ReachableGood(s);
    steps, p := RunningLeavesDoubt(s, c);
    ViewRuns(s, p, c);
    EveryStepIsSafe(s, Stop(c));
    EveryStepIsSafe(p, Stop(c));
    CurrentRuns(s, c);
    CurrentRuns(p, c);
    ViewAfterStop(s, p, c);
    var later := Next(p, Stop(c));
    StepKeepsGood(p, Stop(c));
    EveryStepIsSafe(later, Destroy(c));
  }

  lemma ViewRuns(s: State, p: State, c: Cid)
    requires SameView(s, p, c)
    ensures c in p.clients && p.clients[c].timer == s.clients[c].timer && p.clients[c].alive == s.clients[c].alive
  {
  }

  lemma ViewAfterStop(s: State, p: State, c: Cid)
    requires SameView(s, p, c) && s.clients[c].timer.Some?
    requires var d := s.clients[c].timer.value; d in s.delegates && s.delegates[d].client == c && d in p.delegates
    ensures SameView(ClientStop(s, c), ClientStop(p, c), c)
  {
  }
}
