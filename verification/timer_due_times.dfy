/** When timers are called back, from their start on: not before the earliest due time there is, when their own is past,
    and never after their own stop. */
module TimerDueTimes {
  import opened HeapModel
  import opened Timers
  import opened LocHeapImpl
  import opened TimerService
  import opened TimerProofs
  import opened TimerTheorems

  // ---------- One message ----------

  lemma TopOfPush(t: Tree<Timer>, x: Timer)
    requires Heap(t, Earlier)
    ensures var t' := Push(t, x, Earlier);
      && t'.Node?
      && (t.Nil? || (t'.data != t.data && Earlier(t'.data, t.data)) <==> forall y :: y in Items(t) ==> x.due < y.due)
  {
    EarlierRanks();
    PushAdds(t, x, Earlier);
    if t.Node? {
      TopIsEarliest(t);
      TopIsMember(t);
    }
  }

  /** A Push message leads to the fd being armed exactly if the timer is due before all others. */
  lemma PushArms(s: State, d: Id)
    requires Good(s) && Ready(s, MsgTake) && Safe(s, MsgTake) && s.queue[0] == PushMsg(d)
    ensures SysNext(s, MsgTake).proc ==
      if forall y :: y in Items(s.tree) ==> s.delegates[d].due < y.due then Arming(s.delegates[d].due, None) else Idle
  {
    hide Items, Push, LivesOk, LocksOk, ClientsOk, QueueOk, WakeOk, CallsOk;
    var x := TimerOf(s, d);
    TopOfPush(s.tree, x);
    EarlierRanks();
    PushAdds(s.tree, x, Earlier);
  }

  /** A Remove message does so exactly if it takes out the timer at the top and there are others; the delegate is
      deleted at once or after that. */
  lemma RemoveArms(s: State, d: Id)
    requires Good(s) && Ready(s, MsgTake) && Safe(s, MsgTake) && s.queue[0] == RemoveMsg(d)
    ensures var s' := SysNext(s, MsgTake);
      var top := s.tree.Node? && s.tree.data == Timer(d, s.delegates[d].due);
      if top && |Items(s.tree)| > 1 then
        s'.tree.Node? && s'.proc == Arming(s'.tree.data.due, Some(d)) && s'.delegates == s.delegates
      else
        s'.proc.Idle? && d in s'.delegates && s'.delegates[d].deletes == s.delegates[d].deletes + 1
  {
    hide Heap, Items, Removed, LivesOk, LocksOk, ClientsOk, QueueOk, WakeOk, CallsOk;
    var x := TimerOf(s, d);
    EarlierRanks();
    RemoveTakesOut(s.tree, x, Earlier);
    TopIsMember(s.tree);
    var t' := Removed(s.tree, x, Earlier);
    if x in Items(s.tree) { assert |Items(s.tree)| == |Items(t')| + 1; }
    NodeHasItems(t');
  }

  lemma NodeHasItems(t: Tree<Timer>)
    ensures t.Node? <==> |Items(t)| > 0
  {
  }

  /** An Expire message takes the earliest timer, whether due or not, if there is one. */
  lemma ExpireTakes(s: State)
    requires Good(s) && Ready(s, MsgTake) && s.queue[0] == ExpireMsg
    ensures var s' := SysNext(s, MsgTake);
      if Items(s.tree) == multiset{} then s'.proc.Rearming? && s'.tree == s.tree
      else
        && s'.proc.Firing? && s'.proc.now == s.now
        && Items(s.tree) == Items(s'.tree) + multiset{s'.proc.timer}
        && forall y :: y in Items(s.tree) ==> s'.proc.timer.due <= y.due
  {
    hide Items, Popped, LivesOk, LocksOk, ClientsOk, QueueOk, WakeOk, CallsOk;
    NodeHasItems(s.tree);
    if s.tree.Node? { PopTop(s.tree); }
  }

  /** The expiration goes on with the earliest timer as long as one is due, and ends when none is. */
  lemma CheckTakesDue(s: State)
    requires Good(s) && s.proc.Checking?
    ensures var s' := SysNext(s, MsgCheck);
      if forall y :: y in Items(s.tree) ==> s.proc.now < y.due then s'.proc.Rearming? && s'.tree == s.tree
      else
        && s'.proc.Firing? && s'.proc.now == s.proc.now && s'.proc.timer.due <= s.proc.now
        && Items(s.tree) == Items(s'.tree) + multiset{s'.proc.timer}
        && forall y :: y in Items(s.tree) ==> s'.proc.timer.due <= y.due
  {
    hide Items, Popped, LivesOk, LocksOk, ClientsOk, QueueOk, WakeOk, CallsOk;
    NodeHasItems(s.tree);
    if s.tree.Node? {
      PopTop(s.tree);
      TopIsMember(s.tree);
    }
  }

  // ---------- Not before the earliest due time ----------

  /** Every timer is started for time t or later. */
  predicate StartedFor(steps: seq<Step>, t: int) {
    forall i :: 0 <= i < |steps| && steps[i].Start? ==> t <= steps[i].due
  }

  /** Before t nothing is expired and nothing has been called back. */
  predicate NothingYet(s: State, t: int) {
    && s.poll.Waiting? && ExpireMsg !in s.queue && (s.proc.Idle? || s.proc.Arming?)
    && forall d :: d in s.delegates ==> s.delegates[d].fires == 0 && s.delegates[d].calls == 0
  }

  predicate NotBefore(s: State, t: int) {
    && (forall d :: d in s.delegates ==> t <= s.delegates[d].due)
    && (s.armed.Some? ==> t <= s.armed.value)
    && (s.now < t ==> NothingYet(s, t))
  }

  lemma SystemNotBefore(s: State, sys: Sys, t: int)
    requires Inv(s) && Ready(s, sys) && Safe(s, sys) && NotBefore(s, t)
    ensures NotBefore(SysNext(s, sys), t)
  {
    hide Inv;
    match sys
    case MsgArm => { hide SysNext; ArmNotBefore(s, t); }
    case MsgTake => { hide SysNext; TakeNotBefore(s, t); }
    case MsgStop => { hide StopTimer; }
    case _ =>
  }

  lemma ArmNotBefore(s: State, t: int)
    requires Inv(s) && Ready(s, MsgArm) && Safe(s, MsgArm) && NotBefore(s, t)
    ensures NotBefore(SysNext(s, MsgArm), t)
  {
    hide Items, Heap, LivesOk, LocksOk, ClientsOk, QueueOk;
    TopIsMember(s.tree);
    assert Names(s, s.tree.data);
  }

  lemma TakeNotBefore(s: State, t: int)
    requires Ready(s, MsgTake) && Safe(s, MsgTake) && NotBefore(s, t)
    ensures NotBefore(SysNext(s, MsgTake), t)
  {
    hide NotBefore, Push, Popped, Removed;
    var m := s.queue[0];
    if m.ExpireMsg? {
      ExpireNotBefore(s, t);
    } else {
      var s' := s.(queue := s.queue[1..]);
      QueuedNotBefore(s, s', t);
      if m.RemoveMsg? {
        var r := s'.(tree := Removed(s.tree, TimerOf(s, m.d), Earlier));
        TreeNotBefore(s', r, t);
        SoonestNotBefore(r, Some(m.d), t);
        DeleteNotBefore(r, m.d, t);
      } else {
        var p := s'.(tree := Push(s.tree, TimerOf(s, m.d), Earlier));
        TreeNotBefore(s', p, t);
        SoonestNotBefore(p, None, t);
      }
    }
  }

  lemma ExpireNotBefore(s: State, t: int)
    requires Ready(s, MsgTake) && s.queue[0] == ExpireMsg && NotBefore(s, t)
    ensures NotBefore(SysNext(s, MsgTake), t)
  {
    hide Popped;
    assert ExpireMsg in s.queue;
  }

  lemma QueuedNotBefore(s: State, s': State, t: int)
    requires NotBefore(s, t) && s.queue != [] && s' == s.(queue := s.queue[1..])
    ensures NotBefore(s', t)
  {
  }

  lemma TreeNotBefore(s: State, s': State, t: int)
    requires NotBefore(s, t) && s' == s.(tree := s'.tree)
    ensures NotBefore(s', t)
  {
  }

  lemma DeleteNotBefore(s: State, d: Id, t: int)
    requires NotBefore(s, t) && d in s.delegates && s.delegates[d].client in s.clients
    ensures NotBefore(Delete(s, d), t)
  {
  }

  lemma SoonestNotBefore(s: State, del: Option<Id>, t: int)
    requires NotBefore(s, t) && s.proc.Idle?
    requires del.Some? ==> del.value in s.delegates && s.delegates[del.value].client in s.clients
    ensures NotBefore(Soonest(s, del), t)
  {
    hide Delete;
    if s.tree.Nil? && del.Some? { DeleteNotBefore(s.(proc := Idle), del.value, t); }
  }

  lemma StepNotBefore(s: State, step: Step, t: int)
    requires Inv(s) && Enabled(s, step) && StepSafe(s, step) && NotBefore(s, t)
    requires step.Start? ==> t <= step.due
    ensures NotBefore(Next(s, step), t)
  {
    hide Inv, SysNext;
    if step.System? { SystemNotBefore(s, step.sys, t); }
  }

  lemma {:induction false} RunNotBefore(s: State, steps: seq<Step>, s': State, t: int)
    requires Good(s) && Run(s, steps, s') && StartedFor(steps, t) && NotBefore(s, t)
    ensures NotBefore(s', t)
    decreases |steps|
  {
    hide Inv, CallsOk, NotBefore, Enabled, StepSafe, Next;
    if steps != [] {
      StepNotBefore(s, steps[0], t);
      StepKeepsGood(s, steps[0]);
      RunNotBefore(Next(s, steps[0]), steps[1..], s', t);
    }
  }

  /** Whatever the threads and clients do: before the earliest time that any timer was started for, the poll thread is
      not woken and nobody is called back. */
  lemma NothingBefore(now: int, steps: seq<Step>, s: State, t: int)
    requires Run(Init(now), steps, s) && StartedFor(steps, t) && s.now < t
    ensures s.poll.Waiting? && ExpireMsg !in s.queue && (s.proc.Idle? || s.proc.Arming?)
    ensures forall d :: d in s.delegates ==> s.delegates[d].fires == 0 && s.delegates[d].calls == 0
  {
    hide Inv, CallsOk, Run;
    InitHolds(now);
    assert NotBefore(Init(now), t);
    RunNotBefore(Init(now), steps, s, t);
  }

  // ---------- After the timer's own due time ----------

  /** A timer that is started and not stopped has its one callback, once its time is past and the service has come to
      rest. */
  lemma StartedIsCalledBack(s: State, c: Cid, d: Id, due: int, t: int, steps: seq<Step>, s': State)
    requires Reachable(s) && Runs(s, c) && s.clients[c].timer.None? && due <= t
    requires Run(s, [Start(c, d, due), Tick(t)] + steps, s') && Alone(steps) && Quiet(s')
    ensures d in s'.delegates && s'.delegates[d].client == c && s'.delegates[d].due == due
    ensures s'.delegates[d].calls == 1 && s'.delegates[d].stops == 0
  {
    hide Inv, CallsOk, Alone, Quiet, SysNext;
    ReachableGood(s);
    hide Reachable;
    var all := [Start(c, d, due), Tick(t)] + steps;
    assert all[1..] == [Tick(t)] + steps && ([Tick(t)] + steps)[1..] == steps;
    var s1 := Next(s, Start(c, d, due));
    var s2 := Next(s1, Tick(t));
    assert Run(s1, [Tick(t)] + steps, s') && Run(s2, steps, s');
    StepKeepsGood(s, Start(c, d, due));
    StepKeepsGood(s1, Tick(t));
    hide Run;
    DueTimersFire(s2, steps, s', d);
    AloneKeeps(s2, steps, s');
  }

  // ---------- Not after the client's own stop ----------

  lemma SystemKeepsStops(s: State, sys: Sys, d: Id)
    requires Ready(s, sys) && Safe(s, sys) && d in s.delegates
    ensures d in SysNext(s, sys).delegates && SysNext(s, sys).delegates[d].stops == s.delegates[d].stops
  {
    hide SysNext;
    SystemKeeps(s, sys);
  }

  lemma StopsGrow(s: State, step: Step, d: Id)
    requires Enabled(s, step) && StepSafe(s, step) && d in s.delegates
    ensures d in Next(s, step).delegates && Next(s, step).delegates[d].stops >= s.delegates[d].stops
  {
    hide SysNext, Ready, Safe;
    if step.System? { SystemKeepsStops(s, step.sys, d); }
  }

  lemma {:induction false} StopsStay(s: State, steps: seq<Step>, s': State, d: Id)
    requires Run(s, steps, s') && d in s.delegates
    ensures d in s'.delegates && s'.delegates[d].stops >= s.delegates[d].stops
    decreases |steps|
  {
    hide Enabled, StepSafe, Next;
    if steps != [] {
      StopsGrow(s, steps[0], d);
      StopsStay(Next(s, steps[0]), steps[1..], s', d);
    }
  }

  /** A client that stops its running timer is never called back for it, whatever happens afterwards. */
  lemma StoppedIsNotCalled(s: State, c: Cid, d: Id, steps: seq<Step>, s': State)
    requires Reachable(s) && Runs(s, c) && s.clients[c].timer == Some(d)
    requires Run(s, [Stop(c)] + steps, s')
    ensures d in s'.delegates && s'.delegates[d].calls == 0 && s'.delegates[d].fires == 0
    ensures s'.proc.Calling? ==> s'.proc.d != d
  {
    hide Inv, CallsOk;
    ReachableGood(s);
    hide Reachable;
    var all := [Stop(c)] + steps;
    assert all[1..] == steps;
    var s1 := Next(s, Stop(c));
    assert d in s1.delegates && s1.delegates[d].stops > 0;
    StopsStay(s1, steps, s', d);
    RunKeepsGood(s, all, s');
    EndedOnce(s', d);
  }

  lemma EndedOnce(s: State, d: Id)
    requires Good(s) && d in s.delegates && s.delegates[d].stops > 0
    ensures s.delegates[d].fires == 0 && s.delegates[d].calls == 0 && !IsCalling(s, d)
  {
    hide Items, InHeap;
    assert LifeOk(s, Pending(s), d);
  }
}
