/** What the timer service promises over whole runs, and that it settles. */
module TimerTheorems {
  import opened HeapModel
  import opened Timers
  import opened LocHeapImpl
  import opened TimerService
  import opened TimerProofs

  // ---------- Safety over whole runs ----------

  ghost predicate Reachable(s: State) {
    exists now: int, steps: seq<Step> :: Run(Init(now), steps, s)
  }

  ghost predicate Good(s: State) { Inv(s) && CallsOk(s) }

  lemma StepKeepsGood(s: State, step: Step)
    requires Good(s) && Enabled(s, step) && StepSafe(s, step)
    ensures Good(Next(s, step))
  {
    hide Inv, CallsOk, Enabled, StepSafe, Next;
    EveryStepKeepsInv(s, step);
    EveryStepKeepsCalls(s, step);
  }

  lemma {:induction false} RunKeepsGood(s: State, steps: seq<Step>, s': State)
    requires Good(s) && Run(s, steps, s')
    ensures Good(s')
    decreases |steps|
  {
    hide Good, Enabled, StepSafe, Next;
    if steps != [] {
      StepKeepsGood(s, steps[0]);
      RunKeepsGood(Next(s, steps[0]), steps[1..], s');
    }
  }

  lemma ReachableGood(s: State)
    requires Reachable(s)
    ensures Good(s)
  {
    hide Inv, CallsOk, Init, Run;
    var now: int, steps: seq<Step> :| Run(Init(now), steps, s);
    InitHolds(now);
    RunKeepsGood(Init(now), steps, s);
  }

  /** One start, at most one callback, and none while the timer runs or once the client's own stop succeeded. */
  lemma AtMostOneCallback(s: State, d: Id)
    requires Reachable(s) && d in s.delegates
    ensures s.delegates[d].fires + s.delegates[d].stops == (if s.delegates[d].linked then 0 else 1)
    ensures s.delegates[d].calls + B(IsCalling(s, d)) == s.delegates[d].fires
  {
    hide Reachable, Items, InHeap;
    ReachableGood(s);
    assert LifeOk(s, Pending(s), d);
  }

  /** A delegate is deleted at most once, when it has left the heap and no message or later step names it. */
  lemma DeletedOnceAndLast(s: State, d: Id)
    requires Reachable(s) && d in s.delegates
    ensures s.delegates[d].deletes <= 1
    ensures s.delegates[d].deletes == 1 ==>
      && !s.delegates[d].linked
      && PushMsg(d) !in s.queue && RemoveMsg(d) !in s.queue
      && TimerOf(s, d) !in Items(s.tree) && !IsFiring(s, d) && Pending(s) != Some(d)
      && (forall c :: c in s.clients ==> s.clients[c].timer != Some(d))
  {
    hide Reachable, Items, Heap, Sharers;
    ReachableGood(s);
    assert LifeOk(s, Pending(s), d);
    InQueue(s.queue, PushMsg(d));
    InQueue(s.queue, RemoveMsg(d));
  }

  /** mRef of a client's lock: the client while it lives, and each undeleted delegate. */
  lemma LockCountsSharers(s: State, c: Cid)
    requires Reachable(s) && c in s.clients
    ensures s.clients[c].lock == B(s.clients[c].alive) + |Sharers(s.delegates, c)|
    ensures s.clients[c].lock == 0 <==>
      !s.clients[c].alive && forall d :: d in s.delegates && s.delegates[d].client == c ==> s.delegates[d].deletes > 0
  {
    hide Reachable, Items, Heap;
    ReachableGood(s);
    var sharers := Sharers(s.delegates, c);
    if s.clients[c].lock == 0 {
      assert sharers == {};
      forall d | d in s.delegates && s.delegates[d].client == c ensures s.delegates[d].deletes > 0 {
        assert d !in sharers;
      }
    } else if !s.clients[c].alive {
      assert |sharers| > 0;
      var d :| d in sharers;
    }
  }

  /** No wakeup is lost under any interleaving of the threads. With a timer in the heap the fd is polled and
      armed for the earliest one, or about to be armed for it, or an expiration is under way: the message thread
      is in it, or its message is queued, or the poll thread is about to send it. */
  lemma NoLostWakeup(s: State)
    requires Reachable(s) && s.tree.Node?
    ensures
      || (s.proc.Idle? && s.polled && s.armed == Some(s.tree.data.due))
      || (s.proc.Arming? && s.polled && s.proc.due == s.tree.data.due)
      || !s.poll.Waiting? || ExpireMsg in s.queue
      || HasPopped(s.proc) || s.proc.Calling? || s.proc.Checking? || s.proc.Rearming?
    ensures s.proc.Arming? ==> s.proc.due == s.tree.data.due
    ensures forall x :: x in Items(s.tree) ==> s.tree.data.due <= x.due
  {
    hide Reachable, Items, Heap, Sharers;
    ReachableGood(s);
    TopIsEarliest(s.tree);
  }

  lemma TopIsEarliest(t: Tree<Timer>)
    requires Heap(t, Earlier) && t.Node?
    ensures forall x :: x in Items(t) ==> t.data.due <= x.due
  {
    EarlierRanks();
    TopOutranksAll(t, Earlier);
  }

  // ---------- The service settles ----------

  predicate Quiet(s: State) {
    forall sys :: !Ready(s, sys)
  }

  function Linked(s: State): set<Id> { set d | d in s.delegates && s.delegates[d].linked }

  function Pushes(q: seq<Msg>): nat {
    if q == [] then 0 else B(q[0].PushMsg?) + Pushes(q[1..])
  }

  lemma {:induction false} PushesAppend(q: seq<Msg>, m: Msg)
    ensures Pushes(q + [m]) == Pushes(q) + B(m.PushMsg?)
  {
    if q == [] {
      assert q + [m] == [m];
    } else {
      assert (q + [m])[1..] == q[1..] + [m];
      PushesAppend(q[1..], m);
    }
  }

  /** Timers that can still be popped. */
  ghost function Poppable(s: State): nat { |Items(s.tree)| + Pushes(s.queue) }

  /** Times the fd can still wake the poll thread, while time stands still. */
  function Wakes(s: State): nat {
    B(s.proc.Arming? || ((HasPopped(s.proc) || s.proc.Calling? || s.proc.Checking? || s.proc.Rearming?)
      && s.tree.Node?))
    + Pushes(s.queue) + B(s.armed.Some? && !s.poll.Woken?)
  }

  function Messages(s: State): nat { |s.queue| + B(!s.poll.Waiting?) }

  function ProcRank(p: Proc): nat {
    match p
    case Firing(_, _) => 6 case Stopping(_, _, _) => 5 case Calling(_, _, _, _) => 4 case Checking(_) => 3
    case Rearming => 2 case Arming(_, _) => 1 case Idle => 0
  }

  function PollRank(p: Poll): nat {
    match p case Woken => 3 case Disarmed => 2 case Unpolled => 1 case Waiting => 0
  }

  datatype Measure = Measure(linked: nat, poppable: nat, wakes: nat, messages: nat, proc: nat, poll: nat)

  ghost function MeasureOf(s: State): Measure {
    Measure(|Linked(s)|, Poppable(s), Wakes(s), Messages(s), ProcRank(s.proc), PollRank(s.poll))
  }

  predicate Less(a: Measure, b: Measure) {
    || a.linked < b.linked
    || (a.linked == b.linked &&
        (|| a.poppable < b.poppable
         || (a.poppable == b.poppable &&
             (|| a.wakes < b.wakes
              || (a.wakes == b.wakes &&
                  (|| a.messages < b.messages
                   || (a.messages == b.messages &&
                       (a.proc < b.proc || (a.proc == b.proc && a.poll < b.poll)))))))))
  }

  /** Every step of the service, left alone by its clients and by the clock, makes progress. */
  lemma SystemProgresses(s: State, sys: Sys)
    requires Inv(s) && Ready(s, sys) && Safe(s, sys)
    ensures Less(MeasureOf(SysNext(s, sys)), MeasureOf(s))
  {
    match sys
    case MsgTake => {
      hide Inv, SysNext, MeasureOf, Exists;
      match s.queue[0]
      case PushMsg(d) => TakePushProgresses(s, d);
      case RemoveMsg(d) => TakeRemoveProgresses(s, d);
      case ExpireMsg => TakeExpireProgresses(s);
    }
    case MsgArm => { hide Inv, SysNext, MeasureOf; ArmProgresses(s); }
    case MsgRead => { hide Inv, SysNext, MeasureOf; ReadProgresses(s); }
    case MsgStop => { hide Inv, SysNext, MeasureOf; StopProgresses(s); }
    case MsgCheck => { hide Inv, SysNext, MeasureOf; CheckProgresses(s); }
    case MsgCall => { hide Inv, SysNext, MeasureOf; CallProgresses(s); }
    case MsgRearm => { hide Inv, SysNext, MeasureOf; RearmProgresses(s); }
    case _ => { hide Inv, SysNext, MeasureOf; PollProgresses(s, sys); }
  }

  lemma CallProgresses(s: State)
    requires Ready(s, MsgCall) && Safe(s, MsgCall)
    ensures Less(MeasureOf(SysNext(s, MsgCall)), MeasureOf(s))
  {
    hide Items, Linked;
    LinkedSame(s, SysNext(s, MsgCall));
  }

  lemma RearmProgresses(s: State)
    requires Ready(s, MsgRearm)
    ensures Less(MeasureOf(SysNext(s, MsgRearm)), MeasureOf(s))
  {
    hide Items, Linked;
    LinkedSame(s, SysNext(s, MsgRearm));
  }

  lemma PollProgresses(s: State, sys: Sys)
    requires Ready(s, sys) && (sys.PollWake? || sys.PollDisarm? || sys.PollRemove? || sys.PollSend?)
    ensures Less(MeasureOf(SysNext(s, sys)), MeasureOf(s))
  {
    hide Items, Linked;
    LinkedSame(s, SysNext(s, sys));
    if sys.PollSend? { PushesAppend(s.queue, ExpireMsg); }
  }

  lemma TakePushProgresses(s: State, d: Id)
    requires Inv(s) && Ready(s, MsgTake) && Safe(s, MsgTake) && s.queue[0] == PushMsg(d)
    ensures Less(MeasureOf(SysNext(s, MsgTake)), MeasureOf(s))
  {
    hide Items, Heap, Push, LivesOk, LocksOk, ClientsOk, QueueOk, WakeOk;
    EarlierRanks();
    PushAdds(s.tree, TimerOf(s, d), Earlier);
    var s' := SysNext(s, MsgTake);
    assert Linked(s') == Linked(s);
  }

  lemma DeleteKeepsLinked(s: State, d: Id)
    requires d in s.delegates && s.delegates[d].client in s.clients
    ensures Linked(Delete(s, d)) == Linked(s)
  {
  }

  lemma TakeRemoveProgresses(s: State, d: Id)
    requires Inv(s) && Ready(s, MsgTake) && Safe(s, MsgTake) && s.queue[0] == RemoveMsg(d)
    ensures Less(MeasureOf(SysNext(s, MsgTake)), MeasureOf(s))
  {
    hide Items, Heap, Removed, LivesOk, LocksOk, ClientsOk, QueueOk, WakeOk, Linked;
    EarlierRanks();
    var x := TimerOf(s, d);
    RemoveTakesOut(s.tree, x, Earlier);
    TopIsMember(s.tree);
    var s1 := s.(queue := s.queue[1..], tree := Removed(s.tree, x, Earlier));
    LinkedSame(s, s1);
    LinkedSame(s, s1.(proc := Idle));
    DeleteKeepsLinked(s1, d);
    DeleteKeepsLinked(s1.(proc := Idle), d);
    LinkedSame(s, SysNext(s, MsgTake));
  }

  lemma LinkedSame(s: State, s': State)
    requires s'.delegates.Keys == s.delegates.Keys
    requires forall d :: d in s.delegates ==> s'.delegates[d].linked == s.delegates[d].linked
    ensures Linked(s') == Linked(s)
  {
  }

  lemma TopIsMember(t: Tree<Timer>)
    ensures t.Node? ==> t.data in Items(t)
  {
  }

  lemma TakeExpireProgresses(s: State)
    requires Inv(s) && Ready(s, MsgTake) && Safe(s, MsgTake) && s.queue[0] == ExpireMsg
    ensures Less(MeasureOf(SysNext(s, MsgTake)), MeasureOf(s))
  {
    hide Items, Heap, Popped, LivesOk, LocksOk, ClientsOk, QueueOk, WakeOk, Linked;
    LinkedSame(s, SysNext(s, MsgTake));
    if s.tree.Node? { PopTop(s.tree); }
  }

  lemma CheckProgresses(s: State)
    requires Inv(s) && s.proc.Checking?
    ensures Less(MeasureOf(SysNext(s, MsgCheck)), MeasureOf(s))
  {
    hide Items, Heap, Popped, LivesOk, LocksOk, ClientsOk, QueueOk, WakeOk, Linked;
    LinkedSame(s, SysNext(s, MsgCheck));
    if s.tree.Node? { PopTop(s.tree); }
  }

  lemma ArmProgresses(s: State)
    requires Inv(s) && Ready(s, MsgArm) && Safe(s, MsgArm)
    ensures Less(MeasureOf(SysNext(s, MsgArm)), MeasureOf(s))
  {
    hide Items, Heap, LivesOk, LocksOk, ClientsOk, QueueOk, WakeOk, Linked;
    LinkedSame(s, SysNext(s, MsgArm));
  }

  lemma ReadProgresses(s: State)
    requires Ready(s, MsgRead) && Safe(s, MsgRead)
    ensures Less(MeasureOf(SysNext(s, MsgRead)), MeasureOf(s))
  {
    hide Items, Linked;
    LinkedSame(s, SysNext(s, MsgRead));
  }

  lemma StopProgresses(s: State)
    requires Inv(s) && Ready(s, MsgStop) && Safe(s, MsgStop)
    ensures Less(MeasureOf(SysNext(s, MsgStop)), MeasureOf(s))
  {
    hide Items, Heap, LocksOk, LifeOk;
    var c, s' := s.proc.client, SysNext(s, MsgStop);
    if s.clients[c].timer.Some? {
      CurrentIsLinked(s, c);
      assert Linked(s) == Linked(s') + {s.clients[c].timer.value};
    } else {
      assert Linked(s') == Linked(s);
    }
  }

  lemma SystemKeepsGood(s: State, sys: Sys)
    requires Good(s) && Ready(s, sys) && Safe(s, sys)
    ensures Good(SysNext(s, sys)) && (CallSafe(s) ==> CallSafe(SysNext(s, sys)))
  {
    SystemKeepsInv(s, sys);
    SystemKeepsCalls(s, sys);
    hide Inv, CallsOk;
    if sys.MsgRead? {
      ReadCalls(s);
    } else if sys.MsgStop? {
      StopThroughCalls(s);
    } else if CallSafe(s) {
      StaysCallSafe(s, sys);
    }
  }

  lemma StaysCallSafe(s: State, sys: Sys)
    requires Ready(s, sys) && Safe(s, sys) && !sys.MsgRead? && !sys.MsgStop? && CallSafe(s)
    ensures CallSafe(SysNext(s, sys))
  {
    hide Removed, Popped, Push;
  }

  /** Without clients and clock the service cannot run for ever, whichever of its threads goes next. */
  lemma NoEndlessRun(states: nat -> State, taken: nat -> Sys, i: nat)
    requires Good(states(i))
    requires forall j :: i <= j ==>
      Ready(states(j), taken(j)) && Safe(states(j), taken(j)) && states(j + 1) == SysNext(states(j), taken(j))
    ensures false
    decreases MeasureOf(states(i)).linked, MeasureOf(states(i)).poppable, MeasureOf(states(i)).wakes,
      MeasureOf(states(i)).messages, MeasureOf(states(i)).proc, MeasureOf(states(i)).poll
  {
    hide Inv, CallsOk, SysNext, Ready, Safe, MeasureOf;
    assert Ready(states(i), taken(i));
    SystemProgresses(states(i), taken(i));
    SystemKeepsGood(states(i), taken(i));
    NoEndlessRun(states, taken, i + 1);
  }

  /** A run of the service's own threads. */
  predicate Alone(steps: seq<Step>) {
    forall i :: 0 <= i < |steps| ==> steps[i].System?
  }

  /** What the service never changes: the clock, and which timers there are, when they are due and who stopped them. */
  predicate Kept(s: State, s': State) {
    && s'.now == s.now && s'.delegates.Keys == s.delegates.Keys
    && forall d :: d in s.delegates ==>
         && s'.delegates[d].due == s.delegates[d].due
         && s'.delegates[d].stops == s.delegates[d].stops
         && s'.delegates[d].client == s.delegates[d].client
  }

  lemma DeleteKeeps(s: State, d: Id)
    requires d in s.delegates && s.delegates[d].client in s.clients
    ensures Kept(s, Delete(s, d))
  {
  }

  lemma TakeKeeps(s: State)
    requires Ready(s, MsgTake) && Safe(s, MsgTake)
    ensures Kept(s, SysNext(s, MsgTake))
  {
    hide Removed, Popped, Push;
    match s.queue[0]
    case PushMsg(d) =>
    case RemoveMsg(d) => {
      hide Delete;
      var s' := s.(queue := s.queue[1..], tree := Removed(s.tree, TimerOf(s, d), Earlier));
      DeleteKeeps(s', d);
      DeleteKeeps(s'.(proc := Idle), d);
    }
    case ExpireMsg =>
  }

  lemma StopKeeps(s: State, now: int, x: Timer, c: Cid)
    requires Usable(s, c)
    ensures Kept(s, StopThrough(s, now, x, c))
  {
  }

  lemma SystemKeeps(s: State, sys: Sys)
    requires Ready(s, sys) && Safe(s, sys)
    ensures Kept(s, SysNext(s, sys))
  {
    hide Popped, StopThrough, Delete, Usable;
    match sys
    case MsgTake => { hide SysNext; TakeKeeps(s); }
    case MsgStop => StopKeeps(s, s.proc.now, s.proc.timer, s.proc.client);
    case MsgArm =>
      var s' := s.(armed := Some(s.proc.due), proc := Idle);
      if s.proc.del.Some? { DeleteKeeps(s', s.proc.del.value); }
    case _ =>
  }

  lemma {:induction false} AloneKeeps(s: State, steps: seq<Step>, s': State)
    requires Good(s) && Run(s, steps, s') && Alone(steps)
    ensures Kept(s, s')
    decreases |steps|
  {
    hide Inv, CallsOk, SysNext, Ready, Safe;
    if steps != [] {
      assert steps[0].System?;
      SystemKeeps(s, steps[0].sys);
      SystemKeepsGood(s, steps[0].sys);
      AloneKeeps(Next(s, steps[0]), steps[1..], s');
    }
  }

  /** Left alone, the service comes to rest, unless an expire() has a destroyed client in hand. */
  lemma {:induction false} Settles(s: State) returns (steps: seq<Step>, s': State)
    requires Good(s) && CallSafe(s)
    ensures Alone(steps) && Run(s, steps, s') && Quiet(s')
    decreases MeasureOf(s).linked, MeasureOf(s).poppable, MeasureOf(s).wakes, MeasureOf(s).messages, MeasureOf(s).proc,
      MeasureOf(s).poll
  {
    hide Inv, CallsOk, SysNext, Ready, Safe, MeasureOf, CallSafe;
    if Quiet(s) {
      steps, s' := [], s;
    } else {
      var sys :| Ready(s, sys);
      SystemIsSafe(s, sys);
      SystemProgresses(s, sys);
      SystemKeepsGood(s, sys);
      var rest;
      rest, s' := Settles(SysNext(s, sys));
      steps := [System(sys)] + rest;
      assert steps[1..] == rest;
      assert StepSafe(s, steps[0]) && Next(s, steps[0]) == SysNext(s, sys);
    }
  }

  lemma QuietIsIdle(s: State)
    requires Quiet(s)
    ensures s.queue == [] && s.proc.Idle? && s.poll.Waiting?
    ensures s.polled && s.armed.Some? ==> s.now < s.armed.value
  {
    assert !Ready(s, PollWake) && !Ready(s, PollDisarm) && !Ready(s, PollRemove) && !Ready(s, PollSend);
    assert !Ready(s, MsgTake) && !Ready(s, MsgArm) && !Ready(s, MsgRead) && !Ready(s, MsgStop) && !Ready(s, MsgCall)
      && !Ready(s, MsgCheck) && !Ready(s, MsgRearm);
  }

  lemma QuietHeap(s: State, x: Timer)
    requires Inv(s) && Quiet(s) && x in Items(s.tree)
    ensures s.now < s.tree.data.due <= x.due
  {
    QuietIsIdle(s);
    hide LivesOk, LocksOk, ClientsOk, QueueOk, Quiet;
    EarlierRanks();
    TopOutranksAll(s.tree, Earlier);
  }

  /** At rest every running timer waits in the heap and is in the future, and every other one is deleted. */
  lemma AtRest(s: State, d: Id)
    requires Inv(s) && Quiet(s) && d in s.delegates
    ensures s.delegates[d].linked ==> TimerOf(s, d) in Items(s.tree) && s.now < s.delegates[d].due
    ensures !s.delegates[d].linked ==> s.delegates[d].deletes == 1
    ensures s.tree.Node? ==> s.polled && s.armed == Some(s.tree.data.due) && s.now < s.tree.data.due
  {
    QuietIsIdle(s);
    assert LifeOk(s, Pending(s), d) by { hide Items, Heap, LifeOk, Quiet; }
    InQueue(s.queue, PushMsg(d));
    InQueue(s.queue, RemoveMsg(d));
    if TimerOf(s, d) in Items(s.tree) { QuietHeap(s, TimerOf(s, d)); }
  }

  /** Every running timer that is due gets its one callback, and is then deleted, in every run of the
      service to rest, unless its client stops it. */
  lemma DueTimersFire(s: State, steps: seq<Step>, s': State, d: Id)
    requires Good(s) && Run(s, steps, s') && Alone(steps) && Quiet(s')
    requires d in s.delegates && s.delegates[d].linked && s.delegates[d].due <= s.now
    ensures d in s'.delegates && s'.delegates[d].calls == 1 && s'.delegates[d].stops == 0
    ensures s'.delegates[d].deletes == 1
  {
    hide Items, Heap, Quiet, Run, Alone, QueueOk, LocksOk, ClientsOk, WakeOk;
    AloneKeeps(s, steps, s');
    assert LifeOk(s, Pending(s), d);
    RunKeepsGood(s, steps, s');
    assert LifeOk(s', Pending(s'), d);
    AtRest(s', d);
    QuietIsIdle(s');
  }
}
