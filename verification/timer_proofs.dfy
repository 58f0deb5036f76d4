/** What every step of the timer service keeps: one lemma per change of state. */
module TimerProofs {
  import opened HeapModel
  import opened Timers
  import opened LocHeapImpl
  import opened TimerService

  // ---------- The invariant ----------

  function B(b: bool): nat { if b then 1 else 0 }

  function Queued(s: State, m: Msg): nat { multiset(s.queue)[m] }

  ghost function InHeap(s: State, d: Id): nat
    requires d in s.delegates
  {
    Items(s.tree)[TimerOf(s, d)]
  }

  /** The message thread is about to end a timer that it has popped. */
  predicate HasPopped(p: Proc) { p.Firing? || p.Stopping? }

  predicate IsFiring(s: State, d: Id) { HasPopped(s.proc) && s.proc.timer.id == d }

  /** The delegate whose deletion the message thread still owes. */
  function Pending(s: State): Option<Id> { if s.proc.Arming? then s.proc.del else None }

  /** The conservation law of one delegate D, of which `push` Push messages and `remove` Remove messages
      are queued, which is in the heap `heap` times, popped and about to fire, or about to be deleted. */
  predicate Life(D: Delegate, push: nat, remove: nat, heap: nat, firing: bool, pending: bool) {
    && D.fires + D.stops == B(!D.linked)                 // started once, ended at most once
    && remove + B(pending) + D.deletes == B(!D.linked)   // each end leads to one deletion
    && push + heap + B(firing) <= 1                      // it is in one place at most
    && (D.linked ==> push + heap + B(firing) == 1)       // and not lost while it runs
    && (D.deletes + B(pending) > 0 ==> push + heap + B(firing) == 0)
  }

  ghost predicate LifeOk(s: State, pend: Option<Id>, d: Id)
    requires d in s.delegates
  {
    Life(s.delegates[d], Queued(s, PushMsg(d)), Queued(s, RemoveMsg(d)), InHeap(s, d), IsFiring(s, d), pend == Some(d))
  }

  ghost predicate LivesOk(s: State, pend: Option<Id>) {
    && (pend.Some? ==> pend.value in s.delegates)
    && forall d :: d in s.delegates ==> LifeOk(s, pend, d)
  }

  predicate Names(s: State, x: Timer) { x.id in s.delegates && s.delegates[x.id].due == x.due }

  ghost predicate TreeOk(s: State) {
    && Heap(s.tree, Earlier)
    && (forall x :: x in Items(s.tree) ==> Names(s, x))
    && (HasPopped(s.proc) ==> Names(s, s.proc.timer))
  }

  /** Messages name delegates, and no Remove is ahead of the Push of the same delegate. */
  predicate QueueOk(s: State) {
    && (forall i :: 0 <= i < |s.queue| && !s.queue[i].ExpireMsg? ==> s.queue[i].d in s.delegates)
    && (forall i, j :: 0 <= i < j < |s.queue| && s.queue[i].RemoveMsg? && s.queue[j].PushMsg? ==>
        s.queue[i].d != s.queue[j].d)
  }

  /** mTimer and mClient point to each other. */
  predicate ClientsOk(s: State) {
    && (forall d :: d in s.delegates ==> s.delegates[d].client in s.clients)
    && (forall d :: d in s.delegates && s.delegates[d].linked ==>
          s.clients[s.delegates[d].client].timer == Some(d) && s.clients[s.delegates[d].client].alive)
    && (forall c :: c in s.clients && s.clients[c].timer.Some? ==>
          && s.clients[c].timer.value in s.delegates
          && s.delegates[s.clients[c].timer.value].linked && s.delegates[s.clients[c].timer.value].client == c)
  }

  /** The undeleted delegates of client c. */
  function Sharers(delegates: map<Id, Delegate>, c: Cid): set<Id> {
    set d | d in delegates && delegates[d].client == c && delegates[d].deletes == 0
  }

  /** The lock's count is the living client plus its undeleted delegates. */
  predicate LocksOk(s: State) {
    forall c :: c in s.clients ==> s.clients[c].lock == B(s.clients[c].alive) + |Sharers(s.delegates, c)|
  }

  /** Whatever becomes due, the poll thread has been or will be woken for. */
  predicate Watched(s: State) {
    s.polled || !s.poll.Waiting? || ExpireMsg in s.queue
  }

  /** No wakeup is lost: with a timer in the heap, the fd is armed for the top's time and polled, or an Expire
      message is queued, on its way from the poll thread, or being processed. */
  predicate WakeOk(s: State) {
    && (s.tree.Node? && s.proc.Idle? ==>
          (s.polled && s.armed == Some(s.tree.data.due)) || !s.poll.Waiting? || ExpireMsg in s.queue)
    && (s.proc.Arming? ==> s.tree.Node? && s.proc.due == s.tree.data.due && Watched(s))
  }

  ghost predicate Core(s: State, pend: Option<Id>) {
    TreeOk(s) && QueueOk(s) && LivesOk(s, pend) && ClientsOk(s) && LocksOk(s)
  }

  ghost predicate Inv(s: State) { Core(s, Pending(s)) && WakeOk(s) }

  predicate IsCalling(s: State, d: Id) { s.proc.Calling? && s.proc.d == d }

  /** expire() holds a pointer to the client. */
  predicate HasClient(p: Proc) { p.Stopping? || p.Calling? }

  /** Every end by expire has led to one callback, or is about to. The client in hand is that of the popped timer, and
      the timer it ran when it was stopped is the popped one or else that had been ended before. */
  predicate CallsOk(s: State) {
    && (forall d :: d in s.delegates ==> s.delegates[d].calls + B(IsCalling(s, d)) == s.delegates[d].fires)
    && (s.proc.Stopping? ==>
          && s.proc.client in s.clients && s.proc.timer.id in s.delegates
          && s.delegates[s.proc.timer.id].client == s.proc.client && s.delegates[s.proc.timer.id].fires == 0)
    && (s.proc.Calling? ==>
          && s.proc.client in s.clients && s.proc.d in s.delegates && s.proc.popped in s.delegates
          && s.delegates[s.proc.d].client == s.delegates[s.proc.popped].client == s.proc.client
          && !s.delegates[s.proc.popped].linked
              && (s.proc.d == s.proc.popped <==> s.delegates[s.proc.popped].fires > 0))
  }

  /** The client in hand has not been destroyed. */
  predicate CallSafe(s: State) { HasClient(s.proc) ==> Runs(s, s.proc.client) }

  lemma InitHolds(now: int)
    ensures Inv(Init(now)) && CallsOk(Init(now)) && CallSafe(Init(now))
  {
  }

  // ---------- Queues ----------

  lemma QueueGains(q: seq<Msg>, m: Msg)
    ensures multiset(q + [m]) == multiset(q) + multiset{m}
  {
  }

  lemma QueueLoses(q: seq<Msg>)
    requires q != []
    ensures multiset(q) == multiset(q[1..]) + multiset{q[0]}
  {
    assert q == [q[0]] + q[1..];
  }

  lemma InQueue(q: seq<Msg>, m: Msg)
    ensures m in q <==> multiset(q)[m] > 0
  {
  }

  // ---------- The lock's count ----------

  lemma LocksNew(s: State, c: Cid, d: Id, due: int, s': State)
    requires ClientsOk(s) && LocksOk(s) && c in s.clients && d !in s.delegates
    requires s'.delegates == s.delegates[d := Delegate(c, due, true, 0, 0, 0, 0)]
    requires s'.clients == s.clients[c := s.clients[c].(timer := Some(d), lock := s.clients[c].lock + 1)]
    ensures LocksOk(s')
  {
    forall e | e in s'.clients ensures s'.clients[e].lock == B(s'.clients[e].alive) + |Sharers(s'.delegates, e)| {
      NewSharer(s.delegates, d, s'.delegates[d], e);
      hide Sharers;
    }
  }

  lemma NewSharer(delegates: map<Id, Delegate>, d: Id, D: Delegate, e: Cid)
    requires d !in delegates && D.deletes == 0
    ensures |Sharers(delegates[d := D], e)| == |Sharers(delegates, e)| + if D.client == e then 1 else 0
  {
    assert Sharers(delegates[d := D], e) == Sharers(delegates, e) + if D.client == e then {d} else {};
  }

  lemma LocksDelete(s: State, d: Id)
    requires ClientsOk(s) && LocksOk(s) && d in s.delegates && s.delegates[d].deletes == 0
    ensures LocksOk(Delete(s, d))
  {
    var s' := Delete(s, d);
    forall e | e in s'.clients ensures s'.clients[e].lock == B(s'.clients[e].alive) + |Sharers(s'.delegates, e)| {
      LostSharer(s.delegates, d, s'.delegates[d], e);
      hide Sharers, ClientsOk;
    }
  }

  lemma LostSharer(delegates: map<Id, Delegate>, d: Id, D: Delegate, e: Cid)
    requires d in delegates && delegates[d].deletes == 0 && D.deletes > 0 && D.client == delegates[d].client
    ensures |Sharers(delegates[d := D], e)| == |Sharers(delegates, e)| - if D.client == e then 1 else 0
  {
    if D.client == e {
      assert Sharers(delegates, e) == Sharers(delegates[d := D], e) + {d};
    } else {
      assert Sharers(delegates, e) == Sharers(delegates[d := D], e);
    }
  }

  /** Steps that create and delete nothing leave every delegate's share. */
  lemma LocksSame(s: State, s': State)
    requires LocksOk(s) && s'.delegates.Keys == s.delegates.Keys && s'.clients.Keys == s.clients.Keys
    requires forall d :: d in s.delegates ==>
      s'.delegates[d].client == s.delegates[d].client && s'.delegates[d].deletes == s.delegates[d].deletes
    requires forall c :: c in s.clients ==>
      s'.clients[c].lock - B(s'.clients[c].alive) == s.clients[c].lock - B(s.clients[c].alive)
    ensures LocksOk(s')
  {
    forall c | c in s'.clients ensures s'.clients[c].lock == B(s'.clients[c].alive) + |Sharers(s'.delegates, c)| {
      assert Sharers(s'.delegates, c) == Sharers(s.delegates, c);
    }
  }

  /** An undeleted delegate, like a living client, keeps its lock alive. */
  lemma LockHeld(s: State, d: Id)
    requires ClientsOk(s) && LocksOk(s) && d in s.delegates && s.delegates[d].deletes == 0
    ensures s.clients[s.delegates[d].client].lock > 0
  {
    assert d in Sharers(s.delegates, s.delegates[d].client);
  }

  // ---------- The queue's order ----------

  lemma QueueAppend(s: State, m: Msg, s': State)
    requires QueueOk(s) && s'.queue == s.queue + [m] && s.delegates.Keys <= s'.delegates.Keys
    requires !m.ExpireMsg? ==> m.d in s'.delegates
    requires m.PushMsg? ==> m.d !in s.delegates
    ensures QueueOk(s')
  {
  }

  lemma QueueTail(s: State, s': State)
    requires QueueOk(s) && s.queue != [] && s'.queue == s.queue[1..] && s'.delegates.Keys == s.delegates.Keys
    ensures QueueOk(s')
  {
  }

  lemma QueueSame(s: State, s': State)
    requires QueueOk(s) && s'.queue == s.queue && s'.delegates.Keys == s.delegates.Keys
    ensures QueueOk(s')
  {
  }

  lemma NothingQueued(s: State, d: Id)
    requires QueueOk(s) && d !in s.delegates
    ensures Queued(s, PushMsg(d)) == 0 && Queued(s, RemoveMsg(d)) == 0
  {
    InQueue(s.queue, PushMsg(d));
    InQueue(s.queue, RemoveMsg(d));
  }

  lemma NoPushAfterRemove(s: State, d: Id)
    requires QueueOk(s) && s.queue != [] && s.queue[0] == RemoveMsg(d)
    ensures Queued(s, PushMsg(d)) == 0
  {
    InQueue(s.queue, PushMsg(d));
  }

  // ---------- The heap ----------

  lemma TreeSame(s: State, s': State)
    requires TreeOk(s) && s'.tree == s.tree && s'.proc == s.proc && s.delegates.Keys <= s'.delegates.Keys
    requires forall d :: d in s.delegates ==> s'.delegates[d].due == s.delegates[d].due
    ensures TreeOk(s')
  {
    hide Heap, Items;
  }

  lemma TreePush(s: State, d: Id, s': State)
    requires TreeOk(s) && d in s.delegates && s'.tree == Push(s.tree, TimerOf(s, d), Earlier)
    requires s'.delegates == s.delegates && !HasPopped(s'.proc)
    ensures TreeOk(s') && Items(s'.tree) == Items(s.tree) + multiset{TimerOf(s, d)}
  {
    hide Heap, Items, Push;
    EarlierRanks();
    PushAdds(s.tree, TimerOf(s, d), Earlier);
    assert forall y :: y in Items(s.tree) + multiset{TimerOf(s, d)} ==> y in Items(s.tree) || y == TimerOf(s, d);
  }

  lemma TreeRemove(s: State, d: Id, s': State)
    requires TreeOk(s) && d in s.delegates && s'.tree == Removed(s.tree, TimerOf(s, d), Earlier)
    requires s'.delegates == s.delegates && !HasPopped(s'.proc)
    ensures TreeOk(s') && Items(s'.tree) == Items(s.tree) - multiset{TimerOf(s, d)}
  {
    hide Heap, Items, Removed;
    EarlierRanks();
    RemoveTakesOut(s.tree, TimerOf(s, d), Earlier);
    TakenOut(Items(s.tree), TimerOf(s, d), Items(s'.tree));
  }

  lemma TakenOut(all: multiset<Timer>, x: Timer, rest: multiset<Timer>)
    requires if x in all then all == rest + multiset{x} else rest == all
    ensures rest == all - multiset{x} && forall y :: y in rest ==> y in all
  {
  }

  lemma TreePop(s: State, s': State)
    requires TreeOk(s) && s.tree.Node? && s'.tree == Popped(s.tree, Earlier)
    requires s'.delegates == s.delegates && s'.proc.Firing? && s'.proc.timer == s.tree.data
    ensures TreeOk(s') && Items(s.tree) == Items(s'.tree) + multiset{s.tree.data}
  {
    hide Heap, Items, Popped;
    PopTop(s.tree);
    assert s.tree.data in Items(s.tree);
    TakenOut(Items(s.tree), s.tree.data, Items(s'.tree));
  }

  // ---------- Client threads ----------

  lemma StartLife(s: State, d: Id, D: Delegate, s': State, e: Id)
    requires TreeOk(s) && QueueOk(s) && LivesOk(s, Pending(s)) && d !in s.delegates && e in s'.delegates
    requires D.linked && D.fires == D.stops == D.deletes == 0
    requires s'.delegates == s.delegates[d := D] && s'.queue == s.queue + [PushMsg(d)]
    requires s'.tree == s.tree && s'.proc == s.proc
    ensures LifeOk(s', Pending(s'), e)
  {
    hide Heap, Items;
    QueueGains(s.queue, PushMsg(d));
    if e == d {
      NothingQueued(s, d);
    } else {
      hide QueueOk, TreeOk;
      assert LifeOk(s, Pending(s), e);
    }
  }

  lemma StartCore(s: State, c: Cid, d: Id, due: int, s': State)
    requires Core(s, Pending(s)) && c in s.clients && s.clients[c].alive && s.clients[c].timer.None?
    requires d !in s.delegates
    requires s' == Next(s, Start(c, d, due)) && s.clients[c].lock > 0
    ensures Core(s', Pending(s'))
  {
    hide Heap, Items, LifeOk, Sharers;
    var D := Delegate(c, due, true, 0, 0, 0, 0);
    TreeSame(s, s');
    QueueAppend(s, PushMsg(d), s');
    LocksNew(s, c, d, due, s');
    forall e | e in s'.delegates ensures LifeOk(s', Pending(s'), e) {
      StartLife(s, d, D, s', e);
    }
  }

  /** What stopping timer d of client c changes, whoever stops it and is counted for it. */
  predicate Stopped(s: State, c: Cid, d: Id, s': State) {
    && d in s.delegates && d in s'.delegates && c in s.clients
    && s.delegates[d].linked && s.clients[c].timer == Some(d)
    && (var D := s.delegates[d].(linked := false);
        s'.delegates[d] == D.(stops := D.stops + 1) || s'.delegates[d] == D.(fires := D.fires + 1))
    && s' == s.(delegates := s.delegates[d := s'.delegates[d]],
                clients := s.clients[c := s.clients[c].(timer := None)],
                queue := s.queue + [RemoveMsg(d)])
  }

  lemma StopLife(s: State, c: Cid, d: Id, s': State, e: Id)
    requires LivesOk(s, Pending(s)) && Stopped(s, c, d, s') && e in s.delegates
    ensures LifeOk(s', Pending(s'), e)
  {
    hide Items;
    QueueGains(s.queue, RemoveMsg(d));
    assert LifeOk(s, Pending(s), e);
  }

  lemma StopClients(s: State, c: Cid, d: Id, s': State)
    requires ClientsOk(s) && Stopped(s, c, d, s')
    ensures ClientsOk(s')
  {
  }

  lemma StopCore(s: State, c: Cid, d: Id, s': State)
    requires Core(s, Pending(s)) && Stopped(s, c, d, s')
    ensures Core(s', Pending(s'))
  {
    hide TreeOk, QueueOk, ClientsOk, LocksOk, LifeOk;
    TreeSame(s, s');
    QueueAppend(s, RemoveMsg(d), s');
    StopClients(s, c, d, s');
    LocksSame(s, s');
    forall e | e in s'.delegates ensures LifeOk(s', Pending(s'), e) {
      StopLife(s, c, d, s', e);
    }
  }

  // ---------- The message thread ----------

  lemma TakePushLife(s: State, d: Id, s': State, e: Id)
    requires LivesOk(s, None) && s.queue != [] && s.queue[0] == PushMsg(d) && d in s.delegates && e in s.delegates
    requires !HasPopped(s.proc) && !HasPopped(s'.proc)
    requires s'.queue == s.queue[1..] && s'.delegates == s.delegates
    requires Items(s'.tree) == Items(s.tree) + multiset{TimerOf(s, d)}
    ensures LifeOk(s', None, e)
  {
    hide Items;
    QueueLoses(s.queue);
    assert LifeOk(s, None, e);
  }

  lemma TakePushCore(s: State, d: Id, s': State)
    requires Core(s, None) && s.queue != [] && s.queue[0] == PushMsg(d) && d in s.delegates
    requires !HasPopped(s.proc) && !HasPopped(s'.proc)
    requires s'.queue == s.queue[1..] && s'.tree == Push(s.tree, TimerOf(s, d), Earlier)
    requires s'.delegates == s.delegates && s'.clients == s.clients
    ensures Core(s', None)
  {
    hide Heap, Items, Push, LifeOk, Sharers;
    QueueTail(s, s');
    TreePush(s, d, s');
    LocksSame(s, s');
    forall e | e in s'.delegates ensures LifeOk(s', None, e) {
      TakePushLife(s, d, s', e);
    }
  }

  lemma TakeRemoveLife(s: State, d: Id, s': State, e: Id)
    requires QueueOk(s) && LivesOk(s, None) && s.queue != [] && s.queue[0] == RemoveMsg(d) && d in s.delegates
    requires e in s.delegates
    requires !HasPopped(s.proc) && !HasPopped(s'.proc)
    requires s'.queue == s.queue[1..] && s'.delegates == s.delegates
    requires Items(s'.tree) == Items(s.tree) - multiset{TimerOf(s, d)}
    ensures LifeOk(s', Some(d), e)
  {
    hide Items;
    QueueLoses(s.queue);
    NoPushAfterRemove(s, d);
    hide QueueOk;
    assert LifeOk(s, None, e);
  }

  lemma TakeRemoveCore(s: State, d: Id, s': State)
    requires Core(s, None) && s.queue != [] && s.queue[0] == RemoveMsg(d) && d in s.delegates
    requires !HasPopped(s.proc) && !HasPopped(s'.proc)
    requires s'.queue == s.queue[1..] && s'.tree == Removed(s.tree, TimerOf(s, d), Earlier)
    requires s'.delegates == s.delegates && s'.clients == s.clients
    ensures Core(s', Some(d))
  {
    hide Heap, Items, Removed, LifeOk, Sharers;
    QueueTail(s, s');
    TreeRemove(s, d, s');
    LocksSame(s, s');
    forall e | e in s'.delegates ensures LifeOk(s', Some(d), e) {
      TakeRemoveLife(s, d, s', e);
    }
  }

  lemma DeleteLife(s: State, d: Id, s': State, e: Id)
    requires LivesOk(s, Some(d)) && e in s.delegates
    requires s'.delegates == s.delegates[d := s.delegates[d].(deletes := s.delegates[d].deletes + 1)]
    requires s'.tree == s.tree && s'.queue == s.queue && s'.proc == s.proc
    ensures LifeOk(s', None, e)
  {
    hide Items;
    assert LifeOk(s, Some(d), e);
  }

  lemma PendingExists(s: State, d: Id)
    requires LivesOk(s, Some(d)) && ClientsOk(s) && LocksOk(s)
    ensures Exists(s, d)
  {
    hide Items, Sharers;
    assert LifeOk(s, Some(d), d);
    LockHeld(s, d);
  }

  lemma DeleteClients(s: State, d: Id)
    requires ClientsOk(s) && d in s.delegates && s.delegates[d].client in s.clients
    ensures ClientsOk(Delete(s, d))
  {
  }

  /** Deleting the pending delegate: it exists, and it is in no other place any more. */
  lemma DeleteCore(s: State, d: Id)
    requires Core(s, Some(d))
    ensures Exists(s, d) && Core(Delete(s, d), None)
  {
    hide Heap, Items, LifeOk, LocksOk, ClientsOk, QueueOk, TreeOk;
    PendingExists(s, d);
    LocksDelete(s, d);
    DeleteClients(s, d);
    var s' := Delete(s, d);
    TreeSame(s, s');
    QueueSame(s, s');
    forall e | e in s'.delegates ensures LifeOk(s', None, e) {
      DeleteLife(s, d, s', e);
    }
  }

  lemma TakeExpireLife(s: State, s': State, e: Id)
    requires LivesOk(s, None) && s.queue != [] && s.queue[0] == ExpireMsg && e in s.delegates
    requires s'.queue == s.queue[1..] && s'.delegates == s.delegates && s'.tree == s.tree && s'.proc == s.proc
    ensures LifeOk(s', None, e)
  {
    hide Items;
    QueueLoses(s.queue);
    assert LifeOk(s, None, e);
  }

  lemma TakeExpireCore(s: State, s': State)
    requires Core(s, None) && s.queue != [] && s.queue[0] == ExpireMsg
    requires s' == s.(queue := s.queue[1..])
    ensures Core(s', None)
  {
    hide Heap, Items, LifeOk, Sharers;
    QueueTail(s, s');
    forall e | e in s'.delegates ensures LifeOk(s', None, e) {
      TakeExpireLife(s, s', e);
    }
  }

  lemma SendExpireLife(s: State, s': State, e: Id)
    requires LivesOk(s, Pending(s)) && e in s.delegates
    requires s'.queue == s.queue + [ExpireMsg] && s'.delegates == s.delegates && s'.tree == s.tree && s'.proc == s.proc
    ensures LifeOk(s', Pending(s'), e)
  {
    hide Items;
    QueueGains(s.queue, ExpireMsg);
    assert LifeOk(s, Pending(s), e);
  }

  lemma SendExpireCore(s: State, s': State)
    requires Core(s, Pending(s))
    requires s' == s.(queue := s.queue + [ExpireMsg], poll := s'.poll)
    ensures Core(s', Pending(s'))
  {
    hide Heap, Items, LifeOk, Sharers;
    QueueAppend(s, ExpireMsg, s');
    forall e | e in s'.delegates ensures LifeOk(s', Pending(s'), e) {
      SendExpireLife(s, s', e);
    }
  }

  lemma PopLife(s: State, now: int, s': State, e: Id)
    requires LivesOk(s, None) && !HasPopped(s.proc) && s.tree.Node? && Names(s, s.tree.data) && e in s.delegates
    requires s'.delegates == s.delegates && s'.queue == s.queue && s'.proc == Firing(now, s.tree.data)
    requires Items(s.tree) == Items(s'.tree) + multiset{s.tree.data}
    ensures LifeOk(s', None, e)
  {
    hide Items;
    assert LifeOk(s, None, e);
  }

  lemma PopCore(s: State, now: int)
    requires Core(s, None) && !HasPopped(s.proc) && s.tree.Node?
    ensures Core(PopNext(s, now), None)
  {
    hide Heap, Items, Popped, LifeOk, Sharers;
    var s' := PopNext(s, now);
    TreePop(s, s');
    assert s.tree.data in Items(s.tree);
    forall e | e in s'.delegates ensures LifeOk(s', None, e) {
      PopLife(s, now, s', e);
    }
  }

  lemma FiredLife(s: State, s': State, e: Id)
    requires LivesOk(s, None) && HasPopped(s.proc) && s.proc.timer.id in s.delegates
    requires !s.delegates[s.proc.timer.id].linked
    requires s' == s.(proc := s'.proc) && !HasPopped(s'.proc) && e in s.delegates
    ensures LifeOk(s', None, e)
  {
    hide Items;
    assert LifeOk(s, None, e);
  }

  /** Once its client has been told, the popped timer needs no further place. */
  lemma FiredCore(s: State, s': State)
    requires Core(s, None) && HasPopped(s.proc) && !s.delegates[s.proc.timer.id].linked
    requires s' == s.(proc := s'.proc) && !HasPopped(s'.proc)
    ensures Core(s', None)
  {
    hide Heap, Items, LifeOk, Sharers;
    forall e | e in s'.delegates ensures LifeOk(s', None, e) {
      FiredLife(s, s', e);
    }
  }

  predicate SamePopped(p: Proc, p': Proc) { HasPopped(p) == HasPopped(p') && (HasPopped(p) ==> p'.timer == p.timer) }

  lemma LifeElsewhere(s: State, s': State, pend: Option<Id>, e: Id)
    requires LivesOk(s, pend) && e in s.delegates
    requires s'.tree == s.tree && s'.queue == s.queue && s'.delegates == s.delegates
    requires s'.proc == s.proc || SamePopped(s.proc, s'.proc)
    ensures LifeOk(s', pend, e)
  {
    hide Items;
    assert LifeOk(s, pend, e);
  }

  /** Everything but the wakeup is independent of the poll thread, the kernel and the message thread's position. */
  lemma CoreElsewhere(s: State, s': State, pend: Option<Id>)
    requires Core(s, pend)
    requires s'.tree == s.tree && s'.queue == s.queue && s'.delegates == s.delegates && s'.clients == s.clients
    requires s'.proc == s.proc || SamePopped(s.proc, s'.proc)
    ensures Core(s', pend)
  {
    hide Heap, Items, LifeOk, Sharers;
    forall e | e in s'.delegates ensures LifeOk(s', pend, e) {
      LifeElsewhere(s, s', pend, e);
    }
  }

  // ---------- Every step keeps the invariant ----------

  lemma QueueHead(q: seq<Msg>, m: Msg)
    requires q != [] && q[0] != m && m in q
    ensures m in q[1..]
  {
    assert q == [q[0]] + q[1..];
  }

  /** updateSoonestTime(NULL), with del still to be deleted. */
  lemma SoonestInv(s: State, del: Option<Id>)
    requires Core(s, del) && !HasPopped(s.proc)
    ensures DelOk(s, del) && Inv(Soonest(s, del))
  {
    hide Core;
    var s' := s.(proc := Idle);
    CoreElsewhere(s, s', del);
    CoreElsewhere(s, Soonest0(s, del), del);
    if del.Some? {
      DeleteCore(s, del.value);
      DeleteCore(s', del.value);
    }
  }

  function Soonest0(s: State, del: Option<Id>): State {
    if s.tree.Node? then s.(polled := true, proc := Arming(s.tree.data.due, del)) else s.(proc := Idle)
  }

  lemma QueuedExists(s: State, m: Msg)
    requires Core(s, Pending(s)) && m in s.queue
    ensures MsgOk(s, m)
  {
    hide Items, Heap, Sharers;
    if !m.ExpireMsg? {
      InQueue(s.queue, m);
      assert LifeOk(s, Pending(s), m.d);
      LockHeld(s, m.d);
    }
  }

  lemma FiringExists(s: State)
    requires Core(s, Pending(s)) && HasPopped(s.proc)
    ensures Exists(s, s.proc.timer.id)
  {
    hide Items, Heap, Sharers;
    var d := s.proc.timer.id;
    assert LifeOk(s, Pending(s), d);
    LockHeld(s, d);
  }

  lemma ClientUsable(s: State, c: Cid)
    requires Core(s, Pending(s)) && Runs(s, c)
    ensures Usable(s, c)
  {
    hide Items, Heap, Sharers;
    if s.clients[c].timer.Some? {
      var d := s.clients[c].timer.value;
      assert LifeOk(s, Pending(s), d);
      LockHeld(s, d);
    }
  }

  lemma ClientLockHeld(s: State, c: Cid)
    requires Core(s, Pending(s)) && Runs(s, c)
    ensures s.clients[c].lock > 0
  {
    hide Core;
    ClientUsable(s, c);
  }

  /** No ready step of the service but stop() and callback can touch a deleted delegate, a destroyed client or a
      freed lock. */
  lemma SystemIsSafe(s: State, sys: Sys)
    requires Inv(s) && Ready(s, sys) && (sys.MsgStop? || sys.MsgCall? ==> CallSafe(s))
    ensures Safe(s, sys)
  {
    hide Core, Exists, Usable, MsgOk;
    match sys
    case MsgTake => QueuedExists(s, s.queue[0]);
    case MsgArm => if s.proc.del.Some? { PendingIsSafe(s, s.proc.del.value); }
    case MsgRead => FiringExists(s);
    case MsgStop => ClientUsable(s, s.proc.client);
    case _ =>
  }

  lemma PendingIsSafe(s: State, d: Id)
    requires Core(s, Some(d))
    ensures Exists(s, d)
  {
    hide Exists;
    PendingExists(s, d);
  }

  lemma TakePushInv(s: State, d: Id)
    requires Inv(s) && Ready(s, MsgTake) && Safe(s, MsgTake) && s.queue[0] == PushMsg(d)
    ensures Inv(SysNext(s, MsgTake))
  {
    hide Core, Push, Heap, Items;
    var s' := s.(queue := s.queue[1..], tree := Push(s.tree, TimerOf(s, d), Earlier));
    TakePushCore(s, d, s');
    PushTop(s, d);
    if s.tree.Node? && s'.tree.data == s.tree.data {
      if ExpireMsg in s.queue { QueueHead(s.queue, ExpireMsg); }
    } else {
      SoonestInv(s', None);
    }
  }

  lemma PushTop(s: State, d: Id)
    requires Core(s, Pending(s)) && d in s.delegates
    ensures var t := Push(s.tree, TimerOf(s, d), Earlier);
      t.Node? && (s.tree.Node? ==> t.data == s.tree.data || Earlier(t.data, s.tree.data))
  {
    EarlierRanks();
    PushAdds(s.tree, TimerOf(s, d), Earlier);
  }

  lemma RemoveTop(t: Tree<Timer>, x: Timer)
    requires t.Node? && t.data != x
    ensures var t' := Removed(t, x, Earlier); t'.Node? && t'.data == t.data
  {
  }

  lemma RemovedFromNil(x: Timer)
    ensures Removed(Nil, x, Earlier) == Nil
  {
  }

  lemma TakeRemoveInv(s: State, d: Id)
    requires Inv(s) && Ready(s, MsgTake) && Safe(s, MsgTake) && s.queue[0] == RemoveMsg(d)
    ensures Inv(SysNext(s, MsgTake))
  {
    hide Core, Removed, Heap, Items;
    var x := TimerOf(s, d);
    var s' := s.(queue := s.queue[1..], tree := Removed(s.tree, x, Earlier));
    TakeRemoveCore(s, d, s');
    if s.tree.Node? && s.tree.data == x {
      SoonestInv(s', Some(d));
    } else {
      DeleteCore(s', d);
      if s.tree.Node? { RemoveTop(s.tree, x); } else { RemovedFromNil(x); }
      if ExpireMsg in s.queue { QueueHead(s.queue, ExpireMsg); }
    }
  }

  lemma TakeExpireInv(s: State)
    requires Inv(s) && Ready(s, MsgTake) && Safe(s, MsgTake) && s.queue[0] == ExpireMsg
    ensures Inv(SysNext(s, MsgTake))
  {
    hide Core, Popped, Heap, Items;
    var s' := s.(queue := s.queue[1..]);
    TakeExpireCore(s, s');
    if s.tree.Node? { PopCore(s', s.now); } else { CoreElsewhere(s', s'.(proc := Rearming), None); }
  }

  lemma ArmInv(s: State)
    requires Inv(s) && Ready(s, MsgArm) && Safe(s, MsgArm)
    ensures Inv(SysNext(s, MsgArm))
  {
    hide Core, Heap, Items;
    var s' := s.(armed := Some(s.proc.due), proc := Idle);
    CoreElsewhere(s, s', s.proc.del);
    if s.proc.del.Some? { DeleteCore(s', s.proc.del.value); }
  }

  lemma ReadInv(s: State)
    requires Inv(s) && Ready(s, MsgRead) && Safe(s, MsgRead)
    ensures Inv(SysNext(s, MsgRead))
  {
    hide Core, Heap, Items;
    if s.delegates[s.proc.timer.id].linked {
      CoreElsewhere(s, SysNext(s, MsgRead), None);
    } else {
      FiredCore(s, SysNext(s, MsgRead));
    }
  }

  lemma StopThroughInv(s: State)
    requires Inv(s) && CallsOk(s) && Ready(s, MsgStop) && Safe(s, MsgStop)
    ensures Inv(SysNext(s, MsgStop))
  {
    hide Core, Heap, Items;
    var c, x := s.proc.client, s.proc.timer.id;
    RunsOneTimer(s, c);
    if s.clients[c].timer.Some? {
      var d := s.clients[c].timer.value;
      var D := s.delegates[d].(linked := false);
      var s1 := s.(delegates := s.delegates[d := D.(fires := D.fires + 1)],
                   clients := s.clients[c := s.clients[c].(timer := None)],
                   queue := s.queue + [RemoveMsg(d)]);
      StopCore(s, c, d, s1);
      FiredCore(s1, s1.(proc := Calling(s.proc.now, c, d, x)));
      assert SysNext(s, MsgStop) == s1.(proc := Calling(s.proc.now, c, d, x));
    } else {
      FiredCore(s, s.(proc := Checking(s.proc.now)));
    }
  }

  /** A client runs the timer it says, and no other one. */
  lemma RunsOneTimer(s: State, c: Cid)
    requires Core(s, Pending(s)) && c in s.clients
    ensures forall d :: d in s.delegates && s.delegates[d].client == c ==>
      (s.delegates[d].linked <==> s.clients[c].timer == Some(d))
    ensures s.clients[c].timer.Some? ==>
      s.clients[c].timer.value in s.delegates && s.delegates[s.clients[c].timer.value].client == c
  {
    hide Heap, Items, Sharers, LifeOk;
  }

  lemma CalledLife(s: State, s': State, d: Id, e: Id)
    requires LivesOk(s, None) && s.proc.Calling? && !HasPopped(s'.proc) && d in s.delegates && e in s.delegates
    requires s'.tree == s.tree && s'.queue == s.queue
    requires s'.delegates == s.delegates[d := s.delegates[d].(calls := s.delegates[d].calls + 1)]
    ensures LifeOk(s', None, e)
  {
    hide Items;
    assert LifeOk(s, None, e);
  }

  lemma CalledParts(s: State, s': State, d: Id)
    requires TreeOk(s) && ClientsOk(s) && s.proc.Calling? && !HasPopped(s'.proc) && d in s.delegates
    requires s'.tree == s.tree && s'.clients == s.clients
    requires s'.delegates == s.delegates[d := s.delegates[d].(calls := s.delegates[d].calls + 1)]
    ensures TreeOk(s') && ClientsOk(s')
  {
    hide Heap, Items;
  }

  lemma CallInv(s: State)
    requires Inv(s) && CallsOk(s) && Ready(s, MsgCall) && Safe(s, MsgCall)
    ensures Inv(SysNext(s, MsgCall))
  {
    hide TreeOk, ClientsOk, QueueOk, LocksOk, LifeOk;
    var s' := SysNext(s, MsgCall);
    CalledParts(s, s', s.proc.d);
    QueueSame(s, s');
    LocksSame(s, s');
    forall e | e in s'.delegates ensures LifeOk(s', None, e) {
      CalledLife(s, s', s.proc.d, e);
    }
  }

  lemma CheckInv(s: State)
    requires Inv(s) && s.proc.Checking?
    ensures Inv(SysNext(s, MsgCheck))
  {
    hide Core, Heap, Items, Popped;
    if s.tree.Node? && s.tree.data.due <= s.proc.now { PopCore(s, s.proc.now); }
    else { CoreElsewhere(s, s.(proc := Rearming), None); }
  }

  lemma PollInv(s: State, sys: Sys)
    requires Inv(s) && Ready(s, sys) && (sys.PollWake? || sys.PollDisarm? || sys.PollRemove? || sys.PollSend?)
    ensures Inv(SysNext(s, sys))
  {
    hide Core, Heap, Items;
    var s' := SysNext(s, sys);
    if sys.PollSend? { SendExpireCore(s, s'); } else { CoreElsewhere(s, s', Pending(s)); }
  }

  lemma SystemKeepsInv(s: State, sys: Sys)
    requires Inv(s) && CallsOk(s) && Ready(s, sys) && Safe(s, sys)
    ensures Inv(SysNext(s, sys))
  {
    match sys
    case MsgTake => {
      hide Inv, Core, SysNext, Exists;
      match s.queue[0]
      case PushMsg(d) => TakePushInv(s, d);
      case RemoveMsg(d) => TakeRemoveInv(s, d);
      case ExpireMsg => TakeExpireInv(s);
    }
    case MsgArm => { hide Inv, Core, SysNext; ArmInv(s); }
    case MsgRead => { hide Inv, Core, SysNext; ReadInv(s); }
    case MsgStop => { hide Inv, Core, SysNext; StopThroughInv(s); }
    case MsgCall => { hide Inv, Core, SysNext; CallInv(s); }
    case MsgCheck => { hide Inv, Core, SysNext; CheckInv(s); }
    case MsgRearm => { hide Core; SoonestInv(s, None); }
    case _ => { hide Inv, Core, SysNext; PollInv(s, sys); }
  }

  lemma ClientStopInv(s: State, c: Cid)
    requires Inv(s) && Usable(s, c)
    ensures Inv(ClientStop(s, c))
  {
    hide Core, Heap, Items;
    if s.clients[c].timer.Some? {
      var d := s.clients[c].timer.value;
      CurrentIsLinked(s, c);
      StopCore(s, c, d, ClientStop(s, c));
    }
  }

  lemma ClientStopDone(s: State, c: Cid)
    requires Usable(s, c)
    ensures var s' := ClientStop(s, c); c in s'.clients && s'.clients[c].alive && s'.clients[c].timer.None?
  {
  }

  lemma CurrentIsLinked(s: State, c: Cid)
    requires Core(s, Pending(s)) && c in s.clients && s.clients[c].timer.Some?
    ensures s.clients[c].timer.value in s.delegates && s.delegates[s.clients[c].timer.value].linked
  {
    hide Heap, Items, Sharers, LifeOk;
  }

  /** The client's own share goes once it has no timer. */
  lemma DropInv(s: State, c: Cid, s': State)
    requires Inv(s) && c in s.clients && s.clients[c].alive && s.clients[c].timer.None?
    requires s' == s.(clients := s.clients[c := s.clients[c].(alive := false, lock := s.clients[c].lock - 1)])
    ensures Inv(s')
  {
    hide Heap, Items, LifeOk, Sharers;
    LocksSame(s, s');
    forall e | e in s'.delegates ensures LifeOk(s', Pending(s'), e) {
      LifeElsewhere(s, s', Pending(s), e);
    }
  }

  lemma LocksNewClient(s: State, c: Cid, s': State)
    requires ClientsOk(s) && LocksOk(s) && c !in s.clients
    requires s'.delegates == s.delegates && s'.clients == s.clients[c := Client(None, true, 1)]
    ensures LocksOk(s') && ClientsOk(s')
  {
    assert Sharers(s.delegates, c) == {};
  }

  lemma NewClientInv(s: State, c: Cid)
    requires Inv(s) && c !in s.clients
    ensures Inv(Next(s, NewClient(c)))
  {
    hide Heap, Items, LifeOk, Sharers, ClientsOk, LocksOk;
    var s' := Next(s, NewClient(c));
    LocksNewClient(s, c, s');
    forall e | e in s'.delegates ensures LifeOk(s', Pending(s'), e) {
      LifeElsewhere(s, s', Pending(s), e);
    }
  }

  lemma StartInv(s: State, c: Cid, d: Id, due: int)
    requires Inv(s) && Enabled(s, Start(c, d, due)) && s.clients[c].lock > 0
    ensures Inv(Next(s, Start(c, d, due)))
  {
    hide Core, Heap, Items;
    if s.clients[c].timer.None? { StartCore(s, c, d, due, Next(s, Start(c, d, due))); }
  }

  /** No step, of the service or of a client, touches a deleted delegate, a destroyed client or a freed lock,
      except stop() and callback of an expire() whose client has been destroyed in the meantime. */
  lemma EveryStepIsSafe(s: State, step: Step)
    requires Inv(s) && CallsOk(s) && Enabled(s, step)
    ensures StepSafe(s, step) <==>
      (step == System(MsgStop) || step == System(MsgCall) ==> s.clients[s.proc.client].alive)
  {
    hide Core, Usable, Safe;
    match step
    case Start(c, _, _) => ClientLockHeld(s, c);
    case Stop(c) => ClientUsable(s, c);
    case Destroy(c) => ClientUsable(s, c);
    case System(sys) =>
      if sys.MsgStop? { StopSafe(s); } else if sys.MsgCall? { CallbackSafe(s); } else { SystemIsSafe(s, sys); }
    case _ =>
  }

  lemma StopSafe(s: State)
    requires Inv(s) && CallsOk(s) && s.proc.Stopping?
    ensures s.proc.client in s.clients && (Safe(s, MsgStop) <==> s.clients[s.proc.client].alive)
  {
    hide Core;
    if Runs(s, s.proc.client) { ClientUsable(s, s.proc.client); }
  }

  lemma CallbackSafe(s: State)
    requires CallsOk(s) && s.proc.Calling?
    ensures s.proc.client in s.clients && (Safe(s, MsgCall) <==> s.clients[s.proc.client].alive)
  {
  }

  lemma EveryStepKeepsInv(s: State, step: Step)
    requires Inv(s) && CallsOk(s) && Enabled(s, step) && StepSafe(s, step)
    ensures Inv(Next(s, step))
  {
    hide Core, SysNext, ClientStop;
    match step
    case Tick(t) => CoreElsewhere(s, Next(s, step), Pending(s));
    case NewClient(c) => { hide Inv; NewClientInv(s, c); }
    case Start(c, d, due) => { hide Inv, Next; StartInv(s, c, d, due); }
    case Stop(c) => { hide Inv; ClientStopInv(s, c); }
    case Destroy(c) => {
      hide Inv;
      ClientStopInv(s, c);
      ClientStopDone(s, c);
      DropInv(ClientStop(s, c), c, Next(s, step));
    }
    case System(sys) => { hide Inv; SystemKeepsInv(s, sys); }
  }

  // ---------- Every step keeps track of callbacks ----------

  /** Steps that neither end a timer by expire nor call back. */
  lemma CallsSame(s: State, s': State)
    requires CallsOk(s) && s.clients.Keys <= s'.clients.Keys && s.delegates.Keys <= s'.delegates.Keys
    requires HasClient(s.proc) || HasClient(s'.proc) ==> s'.proc == s.proc
    requires forall d :: d in s.delegates ==>
      && s'.delegates[d].client == s.delegates[d].client
      && s'.delegates[d].fires == s.delegates[d].fires && s'.delegates[d].calls == s.delegates[d].calls
      && (s'.delegates[d].linked ==> s.delegates[d].linked)
    requires forall d :: d in s'.delegates && d !in s.delegates ==>
      s'.delegates[d].fires == 0 && s'.delegates[d].calls == 0
    ensures CallsOk(s')
  {
  }

  lemma DeleteCalls(s: State, d: Id)
    requires CallsOk(s) && Exists(s, d)
    ensures CallsOk(Delete(s, d))
  {
    CallsSame(s, Delete(s, d));
  }

  lemma TakeRemoveCalls(s: State, d: Id)
    requires CallsOk(s) && Ready(s, MsgTake) && Safe(s, MsgTake) && s.queue[0] == RemoveMsg(d)
    ensures CallsOk(SysNext(s, MsgTake))
  {
    hide Removed;
    var s' := s.(queue := s.queue[1..], tree := Removed(s.tree, TimerOf(s, d), Earlier));
    CallsSame(s, s');
    CallsSame(s, s'.(proc := Idle));
    hide CallsOk;
    if s.tree.Node? && s.tree.data == TimerOf(s, d) {
      if s'.tree.Node? { CallsSame(s, SysNext(s, MsgTake)); } else { DeleteCalls(s'.(proc := Idle), d); }
    } else {
      DeleteCalls(s', d);
    }
  }

  lemma TakeCalls(s: State)
    requires CallsOk(s) && Ready(s, MsgTake) && Safe(s, MsgTake)
    ensures CallsOk(SysNext(s, MsgTake))
  {
    hide Popped, Push, CallsOk;
    match s.queue[0]
    case PushMsg(d) => CallsSame(s, SysNext(s, MsgTake));
    case RemoveMsg(d) => { hide SysNext; TakeRemoveCalls(s, d); }
    case ExpireMsg => CallsSame(s, SysNext(s, MsgTake));
  }

  lemma ReadCalls(s: State)
    requires Inv(s) && CallsOk(s) && Ready(s, MsgRead) && Safe(s, MsgRead)
    ensures CallsOk(SysNext(s, MsgRead)) && CallSafe(SysNext(s, MsgRead))
  {
    hide Items, Heap, Sharers;
    assert LifeOk(s, Pending(s), s.proc.timer.id);
  }

  lemma StoppedCalls(s: State, d: Id, s': State)
    requires CallsOk(s) && s.proc.Stopping? && d in s.delegates && s.delegates[d].client == s.proc.client
    requires d == s.proc.timer.id || !s.delegates[s.proc.timer.id].linked
    requires s'.delegates == s.delegates[d := s.delegates[d].(linked := false, fires := s.delegates[d].fires + 1)]
    requires s'.clients.Keys == s.clients.Keys && s'.proc == Calling(s.proc.now, s.proc.client, d, s.proc.timer.id)
    ensures CallsOk(s')
  {
  }

  lemma NoneStoppedCalls(s: State, now: int)
    requires CallsOk(s) && s.proc.Stopping?
    ensures CallsOk(s.(proc := Checking(now)))
  {
  }

  lemma StopThroughCalls(s: State)
    requires Inv(s) && CallsOk(s) && Ready(s, MsgStop) && Safe(s, MsgStop)
    ensures CallsOk(SysNext(s, MsgStop)) && CallSafe(SysNext(s, MsgStop))
  {
    hide Core, CallsOk;
    var c := s.proc.client;
    TimerInHand(s);
    RunsOneTimer(s, c);
    hide Inv;
    if s.clients[c].timer.None? {
      NoneStoppedCalls(s, s.proc.now);
    } else {
      StoppedCalls(s, s.clients[c].timer.value, SysNext(s, MsgStop));
    }
  }

  lemma TimerInHand(s: State)
    requires CallsOk(s) && s.proc.Stopping?
    ensures s.proc.timer.id in s.delegates && s.delegates[s.proc.timer.id].client == s.proc.client
  {
  }

  lemma ArmCalls(s: State)
    requires CallsOk(s) && Ready(s, MsgArm) && Safe(s, MsgArm)
    ensures CallsOk(SysNext(s, MsgArm))
  {
    var s' := s.(armed := Some(s.proc.due), proc := Idle);
    CallsSame(s, s');
    if s.proc.del.Some? { DeleteCalls(s', s.proc.del.value); }
  }

  lemma SystemKeepsCalls(s: State, sys: Sys)
    requires Inv(s) && CallsOk(s) && Ready(s, sys) && Safe(s, sys)
    ensures CallsOk(SysNext(s, sys))
  {
    match sys
    case MsgTake => { hide Inv, CallsOk, SysNext, Safe; TakeCalls(s); }
    case MsgRead => { hide Inv, CallsOk, SysNext, Safe; ReadCalls(s); }
    case MsgStop => { hide Inv, CallsOk, SysNext, Safe; StopThroughCalls(s); }
    case MsgArm => { hide Inv, CallsOk, SysNext, Safe; ArmCalls(s); }
    case MsgCall => { hide Inv; }
    case _ => { hide Inv, Popped; CallsSame(s, SysNext(s, sys)); }
  }

  lemma StopCalls(s: State, c: Cid)
    requires CallsOk(s) && Usable(s, c)
    ensures CallsOk(ClientStop(s, c))
  {
    CallsSame(s, ClientStop(s, c));
  }

  lemma EveryStepKeepsCalls(s: State, step: Step)
    requires Inv(s) && CallsOk(s) && Enabled(s, step) && StepSafe(s, step)
    ensures CallsOk(Next(s, step))
  {
    hide Inv, SysNext, ClientStop, CallsOk;
    match step
    case System(sys) => SystemKeepsCalls(s, sys);
    case Stop(c) => StopCalls(s, c);
    case Destroy(c) => {
      StopCalls(s, c);
      ClientStopDone(s, c);
      CallsSame(ClientStop(s, c), Next(s, step));
    }
    case _ => CallsSame(s, Next(s, step));
  }
}
