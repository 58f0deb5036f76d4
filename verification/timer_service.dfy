/** The timer service of LocTimer.cpp as a transition system: client threads starting and stopping
    timers, the message thread that owns the heap, the poll thread, and the kernel's timer fd. One
    container; every step is what one thread does between two points where others can interleave. */
module TimerService {
  import opened HeapModel
  import opened Timers
  import opened LocHeapImpl

  type Id = nat      // a LocTimerDelegate
  type Cid = nat     // a LocTimer

  datatype Msg = PushMsg(d: Id) | RemoveMsg(d: Id) | ExpireMsg

  /** What the message thread is doing. */
  datatype Proc =
    | Idle                                  // between messages
    | Arming(due: int, del: Option<Id>)     // updateSoonestTime, after addPoll; then del is deleted
    | Firing(now: int, timer: Timer)        // Expire: timer is popped, its expire() is next
    | Stopping(now: int, timer: Timer, client: Cid)      // expire() has read mClient, client->stop() is next
    | Calling(now: int, client: Cid, d: Id, popped: Id)  // stop() has stopped d, client->timeOutCallback() is next
    | Checking(now: int)                    // Expire: popIfOutRanks is next
    | Rearming                              // Expire: updateSoonestTime(NULL) is next

  /** Where the poll thread is: in epoll_wait, or inside LocTimerContainer::expire(). */
  datatype Poll = Waiting | Woken | Disarmed | Unpolled

  /** A LocTimerDelegate with the history of its life: how often expire or the client itself stopped it,
      how often it was deleted, and how often its client was called back. `linked` is mClient != NULL. */
  datatype Delegate = Delegate(client: Cid, due: int, linked: bool, fires: nat, stops: nat, deletes: nat, calls: nat)

  /** A LocTimer: mTimer, whether it still exists, and the mRef of its shared lock. */
  datatype Client = Client(timer: Option<Id>, alive: bool, lock: int)

  datatype State = State(now: int, tree: Tree<Timer>, queue: seq<Msg>, proc: Proc,
                         poll: Poll, polled: bool, armed: Option<int>,
                         delegates: map<Id, Delegate>, clients: map<Cid, Client>)

  /** Steps of the service's own two threads. */
  datatype Sys = PollWake | PollDisarm | PollRemove | PollSend
               | MsgTake | MsgArm | MsgRead | MsgStop | MsgCall | MsgCheck | MsgRearm

  datatype Step = Tick(t: int) | NewClient(c: Cid) | Start(c: Cid, d: Id, due: int) | Stop(c: Cid)
                | Destroy(c: Cid) | System(sys: Sys)

  function Init(now: int): State {
    State(now, Nil, [], Idle, Waiting, false, None, map[], map[])
  }

  function TimerOf(s: State, d: Id): Timer
    requires d in s.delegates
  {
    Timer(d, s.delegates[d].due)
  }

  // ---------- Client threads ----------

  predicate Runs(s: State, c: Cid) { c in s.clients && s.clients[c].alive }

  /** LocTimer::stop on a client whose mTimer is d: destroyLocked posts the Remove message. */
  function StopTimer(s: State, c: Cid, d: Id): State
    requires c in s.clients && d in s.delegates
  {
    s.(clients := s.clients[c := s.clients[c].(timer := None)],
       delegates := s.delegates[d := s.delegates[d].(linked := false)],
       queue := s.queue + [RemoveMsg(d)])
  }

  /** A successful client stop. */
  function ClientStop(s: State, c: Cid): State
    requires c in s.clients && (s.clients[c].timer.Some? ==> s.clients[c].timer.value in s.delegates)
  {
    if s.clients[c].timer.None? then s
    else
      var d := s.clients[c].timer.value;
      var s' := StopTimer(s, c, d);
      s'.(delegates := s'.delegates[d := s'.delegates[d].(stops := s'.delegates[d].stops + 1)])
  }

  // ---------- The message thread ----------

  /** `delete mTimer`: the delegate drops its share of the lock. */
  function Delete(s: State, d: Id): State
    requires d in s.delegates && s.delegates[d].client in s.clients
  {
    var c := s.delegates[d].client;
    s.(delegates := s.delegates[d := s.delegates[d].(deletes := s.delegates[d].deletes + 1)],
       clients := s.clients[c := s.clients[c].(lock := s.clients[c].lock - 1)])
  }

  /** updateSoonestTime when the top must be written to the kernel; del is deleted afterwards. */
  function Soonest(s: State, del: Option<Id>): State
    requires del.Some? ==> del.value in s.delegates && s.delegates[del.value].client in s.clients
  {
    if s.tree.Node? then s.(polled := true, proc := Arming(s.tree.data.due, del))
    else if del.Some? then Delete(s.(proc := Idle), del.value)
    else s.(proc := Idle)
  }

  /** MsgTimerPush::proc */
  function TakePush(s: State, d: Id): State
    requires d in s.delegates
  {
    var s' := s.(tree := Push(s.tree, TimerOf(s, d), Earlier));
    if s.tree.Nil? || (s'.tree.data != s.tree.data && Earlier(s'.tree.data, s.tree.data)) then Soonest(s', None)
    else s'
  }

  /** MsgTimerRemove::proc. The comparison with the prior top also holds when both are NULL. */
  function TakeRemove(s: State, d: Id): State
    requires d in s.delegates && s.delegates[d].client in s.clients
  {
    var x := TimerOf(s, d);
    var s' := s.(tree := Removed(s.tree, x, Earlier));
    if s.tree.Node? && s.tree.data == x then Soonest(s', Some(d)) else Delete(s', d)
  }

  /** The popping of the next timer to expire. */
  function PopNext(s: State, now: int): State
    requires s.tree.Node?
  {
    s.(tree := Popped(s.tree, Earlier), proc := Firing(now, s.tree.data))
  }

  /** LocTimerDelegate::expire copies mClient, without the lock. */
  function Read(s: State, now: int, x: Timer): State
    requires Exists(s, x.id)
  {
    s.(proc := if s.delegates[x.id].linked then Stopping(now, x, s.delegates[x.id].client) else Checking(now))
  }

  /** Then it stops the client, whatever timer that runs by now. Only if it runs one is there a callback to come; the
      lock has been released by then. */
  function StopThrough(s: State, now: int, x: Timer, c: Cid): State
    requires Usable(s, c)
  {
    if s.clients[c].timer.None? then s.(proc := Checking(now))
    else
      var d := s.clients[c].timer.value;
      var s' := StopTimer(s.(proc := Calling(now, c, d, x.id)), c, d);
      s'.(delegates := s'.delegates[d := s'.delegates[d].(fires := s'.delegates[d].fires + 1)])
  }

  /** The callback of client->timeOutCallback(), a virtual call on the client. */
  function Call(s: State, now: int, d: Id): State {
    s.(proc := Checking(now),
       delegates :=
         if d in s.delegates then s.delegates[d := s.delegates[d].(calls := s.delegates[d].calls + 1)]
         else s.delegates)
  }

  /** c may lock its lock and reach its current timer. */
  predicate Usable(s: State, c: Cid) {
    Runs(s, c) && s.clients[c].lock > 0 && (s.clients[c].timer.Some? ==> Exists(s, s.clients[c].timer.value))
  }

  /** d has been created and not deleted, and neither has the lock it shares. */
  predicate Exists(s: State, d: Id) {
    && d in s.delegates && s.delegates[d].deletes == 0
    && s.delegates[d].client in s.clients && s.clients[s.delegates[d].client].lock > 0
  }

  /** The message names an existing delegate that has not been deleted. */
  predicate MsgOk(s: State, m: Msg) {
    m.ExpireMsg? || Exists(s, m.d)
  }

  predicate DelOk(s: State, del: Option<Id>) {
    del.Some? ==> Exists(s, del.value)
  }

  // ---------- The system's steps ----------

  predicate Ready(s: State, sys: Sys) {
    match sys
    case PollWake => s.poll.Waiting? && s.polled && s.armed.Some? && s.armed.value <= s.now
    case PollDisarm => s.poll.Woken?
    case PollRemove => s.poll.Disarmed?
    case PollSend => s.poll.Unpolled?
    case MsgTake => s.proc.Idle? && s.queue != []
    case MsgArm => s.proc.Arming?
    case MsgRead => s.proc.Firing?
    case MsgStop => s.proc.Stopping?
    case MsgCall => s.proc.Calling?
    case MsgCheck => s.proc.Checking?
    case MsgRearm => s.proc.Rearming?
  }

  /** The objects a step touches exist. Of which ready steps this holds is a theorem, not an assumption. */
  predicate Safe(s: State, sys: Sys)
    requires Ready(s, sys)
  {
    match sys
    case MsgTake => MsgOk(s, s.queue[0])
    case MsgArm => DelOk(s, s.proc.del)
    case MsgRead => Exists(s, s.proc.timer.id)
    case MsgStop => Usable(s, s.proc.client)
    case MsgCall => Runs(s, s.proc.client)
    case _ => true
  }

  function SysNext(s: State, sys: Sys): State
    requires Ready(s, sys) && Safe(s, sys)
  {
    match sys
    case PollWake => s.(poll := Woken)
    case PollDisarm => s.(poll := Disarmed, armed := None)
    case PollRemove => s.(poll := Unpolled, polled := false)
    case PollSend => s.(poll := Waiting, queue := s.queue + [ExpireMsg])
    case MsgTake =>
      var s' := s.(queue := s.queue[1..]);
      (match s.queue[0]
       case PushMsg(d) => TakePush(s', d)
       case RemoveMsg(d) => TakeRemove(s', d)
       case ExpireMsg => if s.tree.Node? then PopNext(s', s.now) else s'.(proc := Rearming))
    case MsgArm =>
      var s' := s.(armed := Some(s.proc.due), proc := Idle);
      if s.proc.del.Some? then Delete(s', s.proc.del.value) else s'
    case MsgRead => Read(s, s.proc.now, s.proc.timer)
    case MsgStop => StopThrough(s, s.proc.now, s.proc.timer, s.proc.client)
    case MsgCall => Call(s, s.proc.now, s.proc.d)
    case MsgCheck =>
      if s.tree.Node? && s.tree.data.due <= s.proc.now then PopNext(s, s.proc.now) else s.(proc := Rearming)
    case MsgRearm => Soonest(s, None)
  }

  // ---------- All steps ----------

  predicate Enabled(s: State, step: Step) {
    match step
    case Tick(t) => s.now <= t
    case NewClient(c) => c !in s.clients
    case Start(c, d, due) => Runs(s, c) && d !in s.delegates
    case Stop(c) => Runs(s, c)
    case Destroy(c) => Runs(s, c)
    case System(sys) => Ready(s, sys)
  }

  predicate StepSafe(s: State, step: Step)
    requires Enabled(s, step)
  {
    match step
    case Start(c, _, _) => s.clients[c].lock > 0
    case Stop(c) => Usable(s, c)
    case Destroy(c) => Usable(s, c)
    case System(sys) => Safe(s, sys)
    case _ => true
  }

  function Next(s: State, step: Step): State
    requires Enabled(s, step) && StepSafe(s, step)
  {
    match step
    case Tick(t) => s.(now := t)
    case NewClient(c) => s.(clients := s.clients[c := Client(None, true, 1)])
    case Start(c, d, due) =>
      if s.clients[c].timer.Some? then s
      else s.(delegates := s.delegates[d := Delegate(c, due, true, 0, 0, 0, 0)],
              clients := s.clients[c := s.clients[c].(timer := Some(d), lock := s.clients[c].lock + 1)],
              queue := s.queue + [PushMsg(d)])
    case Stop(c) => ClientStop(s, c)
    case Destroy(c) =>
      var s' := ClientStop(s, c);
      s'.(clients := s'.clients[c := s'.clients[c].(alive := false, lock := s'.clients[c].lock - 1)])
    case System(sys) => SysNext(s, sys)
  }

  /** The steps lead from s to s', each of them enabled and safe when it is taken. */
  predicate Run(s: State, steps: seq<Step>, s': State)
    decreases |steps|
  {
    if steps == [] then s == s'
    else Enabled(s, steps[0]) && StepSafe(s, steps[0]) && Run(Next(s, steps[0]), steps[1..], s')
  }
}
