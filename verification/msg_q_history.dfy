/** Any interleaving of the calls of several threads on one message queue. The mutex makes each part of a call one
    turn. */
module MsgQueueHistory {
  import opened LinkedLists
  import opened MsgQueue

  datatype Call = Send(data: Ptr, dealloc: bool) | StartReceive | FinishReceive | FlushAll | UnblockAll

  /** What a turn came to. A finish that finds no waiting receiver, or nothing that would end the wait, is Idle. */
  datatype Outcome = Done(err: Err, data: Ptr) | Idle

  datatype Turn = Turn(call: Call, outcome: Outcome) {
    predicate Ok() { outcome.Done? && outcome.err == Success }
  }

  /** The messages accepted from senders, in order. */
  function Sent(log: seq<Turn>): seq<Item> {
    if log == [] then []
    else
      var last := log[|log| - 1];
      Sent(log[..|log| - 1]) + (if last.call.Send? && last.Ok() then [Item(last.call.data, last.call.dealloc)] else [])
  }

  /** The messages handed to receivers, in order. */
  function Got(log: seq<Turn>): seq<Ptr> {
    if log == [] then []
    else
      var last := log[|log| - 1];
      Got(log[..|log| - 1]) + (if last.call.FinishReceive? && last.Ok() then [last.outcome.data] else [])
  }

  /** The receivers that were let in, and those of them that have returned. */
  function Started(log: seq<Turn>): nat {
    if log == [] then 0
    else
      var last := log[|log| - 1];
      Started(log[..|log| - 1]) + if last.call.StartReceive? && last.Ok() then 1 else 0
  }

  function Returned(log: seq<Turn>): nat {
    if log == [] then 0
    else
      var last := log[|log| - 1];
      Returned(log[..|log| - 1]) + if last.call.FinishReceive? && last.outcome.Done? then 1 else 0
  }

  /** The queue when the first turn begins: whether it has been unblocked, and how many messages it holds. */
  datatype Start = Start(unblocked: bool, queued: nat)

  /** The queue was unblocked at first, or by one of the turns. */
  predicate Shut(was: Start, log: seq<Turn>) { was.unblocked || exists i :: 0 <= i < |log| && log[i].call.UnblockAll? }

  /** The number of messages in the queue after the log. */
  function Queued(was: Start, log: seq<Turn>): int {
    if log == [] then was.queued
    else
      var last, before := log[|log| - 1], Queued(was, log[..|log| - 1]);
      if last.call.FlushAll? then 0
      else if last.call.Send? && last.Ok() then before + 1
      else if last.call.FinishReceive? && last.Ok() then before - 1
      else before
  }

  /** A turn answers as it must after the log. */
  predicate Answers(was: Start, log: seq<Turn>, t: Turn) {
    match t.call
    case Send(data, _) => t.outcome.Done? && (t.Ok() <==> data != NULL && !Shut(was, log))
    case StartReceive => t.outcome.Done? && (t.Ok() <==> !Shut(was, log))
    case FinishReceive =>
      && (t.outcome.Done? <==> Returned(log) < Started(log) && (Queued(was, log) > 0 || Shut(was, log)))
      && (t.outcome.Done? ==> (t.Ok() <==> Queued(was, log) > 0))
    case FlushAll => t.Ok()
    case UnblockAll => t.outcome.Done? && (t.Ok() <==> !Shut(was, log))
  }

  predicate AnswersAt(was: Start, log: seq<Turn>, i: int) { 0 <= i < |log| && Answers(was, log[..i], log[i]) }

  predicate History(was: Start, log: seq<Turn>) { forall i :: 0 <= i < |log| ==> AnswersAt(was, log, i) }

  lemma OneMoreTurn(was: Start, log: seq<Turn>, t: Turn)
    requires History(was, log) && Answers(was, log, t)
    ensures var log' := log + [t];
      && History(was, log')
      && Sent(log') == Sent(log) + (if t.call.Send? && t.Ok() then [Item(t.call.data, t.call.dealloc)] else [])
      && Got(log') == Got(log) + (if t.call.FinishReceive? && t.Ok() then [t.outcome.data] else [])
      && Started(log') == Started(log) + (if t.call.StartReceive? && t.Ok() then 1 else 0)
      && Returned(log') == Returned(log) + (if t.call.FinishReceive? && t.outcome.Done? then 1 else 0)
      && (Shut(was, log') <==> Shut(was, log) || t.call.UnblockAll?)
      && Queued(was, log') == (if t.call.FlushAll? then 0 else Queued(was, log))
        + (if t.call.Send? && t.Ok() then 1 else 0) - (if t.call.FinishReceive? && t.Ok() then 1 else 0)
  {
    hide Answers;
    var log' := log + [t];
    assert log'[..|log|] == log && log'[|log|] == t;
    forall i | 0 <= i < |log'| ensures AnswersAt(was, log', i) {
      if i < |log| { assert AnswersAt(was, log, i) && log'[..i] == log[..i]; }
    }
    if Shut(was, log) && !was.unblocked {
      var i :| 0 <= i < |log| && log[i].call.UnblockAll?;
      assert log'[i].call.UnblockAll?;
    }
    if t.call.UnblockAll? { assert log'[|log|].call.UnblockAll?; }
  }

  /** Whatever the threads do, each turn answers as it must, what the receivers got is what the queue counts as
      received, and what was accepted is what the senders were told. */
  method Serve(q: MsgQ, calls: seq<Call>) returns (log: seq<Turn>)
    requires q.Valid()
    modifies q, q.list, q.list.repr
    ensures q.Valid() && fresh(q.list.repr - old(q.list.repr))
    ensures |log| == |calls| && forall i :: 0 <= i < |calls| ==> log[i].call == calls[i]
    ensures var was := Start(old(q.unblocked), old(|q.accepted| - |q.fates|));
      && History(was, log) && (q.unblocked <==> Shut(was, log)) && |q.accepted| - |q.fates| == Queued(was, log)
    ensures q.accepted == old(q.accepted) + Sent(log) && q.received == old(q.received) + Got(log)
  {
    hide *;
    log := [];
    var waiting := 0;
    StartOf(q);
    ghost var was := Start(q.unblocked, |q.accepted| - |q.fates|);
    Nothing(was);
    var i := 0;
    while i < |calls|
      invariant 0 <= i <= |calls| && |log| == i && forall k :: 0 <= k < i ==> log[k].call == calls[k]
      invariant q.Valid() && fresh(q.list.repr - old(q.list.repr))
      invariant History(was, log) && (q.unblocked <==> Shut(was, log)) && |q.accepted| - |q.fates| == Queued(was, log)
      invariant q.accepted == old(q.accepted) + Sent(log) && q.received == old(q.received) + Got(log)
      invariant waiting == Started(log) - Returned(log) && waiting >= 0
    {
      var outcome;
      outcome, waiting := Take(q, calls[i], waiting, log, was);
      OneMoreTurn(was, log, Turn(calls[i], outcome));
      log := log + [Turn(calls[i], outcome)];
      i := i + 1;
    }
  }

  lemma Nothing(was: Start)
    ensures Sent([]) == [] && Got([]) == [] && Started([]) == 0 && Returned([]) == 0
    ensures History(was, []) && (Shut(was, []) <==> was.unblocked) && Queued(was, []) == was.queued
  {
  }

  lemma StartOf(q: MsgQ)
    requires q.Valid()
    ensures |q.fates| <= |q.accepted|
  {
  }

  /** One turn. */
  method Take(q: MsgQ, call: Call, waiting: nat, ghost log: seq<Turn>, ghost was: Start)
    returns (outcome: Outcome, waiting': nat)
    requires q.Valid() && (q.unblocked <==> Shut(was, log)) && waiting == Started(log) - Returned(log)
    requires |q.accepted| - |q.fates| == Queued(was, log)
    modifies q, q.list, q.list.repr
    ensures q.Valid() && fresh(q.list.repr - old(q.list.repr))
    ensures Answers(was, log, Turn(call, outcome)) && (q.unblocked <==> Shut(was, log) || call.UnblockAll?)
    ensures var t := Turn(call, outcome);
      && q.accepted == old(q.accepted) + (if call.Send? && t.Ok() then [Item(call.data, call.dealloc)] else [])
      && q.received == old(q.received) + (if call.FinishReceive? && t.Ok() then [outcome.data] else [])
      && waiting' == waiting + (if call.StartReceive? && t.Ok() then 1 else 0)
        - (if call.FinishReceive? && outcome.Done? then 1 else 0)
      && |q.accepted| - |q.fates| == (if call.FlushAll? then 0 else Queued(was, log))
        + (if call.Send? && t.Ok() then 1 else 0) - (if call.FinishReceive? && t.Ok() then 1 else 0)
  {
    hide Queued, Sent, Got, Started, Returned, Shut, Received, Flushed;
    waiting' := waiting;
    match call
    case Send(data, dealloc) =>
      var err := q.Snd(data, dealloc);
      outcome := Done(err, NULL);
    case StartReceive =>
      var err := q.RcvStart();
      outcome := Done(err, NULL);
      if err == Success { waiting' := waiting + 1; }
    case FinishReceive =>
      var empty := q.list.Empty();
      if waiting == 0 || (empty && !q.unblocked) { return Idle, waiting; }
      var err, data := q.RcvFinish();
      outcome, waiting' := Done(err, data), waiting - 1;
    case FlushAll =>
      var err := q.Flush();
      outcome := Done(err, NULL);
    case UnblockAll =>
      var err := q.Unblock();
      outcome := Done(err, NULL);
  }

  // ---------- What a history shows ----------

  /** Once the queue has been unblocked, nobody is let in: every later send and receive fails, ... */
  lemma NobodyAfterUnblock(was: Start, log: seq<Turn>, i: int, j: int)
    requires History(was, log) && 0 <= i < j < |log| && log[i].call.UnblockAll?
    requires (log[j].call.Send? || log[j].call.StartReceive?)
    ensures !log[j].Ok()
  {
    assert AnswersAt(was, log, j) && log[..j][i].call.UnblockAll?;
  }

  /** ... and at most those receivers return that were waiting then. */
  lemma {:induction false} OnlyWaitersAfterUnblock(was: Start, log: seq<Turn>, i: int, j: int)
    requires History(was, log) && 0 <= i < j <= |log| && log[i].call.UnblockAll?
    ensures Returned(log[..j]) - Returned(log[..i]) <= Started(log[..i]) - Returned(log[..i])
    ensures Started(log[..j]) == Started(log[..i]) && Sent(log[..j]) == Sent(log[..i])
    decreases j
  {
    assert log[..j][..j - 1] == log[..j - 1];
    assert AnswersAt(was, log, j - 1);
    if j > i + 1 {
      NobodyLeft(was, log, j - 1);
      OnlyWaitersAfterUnblock(was, log, i, j - 1);
      if log[j - 1].call.Send? || log[j - 1].call.StartReceive? { NobodyAfterUnblock(was, log, i, j - 1); }
    } else {
      NobodyLeft(was, log, i);
    }
  }

  /** No more receivers return than were let in. */
  lemma {:induction false} NobodyLeft(was: Start, log: seq<Turn>, j: int)
    requires History(was, log) && 0 <= j <= |log|
    ensures Returned(log[..j]) <= Started(log[..j])
    decreases j
  {
    if j > 0 {
      assert log[..j][..j - 1] == log[..j - 1];
      assert AnswersAt(was, log, j - 1);
      NobodyLeft(was, log, j - 1);
    }
  }

  // ---------- First in, first out ----------

  predicate NoFlush(log: seq<Turn>) { forall i :: 0 <= i < |log| ==> !log[i].call.FlushAll? }

  lemma {:induction false} QueuedIsSentNotGot(was: Start, log: seq<Turn>)
    requires NoFlush(log)
    ensures Queued(was, log) == was.queued + |Sent(log)| - |Got(log)|
  {
    if log != [] { QueuedIsSentNotGot(was, log[..|log| - 1]); }
  }

  lemma {:induction false} AllReceived(accepted: seq<Item>, fates: seq<bool>)
    requires |fates| <= |accepted|
    ensures |Received(accepted, fates)| <= |fates|
    ensures |Received(accepted, fates)| == |fates| ==> Received(accepted, fates) == Data(accepted[..|fates|])
    decreases |fates|
  {
    if fates != [] {
      var n := |fates| - 1;
      AllReceived(accepted, fates[..n]);
      assert Data(accepted[..n + 1]) == Data(accepted[..n]) + [accepted[n].data];
    }
  }

  /** Unless it is flushed, a new queue hands out exactly the messages that were sent, oldest first, whichever threads
      send and receive. */
  method ServeInOrder(q: MsgQ, calls: seq<Call>) returns (log: seq<Turn>)
    requires q.Valid() && q.accepted == [] && forall i :: 0 <= i < |calls| ==> !calls[i].FlushAll?
    modifies q, q.list, q.list.repr
    ensures q.Valid() && |log| == |calls| && forall i :: 0 <= i < |calls| ==> log[i].call == calls[i]
    ensures Got(log) <= Data(Sent(log))
  {
    hide *;
    StartEmpty(q);
    ghost var was := Start(q.unblocked, 0);
    log := Serve(q, calls);
    NothingFlushed(calls, log);
    ReceivedOf(q);
    InOrder(was, log, q.accepted, q.fates);
  }

  lemma NothingFlushed(calls: seq<Call>, log: seq<Turn>)
    requires |log| == |calls| && forall i :: 0 <= i < |calls| ==> log[i].call == calls[i]
    requires forall i :: 0 <= i < |calls| ==> !calls[i].FlushAll?
    ensures NoFlush(log)
  {
  }

  lemma InOrder(was: Start, log: seq<Turn>, accepted: seq<Item>, fates: seq<bool>)
    requires was.queued == 0 && NoFlush(log) && |fates| <= |accepted| && |accepted| - |fates| == Queued(was, log)
    requires accepted == Sent(log) && Received(accepted, fates) == Got(log)
    ensures Got(log) <= Data(Sent(log))
  {
    hide Sent, Got, Received, NoFlush;
    QueuedIsSentNotGot(was, log);
    AllReceived(accepted, fates);
    assert Got(log) == Data(accepted)[..|fates|];
  }

  lemma StartEmpty(q: MsgQ)
    requires q.Valid() && q.accepted == []
    ensures q.fates == [] && q.received == []
    ensures forall s: seq<Item> :: [] + s == s
    ensures forall s: seq<Ptr> :: [] + s == s
  {
  }

  lemma ReceivedOf(q: MsgQ)
    requires q.Valid()
    ensures |q.fates| <= |q.accepted| && q.received == Received(q.accepted, q.fates)
  {
  }
}
