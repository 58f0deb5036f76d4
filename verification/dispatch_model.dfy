/** Event delivery of IPACM_EvtDispatcher.cpp on the list of registrations, while listeners leave. */
module DispatchModel {

  type Listener = int

  datatype Reg = Reg(event: int, obj: Listener)

  /** The registrations that are left when the listeners in `gone` have deregistered. */
  function Without(regs: seq<Reg>, gone: set<Listener>): (r: seq<Reg>)
    ensures |r| <= |regs|
  {
    if regs == [] then []
    else (if regs[0].obj in gone then [] else [regs[0]]) + Without(regs[1..], gone)
  }

  /** What delivering an event comes to: whether every node that was followed still existed, and who was called. */
  datatype Outcome = Outcome(ok: bool, called: seq<Listener>)

  /** Delivery to the pending nodes as ProcessEvt goes through them: the node after the present one is
      remembered before the callback, in which a listener in `leavers` deregisters. */
  function Deliver(pending: seq<Reg>, event: int, leavers: set<Listener>): Outcome
    decreases |pending|
  {
    if pending == [] then Outcome(true, [])
    else
      var reg, rest := pending[0], pending[1..];
      if reg.event != event then Deliver(rest, event, leavers)
      else if reg.obj !in leavers then Calling(reg.obj, Deliver(rest, event, leavers))
      else if rest != [] && rest[0].obj == reg.obj then Outcome(false, [reg.obj])
      else Calling(reg.obj, Deliver(Without(rest, {reg.obj}), event, leavers))
  }

  function Calling(obj: Listener, o: Outcome): Outcome { o.(called := [obj] + o.called) }

  // ---------- The reference: one pass over the registrations as they were ----------

  predicate Registered(regs: seq<Reg>, event: int, obj: Listener) { Reg(event, obj) in regs }

  /** Those of the leavers that are registered for the event. */
  function Leaving(regs: seq<Reg>, event: int, leavers: set<Listener>): set<Listener> {
    set o | o in leavers && Registered(regs, event, o)
  }

  /** The registration at i gets its turn: it is for the event, and its listener has not left before. */
  predicate HasTurn(regs: seq<Reg>, event: int, leavers: set<Listener>, i: int)
    requires 0 <= i < |regs|
  {
    regs[i].event == event && regs[i].obj !in Leaving(regs[..i], event, leavers)
  }

  /** From i on, every registration that has a turn, in the order of registration. */
  function Turns(regs: seq<Reg>, event: int, leavers: set<Listener>, i: nat): seq<Listener>
    requires i <= |regs|
    decreases |regs| - i
  {
    if i == |regs| then []
    else (if HasTurn(regs, event, leavers, i) then [regs[i].obj] else []) + Turns(regs, event, leavers, i + 1)
  }

  /** If the listener at i leaves in its turn, the next node still in the list is not its own. */
  predicate SafeAt(regs: seq<Reg>, event: int, leavers: set<Listener>, i: int)
    requires 0 <= i < |regs|
  {
    HasTurn(regs, event, leavers, i) && regs[i].obj in leavers ==>
      var next := Without(regs[i + 1..], Leaving(regs[..i], event, leavers));
      next == [] || next[0].obj != regs[i].obj
  }

  predicate Safe(regs: seq<Reg>, event: int, leavers: set<Listener>) {
    forall i :: 0 <= i < |regs| ==> SafeAt(regs, event, leavers, i)
  }

  // ---------- Without ----------

  lemma {:induction false} WithoutNothing(regs: seq<Reg>)
    ensures Without(regs, {}) == regs
  {
    if regs != [] { WithoutNothing(regs[1..]); }
  }

  lemma {:induction false} WithoutTwice(regs: seq<Reg>, a: set<Listener>, b: set<Listener>)
    ensures Without(Without(regs, a), b) == Without(regs, a + b)
  {
    if regs != [] {
      WithoutTwice(regs[1..], a, b);
      assert [] + Without(regs[1..], a) == Without(regs[1..], a);
      WithoutCons(regs[0], Without(regs[1..], a), b);
    }
  }

  lemma WithoutCons(reg: Reg, regs: seq<Reg>, gone: set<Listener>)
    ensures Without([reg] + regs, gone) == (if reg.obj in gone then [] else [reg]) + Without(regs, gone)
  {
    assert ([reg] + regs)[1..] == regs;
  }

  lemma {:induction false} WithoutConcat(a: seq<Reg>, b: seq<Reg>, gone: set<Listener>)
    ensures Without(a + b, gone) == Without(a, gone) + Without(b, gone)
  {
    if a == [] {
      assert a + b == b;
    } else {
      assert (a + b)[1..] == a[1..] + b;
      WithoutConcat(a[1..], b, gone);
    }
  }

  lemma {:induction false} WithoutMembers(regs: seq<Reg>, gone: set<Listener>)
    ensures forall r :: r in Without(regs, gone) <==> r in regs && r.obj !in gone
  {
    if regs != [] { WithoutMembers(regs[1..], gone); }
  }

  // ---------- Delivery meets the reference ----------

  lemma LeavingGrows(regs: seq<Reg>, event: int, leavers: set<Listener>, i: nat)
    requires i < |regs|
    ensures Leaving(regs[..i + 1], event, leavers) ==
      Leaving(regs[..i], event, leavers)
        + if regs[i].event == event && regs[i].obj in leavers then {regs[i].obj} else {}
  {
    assert regs[..i + 1] == regs[..i] + [regs[i]];
    assert forall o :: Registered(regs[..i + 1], event, o) <==>
      Registered(regs[..i], event, o) || regs[i] == Reg(event, o);
  }

  /** What is pending at i: the nodes from i on of listeners that have not left. */
  function Pending(regs: seq<Reg>, event: int, leavers: set<Listener>, i: nat): seq<Reg>
    requires i <= |regs|
  {
    Without(regs[i..], Leaving(regs[..i], event, leavers))
  }

  lemma NothingPending(regs: seq<Reg>, event: int, leavers: set<Listener>)
    ensures Pending(regs, event, leavers, |regs|) == []
  {
    assert regs[|regs|..] == [];
  }

  lemma PendingAfter(regs: seq<Reg>, event: int, leavers: set<Listener>, i: nat)
    requires i < |regs|
    ensures var gone, next := Leaving(regs[..i], event, leavers), Pending(regs, event, leavers, i + 1);
      && Pending(regs, event, leavers, i) ==
          (if regs[i].obj in gone then [] else [regs[i]]) + Without(regs[i + 1..], gone)
      && (if HasTurn(regs, event, leavers, i) && regs[i].obj in leavers
          then next == Without(Without(regs[i + 1..], gone), {regs[i].obj})
          else next == Without(regs[i + 1..], gone))
  {
    var gone := Leaving(regs[..i], event, leavers);
    LeavingGrows(regs, event, leavers, i);
    assert regs[i..] == [regs[i]] + regs[i + 1..];
    WithoutCons(regs[i], regs[i + 1..], gone);
    WithoutTwice(regs[i + 1..], gone, {regs[i].obj});
    if regs[i].obj in gone { assert gone + {regs[i].obj} == gone; }
    assert gone + {} == gone;
    assert regs[i].event == event && regs[i].obj in leavers && !HasTurn(regs, event, leavers, i) ==>
      regs[i].obj in gone;
  }

  /** From i on delivery goes wrong exactly at an unsafe position, and otherwise gives everyone their turn. */
  lemma {:induction false} DeliveryIs(regs: seq<Reg>, event: int, leavers: set<Listener>, i: nat)
    requires i <= |regs|
    ensures Deliver(Pending(regs, event, leavers, i), event, leavers).ok
       <==> forall j :: i <= j < |regs| ==> SafeAt(regs, event, leavers, j)
    ensures Deliver(Pending(regs, event, leavers, i), event, leavers).ok ==>
      Deliver(Pending(regs, event, leavers, i), event, leavers).called == Turns(regs, event, leavers, i)
    decreases |regs| - i
  {
    hide Without, Leaving;
    if i == |regs| {
      NothingPending(regs, event, leavers);
    } else {
      hide Pending, SafeAt, HasTurn;
      PendingAfter(regs, event, leavers, i);
      DeliveryIs(regs, event, leavers, i + 1);
      DeliveryStep(regs, event, leavers, i);
      assert (forall j :: i <= j < |regs| ==> SafeAt(regs, event, leavers, j)) <==>
        (SafeAt(regs, event, leavers, i) && forall j :: i + 1 <= j < |regs| ==> SafeAt(regs, event, leavers, j));
    }
  }

  lemma DeliveryStep(regs: seq<Reg>, event: int, leavers: set<Listener>, i: nat)
    requires i < |regs|
    ensures var now := Deliver(Pending(regs, event, leavers, i), event, leavers);
      var next := Deliver(Pending(regs, event, leavers, i + 1), event, leavers);
      && (now.ok <==> SafeAt(regs, event, leavers, i) && next.ok)
      && (now.ok ==> now.called == (if HasTurn(regs, event, leavers, i) then [regs[i].obj] else []) + next.called)
  {
    PendingAfter(regs, event, leavers, i);
    hide Without, Leaving;
    var gone := Leaving(regs[..i], event, leavers);
    var rest := Without(regs[i + 1..], gone);
    if regs[i].obj !in gone {
      assert ([regs[i]] + rest)[1..] == rest;
    } else {
      assert [] + rest == rest;
    }
  }

  /** The main result: ProcessEvt never follows a freed node exactly when the list is safe for the event,
      and then everyone registered is called in order, once each if they leave. */
  lemma DeliveryIsSafe(regs: seq<Reg>, event: int, leavers: set<Listener>)
    ensures Deliver(regs, event, leavers).ok <==> Safe(regs, event, leavers)
    ensures Safe(regs, event, leavers) ==> Deliver(regs, event, leavers).called == Turns(regs, event, leavers, 0)
  {
    DeliveryIs(regs, event, leavers, 0);
    assert regs[..0] == [] && regs[0..] == regs;
    assert Leaving([], event, leavers) == {};
    WithoutNothing(regs);
  }

  /** The node for the event is the last one that each leaver registered. */
  predicate RegisteredLast(regs: seq<Reg>, event: int, leavers: set<Listener>) {
    forall i, j :: 0 <= i < j < |regs| && regs[i].event == event && regs[i].obj in leavers ==>
      regs[j].obj != regs[i].obj
  }

  /** As IPA_LAN_DELETE_SELF is: registered last of all, it is safe to leave upon. */
  lemma LastIsSafe(regs: seq<Reg>, event: int, leavers: set<Listener>)
    requires RegisteredLast(regs, event, leavers)
    ensures Safe(regs, event, leavers)
  {
    forall i | 0 <= i < |regs| ensures SafeAt(regs, event, leavers, i) {
      var gone := Leaving(regs[..i], event, leavers);
      var next := Without(regs[i + 1..], gone);
      WithoutMembers(regs[i + 1..], gone);
      if HasTurn(regs, event, leavers, i) && regs[i].obj in leavers && next != [] {
        assert next[0] in next;
        var k :| 0 <= k < |regs[i + 1..]| && regs[i + 1..][k] == next[0];
        assert regs[i + 1 + k] == next[0];
      }
    }
  }

  /** Leaving upon an event that is not registered last is not safe: the remembered node is freed. */
  lemma LeavingEarlyFollowsFreedNode()
    ensures var regs := [Reg(1, 7), Reg(2, 7), Reg(1, 8)];
      !Safe(regs, 1, {7}) && Deliver(regs, 1, {7}) == Outcome(false, [7])
  {
    var regs := [Reg(1, 7), Reg(2, 7), Reg(1, 8)];
    assert regs[1..] == [Reg(2, 7), Reg(1, 8)];
    assert Deliver(regs, 1, {7}) == Outcome(false, [7]);
    DeliveryIsSafe(regs, 1, {7});
  }

  /** With one leaver the condition is about the very next node. */
  lemma OneLeaver(regs: seq<Reg>, event: int, o: Listener)
    ensures Safe(regs, event, {o}) <==>
      forall i :: 0 <= i < |regs| - 1 && regs[i] == Reg(event, o) && regs[i] !in regs[..i] ==> regs[i + 1].obj != o
  {
    forall i | 0 <= i < |regs|
      ensures SafeAt(regs, event, {o}, i) <==>
        (i < |regs| - 1 && regs[i] == Reg(event, o) && regs[i] !in regs[..i] ==> regs[i + 1].obj != o)
    {
      var gone := Leaving(regs[..i], event, {o});
      if HasTurn(regs, event, {o}, i) && regs[i].obj == o {
        assert !Registered(regs[..i], event, o);
        assert gone == {};
        WithoutNothing(regs[i + 1..]);
      } else if regs[i] == Reg(event, o) {
        assert Registered(regs[..i], event, o);
      }
    }
  }

  lemma {:induction false} TurnsCount(regs: seq<Reg>, event: int, leavers: set<Listener>, i: nat, o: Listener)
    requires i <= |regs|
    ensures multiset(Turns(regs, event, leavers, i))[o] ==
      if o in leavers then
        (if o !in Leaving(regs[..i], event, leavers) && Registered(regs[i..], event, o) then 1 else 0)
      else multiset(regs[i..])[Reg(event, o)]
    decreases |regs| - i
  {
    if i < |regs| {
      TurnsCount(regs, event, leavers, i + 1, o);
      LeavingGrows(regs, event, leavers, i);
      TurnsNext(regs, event, leavers, i, o);
      RestNext(regs, i, Reg(event, o));
      LeavingAreLeavers(regs[..i], event, leavers);
      hide Leaving, Turns, Registered;
    }
  }

  lemma TurnsNext(regs: seq<Reg>, event: int, leavers: set<Listener>, i: nat, o: Listener)
    requires i < |regs|
    ensures multiset(Turns(regs, event, leavers, i))[o] ==
      multiset(Turns(regs, event, leavers, i + 1))[o]
        + (if HasTurn(regs, event, leavers, i) && regs[i].obj == o then 1 else 0)
  {
    hide HasTurn;
    var first := if HasTurn(regs, event, leavers, i) then [regs[i].obj] else [];
    assert multiset(first + Turns(regs, event, leavers, i + 1)) ==
      multiset(first) + multiset(Turns(regs, event, leavers, i + 1));
  }

  lemma RestNext(regs: seq<Reg>, i: nat, r: Reg)
    requires i < |regs|
    ensures multiset(regs[i..])[r] == multiset(regs[i + 1..])[r] + (if regs[i] == r then 1 else 0)
    ensures Registered(regs[i..], r.event, r.obj) <==> regs[i] == r || Registered(regs[i + 1..], r.event, r.obj)
  {
    assert regs[i..] == [regs[i]] + regs[i + 1..];
  }

  lemma LeavingAreLeavers(regs: seq<Reg>, event: int, leavers: set<Listener>)
    ensures forall o :: o in Leaving(regs, event, leavers) ==> o in leavers
  {
  }

  /** Whoever stays is called once for each registration, whoever leaves exactly once if registered. */
  lemma EveryoneIsCalled(regs: seq<Reg>, event: int, leavers: set<Listener>, o: Listener)
    ensures multiset(Turns(regs, event, leavers, 0))[o] ==
      if o in leavers then (if Registered(regs, event, o) then 1 else 0) else multiset(regs)[Reg(event, o)]
  {
    TurnsCount(regs, event, leavers, 0, o);
    assert regs[0..] == regs && Leaving(regs[..0], event, leavers) == {};
  }
}
