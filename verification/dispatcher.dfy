/** IPACM_EvtDispatcher.cpp: the linked list of registrations, changed by pointer loops. */
module EvtDispatcher {
  import opened DispatchModel

  /** A node; `freed` says that its memory has been given back. */
  class CmdEvts {
    const event: int
    const obj: Listener
    var next: CmdEvts?
    var freed: bool

    constructor (event: int, obj: Listener)
      ensures this.event == event && this.obj == obj && next == null && !freed
    {
      this.event, this.obj, next, freed := event, obj, null, false;
    }
  }

  function Regs(nodes: seq<CmdEvts>): (r: seq<Reg>)
    ensures |r| == |nodes| && forall i :: 0 <= i < |r| ==> r[i] == Reg(nodes[i].event, nodes[i].obj)
  {
    seq(|nodes|, i requires 0 <= i < |nodes| => Reg(nodes[i].event, nodes[i].obj))
  }

  /** The nodes without those of listener o. */
  function Keep(nodes: seq<CmdEvts>, o: Listener): (r: seq<CmdEvts>)
    ensures |r| <= |nodes|
    ensures (forall n :: n in r ==> n in nodes && n.obj != o) && (forall n :: n in nodes && n.obj != o ==> n in r)
  {
    if nodes == [] then [] else (if nodes[0].obj == o then [] else [nodes[0]]) + Keep(nodes[1..], o)
  }

  lemma {:induction false} KeepRegs(nodes: seq<CmdEvts>, o: Listener)
    ensures Regs(Keep(nodes, o)) == Without(Regs(nodes), {o})
  {
    if nodes == [] {
    } else {
      KeepRegs(nodes[1..], o);
      assert Regs(nodes)[1..] == Regs(nodes[1..]);
      var first := if nodes[0].obj == o then [] else [nodes[0]];
      RegsConcat(first, Keep(nodes[1..], o));
    }
  }

  lemma RegsConcat(a: seq<CmdEvts>, b: seq<CmdEvts>)
    ensures Regs(a + b) == Regs(a) + Regs(b)
  {
  }

  lemma {:induction false} KeepConcat(a: seq<CmdEvts>, b: seq<CmdEvts>, o: Listener)
    ensures Keep(a + b, o) == Keep(a, o) + Keep(b, o)
  {
    if a == [] {
      assert a + b == b;
    } else {
      assert (a + b)[1..] == a[1..] + b;
      KeepConcat(a[1..], b, o);
    }
  }

  lemma KeepFirst(nodes: seq<CmdEvts>, o: Listener)
    requires nodes != []
    ensures Keep(nodes, o) == (if nodes[0].obj == o then [] else [nodes[0]]) + Keep(nodes[1..], o)
  {
  }

  /** The node at i, or null behind the last. */
  function At(nodes: seq<CmdEvts>, i: nat): CmdEvts? { if i < |nodes| then nodes[i] else null }

  predicate Once(nodes: seq<CmdEvts>) {
    forall i, j :: 0 <= i < j < |nodes| ==> nodes[i] != nodes[j]
  }

  class Dispatcher {
    var head: CmdEvts?
    ghost var nodes: seq<CmdEvts>
    ghost var repr: set<CmdEvts>  // every node there has been

    /** `nodes` is the list from head on: each node once, none freed, next pointing to the next one. */
    ghost predicate Valid()
      reads this, repr
    {
      && head == At(nodes, 0)
      && (forall n :: n in nodes ==> n in repr)
      && (forall n :: n in repr ==> n.freed == (n !in nodes))
      && (forall i, j :: 0 <= i < j < |nodes| && j == i + 1 ==> nodes[i].next == nodes[j])
      && (nodes != [] ==> nodes[|nodes| - 1].next == null)
      && Once(nodes)
    }

    constructor ()
      ensures Valid() && nodes == []
    {
      head, nodes, repr := null, [], {};
    }

    /** registr appends at the end. */
    method Registr(event: int, obj: Listener)
      requires Valid()
      modifies this, repr
      ensures Valid() && Regs(nodes) == old(Regs(nodes)) + [Reg(event, obj)]
      ensures fresh(repr - old(repr))
    {
      var nw := new CmdEvts(event, obj);
      if head == null {
        head := nw;
      } else {
        var tmp := head;
        ghost var i := 0;
        while tmp.next != null
          invariant 0 <= i < |nodes| && tmp == nodes[i] && tmp.next == At(nodes, i + 1)
          decreases |nodes| - i
        {
          tmp := tmp.next;
          i := i + 1;
        }
        tmp.next := nw;
      }
      nodes, repr := nodes + [nw], repr + {nw};
    }

    /** The step of deregistr for a node of the leaving listener; k is its place. */
    method Unlink(tmp: CmdEvts, prev: CmdEvts?, ghost k: nat) returns (next: CmdEvts?)
      requires Valid() && k < |nodes| && tmp == nodes[k] && (k > 0 ==> prev == nodes[k - 1])
      modifies this`head, this`nodes, repr
      ensures Valid() && nodes == old(nodes)[..k] + old(nodes)[k + 1..] && next == At(nodes, k)
    {
      hide Once;
      ghost var was := nodes;
      OnceDrop(was, k);
      assert k + 1 < |was| ==> tmp.next == was[k + 1];
      if tmp == head {
        head := head.next;
      } else if tmp.next == null {
        prev.next := null;
      } else {
        prev.next := tmp.next;
      }
      next := tmp.next;
      tmp.freed := true;
      nodes := was[..k] + was[k + 1..];
    }

    /** deregistr takes out and frees all nodes of a listener, and keeps the order of the others. */
    method Deregistr(param: Listener)
      requires Valid()
      modifies this`head, this`nodes, repr
      ensures Valid() && nodes == Keep(old(nodes), param)
      ensures forall n :: n in old(nodes) ==> n.freed == (n.obj == param)
    {
      hide Keep, Once, Valid;
      var tmp, prev := head, head;
      ghost var all, i, k := nodes, 0, 0;
      LinksOf(0);
      KeepNone(param);
      while tmp != null
        invariant Valid() && 0 <= i <= |all| && 0 <= k <= |nodes|
        invariant nodes[..k] == Keep(all[..i], param) && nodes[k..] == all[i..]
        invariant tmp == At(nodes, k) && (k > 0 ==> prev == nodes[k - 1])
        decreases |all| - i
      {
        KeepNext(all, i, param);
        LinksOf(k);
        assert tmp == all[i] by { assert nodes[k..][0] == all[i..][0]; }
        ghost var was := nodes;
        assert was[k + 1..] == all[i + 1..] by {
          assert was[k..][1..] == was[k + 1..] && all[i..][1..] == all[i + 1..];
        }
        if tmp.obj == param {
          tmp := Unlink(tmp, prev, k);
          Moved(was, k, nodes);
        } else {
          prev := tmp;
          tmp := tmp.next;
          k := k + 1;
          assert nodes[..k] == nodes[..k - 1] + [prev];
        }
        i := i + 1;
      }
      assert all[..i] == all;
      assert nodes[..k] == nodes;
      FreedOf(all);
    }

    lemma LinksOf(k: nat)
      requires Valid()
      ensures k < |nodes| ==> nodes[k].next == At(nodes, k + 1)
      ensures head == At(nodes, 0) && (forall n :: n in nodes ==> n in repr)
    {
    }

    lemma FreedOf(all: seq<CmdEvts>)
      requires Valid() && forall n :: n in all ==> n in repr
      ensures forall n :: n in all ==> n.freed == (n !in nodes)
    {
    }

    /** Delivers an event. The listeners in `leavers` deregister when they are called; the node after the one
        in its turn is remembered from before the call. False if a node is followed after it was freed. */
    method ProcessEvt(event: int, leavers: set<Listener>) returns (ok: bool, called: seq<Listener>)
      requires Valid()
      modifies this`head, this`nodes, repr
      ensures Valid()
      ensures ok <==> Safe(old(Regs(nodes)), event, leavers)
      ensures Outcome(ok, called) == Deliver(old(Regs(nodes)), event, leavers)
      ensures ok ==> called == Turns(old(Regs(nodes)), event, leavers, 0)
      ensures ok ==> Regs(nodes) == Without(old(Regs(nodes)), Leaving(old(Regs(nodes)), event, leavers))
    {
      hide Keep, Once, Regs, Without, Turns, Leaving, Safe, Deliver;
      ghost var regs, k, lost := Regs(nodes), 0, false;
      DeliveryIsSafe(regs, event, leavers);
      called := [];
      var tmp := head;
      StartOfDelivery(nodes, event, leavers);
      while tmp != null
        invariant Valid() && (tmp != null ==> tmp in repr)
        invariant lost ==> tmp != null && tmp.freed && Deliver(regs, event, leavers) == Outcome(false, called)
        invariant !lost ==>
          && 0 <= k <= |nodes| && tmp == At(nodes, k)
          && Deliver(regs, event, leavers) == Further(called, Deliver(Regs(nodes[k..]), event, leavers))
        invariant Regs(nodes) == Without(regs, Called(called, leavers))
        decreases if lost then 0 else 1, |nodes| - k
      {
        if tmp.freed { return false, called; }
        var obj, next := tmp.obj, tmp.next;
        ghost var was, sofar := nodes, called;
        DeliverNext(was, k, event, leavers, sofar);
        assert k + 1 < |was| ==> next == was[k + 1];
        if event == tmp.event {
          called := called + [obj];
          if obj in leavers {
            Deregistr(obj);
            LeavingNext(regs, was, k, sofar, obj, leavers);
            if next != null && next.obj == obj {
              lost := true;
            } else {
              KeepAround(was, k, obj);
              k := |Keep(was[..k], obj)|;
            }
          } else {
            CalledSame(sofar, obj, leavers);
            k := k + 1;
          }
        } else {
          k := k + 1;
        }
        tmp := next;
      }
      EndOfDelivery(nodes, event, leavers);
      CalledLeaving(regs, event, leavers);
      return true, called;
    }
  }

  function Further(called: seq<Listener>, o: Outcome): Outcome { o.(called := called + o.called) }

  /** The leavers among the listeners called so far. */
  function Called(called: seq<Listener>, leavers: set<Listener>): set<Listener> {
    set o | o in called && o in leavers
  }

  lemma StartOfDelivery(nodes: seq<CmdEvts>, event: int, leavers: set<Listener>)
    ensures Regs(nodes) == Without(Regs(nodes), Called([], leavers))
    ensures var o := Deliver(Regs(nodes[0..]), event, leavers); Further([], o) == o && nodes[0..] == nodes
  {
    assert nodes[0..] == nodes && Called([], leavers) == {};
    WithoutNothing(Regs(nodes));
  }

  lemma EndOfDelivery(nodes: seq<CmdEvts>, event: int, leavers: set<Listener>)
    ensures Deliver(Regs(nodes[|nodes|..]), event, leavers) == Outcome(true, [])
    ensures forall called :: Further(called, Outcome(true, [])) == Outcome(true, called)
  {
  }

  /** One step of Deliver, in terms of nodes. */
  lemma DeliverNext(nodes: seq<CmdEvts>, k: nat, event: int, leavers: set<Listener>, called: seq<Listener>)
    requires k < |nodes|
    ensures var n, o, rest := nodes[k], Further(called, Deliver(Regs(nodes[k..]), event, leavers)), nodes[k + 1..];
      if n.event != event then o == Further(called, Deliver(Regs(rest), event, leavers))
      else if n.obj !in leavers then o == Further(called + [n.obj], Deliver(Regs(rest), event, leavers))
      else if rest != [] && rest[0].obj == n.obj then o == Outcome(false, called + [n.obj])
      else o == Further(called + [n.obj], Deliver(Regs(Keep(rest, n.obj)), event, leavers))
  {
    hide Keep, Without, Further, Calling;
    var n, rest := nodes[k], nodes[k + 1..];
    var regs := Regs(nodes[k..]);
    assert regs[0] == Reg(n.event, n.obj) && regs[1..] == Regs(rest);
    KeepRegs(rest, n.obj);
    FurtherCalling(called, n.obj, Deliver(Regs(rest), event, leavers));
    FurtherCalling(called, n.obj, Deliver(Regs(Keep(rest, n.obj)), event, leavers));
    FurtherLost(called, n.obj);
  }

  lemma FurtherLost(called: seq<Listener>, obj: Listener)
    ensures Further(called, Outcome(false, [obj])) == Outcome(false, called + [obj])
  {
  }

  lemma FurtherCalling(called: seq<Listener>, obj: Listener, o: Outcome)
    ensures Further(called, Calling(obj, o)) == Further(called + [obj], o)
  {
    assert called + ([obj] + o.called) == (called + [obj]) + o.called;
  }

  lemma LeavingNext(regs: seq<Reg>, nodes: seq<CmdEvts>, k: nat, called: seq<Listener>, obj: Listener,
                    leavers: set<Listener>)
    requires Regs(nodes) == Without(regs, Called(called, leavers)) && obj in leavers
    ensures Regs(Keep(nodes, obj)) == Without(regs, Called(called + [obj], leavers))
  {
    KeepRegs(nodes, obj);
    WithoutTwice(regs, Called(called, leavers), {obj});
    assert Called(called + [obj], leavers) == Called(called, leavers) + {obj};
  }

  lemma CalledSame(called: seq<Listener>, obj: Listener, leavers: set<Listener>)
    requires obj !in leavers
    ensures Called(called + [obj], leavers) == Called(called, leavers)
  {
  }

  /** Where the node after the leaver's ends up. */
  lemma KeepAround(nodes: seq<CmdEvts>, k: nat, o: Listener)
    requires k < |nodes| && nodes[k].obj == o && (k + 1 < |nodes| ==> nodes[k + 1].obj != o)
    ensures var k', kept := |Keep(nodes[..k], o)|, Keep(nodes, o);
      k' <= |kept| && kept[k'..] == Keep(nodes[k + 1..], o) && At(kept, k') == At(nodes, k + 1)
      && |kept| - k' < |nodes| - k
  {
    hide Keep;
    var a, b := Keep(nodes[..k], o), Keep(nodes[k + 1..], o);
    assert nodes == (nodes[..k] + [nodes[k]]) + nodes[k + 1..];
    KeepConcat(nodes[..k] + [nodes[k]], nodes[k + 1..], o);
    KeepConcat(nodes[..k], [nodes[k]], o);
    KeepOne(nodes[k], o);
    assert Keep(nodes, o) == a + b && (a + b)[|a|..] == b;
    if k + 1 < |nodes| { KeepFirst(nodes[k + 1..], o); } else { KeepNone(o); }
  }

  lemma CalledLeaving(regs: seq<Reg>, event: int, leavers: set<Listener>)
    ensures Called(Turns(regs, event, leavers, 0), leavers) == Leaving(regs, event, leavers)
  {
    var turns := Turns(regs, event, leavers, 0);
    forall o | o in leavers ensures o in turns <==> Registered(regs, event, o) {
      EveryoneIsCalled(regs, event, leavers, o);
      assert o in turns <==> multiset(turns)[o] > 0;
    }
  }

  lemma Moved(was: seq<CmdEvts>, k: nat, now: seq<CmdEvts>)
    requires k < |was| && now == was[..k] + was[k + 1..]
    ensures now[..k] == was[..k] && now[k..] == was[k + 1..]
  {
  }

  lemma OnceDrop(was: seq<CmdEvts>, k: nat)
    requires Once(was) && k < |was|
    ensures var now := was[..k] + was[k + 1..];
      && Once(now) && |now| == |was| - 1
      && (forall j :: 0 <= j < |now| ==> now[j] == was[if j < k then j else j + 1])
      && (forall n :: n in now <==> n in was && n != was[k])
    ensures forall i :: 0 <= i < |was| && was[i] == was[k] ==> i == k
  {
    var now := was[..k] + was[k + 1..];
    forall n | n in was && n != was[k] ensures n in now {
      var i :| 0 <= i < |was| && was[i] == n;
      assert now[if i < k then i else i - 1] == n;
    }
  }

  lemma KeepNone(o: Listener)
    ensures Keep([], o) == []
  {
  }

  lemma KeepNext(nodes: seq<CmdEvts>, i: nat, o: Listener)
    requires i < |nodes|
    ensures Keep(nodes[..i + 1], o) == Keep(nodes[..i], o) + if nodes[i].obj == o then [] else [nodes[i]]
  {
    assert nodes[..i + 1] == nodes[..i] + [nodes[i]];
    KeepConcat(nodes[..i], [nodes[i]], o);
    KeepOne(nodes[i], o);
  }

  lemma KeepOne(n: CmdEvts, o: Listener)
    ensures Keep([n], o) == if n.obj == o then [] else [n]
  {
    assert [n][1..] == [];
  }
}
