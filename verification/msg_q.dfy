/** The message queue of msg_q.c over the linked list. A receive that has to wait is two calls: RcvStart, and
    RcvFinish when the wait is over; between them other threads have the mutex. */
module MsgQueue {
  import opened LinkedLists

  // ---------- What became of the accepted messages ----------

  /** fates[i] says whether the i-th accepted message was received; if not, it was flushed. */
  ghost function Received(accepted: seq<Item>, fates: seq<bool>): seq<Ptr>
    requires |fates| <= |accepted|
  {
    if fates == [] then []
    else
      var n := |fates| - 1;
      Received(accepted, fates[..n]) + (if fates[n] then [accepted[n].data] else [])
  }

  /** The data of the flushed messages that were to be deallocated. */
  ghost function Flushed(accepted: seq<Item>, fates: seq<bool>): multiset<Ptr>
    requires |fates| <= |accepted|
  {
    if fates == [] then multiset{}
    else
      var n := |fates| - 1;
      Flushed(accepted, fates[..n])
        + (if !fates[n] && accepted[n].dealloc then multiset{accepted[n].data} else multiset{})
  }

  /** The data of the flushed messages that came without a deallocation function. */
  ghost function Abandoned(accepted: seq<Item>, fates: seq<bool>): multiset<Ptr>
    requires |fates| <= |accepted|
  {
    if fates == [] then multiset{}
    else
      var n := |fates| - 1;
      Abandoned(accepted, fates[..n])
        + (if !fates[n] && !accepted[n].dealloc then multiset{accepted[n].data} else multiset{})
  }

  function Data(items: seq<Item>): (r: seq<Ptr>)
    ensures |r| == |items| && forall i :: 0 <= i < |r| ==> r[i] == items[i].data
  {
    seq(|items|, i requires 0 <= i < |items| => items[i].data)
  }

  lemma {:induction false} LaterMessagesDoNotMatter(accepted: seq<Item>, more: seq<Item>, fates: seq<bool>)
    requires |fates| <= |accepted|
    ensures Received(accepted + more, fates) == Received(accepted, fates)
    ensures Flushed(accepted + more, fates) == Flushed(accepted, fates)
    decreases |fates|
  {
    if fates != [] { LaterMessagesDoNotMatter(accepted, more, fates[..|fates| - 1]); }
  }

  lemma OneMore(accepted: seq<Item>, fates: seq<bool>, fate: bool)
    requires |fates| < |accepted|
    ensures Received(accepted, fates + [fate]) ==
      Received(accepted, fates) + (if fate then [accepted[|fates|].data] else [])
    ensures Flushed(accepted, fates + [fate]) ==
      Flushed(accepted, fates)
        + (if !fate && accepted[|fates|].dealloc then multiset{accepted[|fates|].data} else multiset{})
  {
    assert (fates + [fate])[..|fates|] == fates;
  }

  lemma TakeOne(accepted: seq<Item>, fates: seq<bool>, rest: seq<Item>)
    requires |fates| <= |accepted| && rest == accepted[|fates|..] && rest != []
    ensures rest[0] == accepted[|fates|] && rest[1..] == accepted[|fates| + 1..]
    ensures Received(accepted, fates + [true]) == Received(accepted, fates) + [rest[0].data]
    ensures Flushed(accepted, fates + [true]) == Flushed(accepted, fates)
  {
    OneMore(accepted, fates, true);
    assert Flushed(accepted, fates) + multiset{} == Flushed(accepted, fates);
  }

  function AllLost(n: nat): (r: seq<bool>)
    ensures |r| == n
  {
    seq(n, _ => false)
  }

  /** Flushing the whole rest: nothing more is received, and what Freed says is deallocated. */
  lemma {:induction false} FlushRest(accepted: seq<Item>, fates: seq<bool>, n: nat)
    requires |fates| + n <= |accepted|
    ensures Received(accepted, fates + AllLost(n)) == Received(accepted, fates)
    ensures Flushed(accepted, fates + AllLost(n)) ==
      Flushed(accepted, fates) + multiset(Freed(accepted[|fates|..|fates| + n]))
  {
    hide Received, Flushed, Freed;
    if n == 0 {
      assert fates + AllLost(0) == fates;
      FreedNothing();
      assert accepted[|fates|..|fates| + n] == [];
      assert Flushed(accepted, fates) + multiset{} == Flushed(accepted, fates);
    } else {
      FlushRest(accepted, fates, n - 1);
      FlushStep(accepted, fates, n);
      RestStep(accepted, |fates|, n);
    }
  }

  lemma FreedNothing()
    ensures Freed([]) == [] && multiset(Freed([])) == multiset{}
  {
  }

  lemma FlushStep(accepted: seq<Item>, fates: seq<bool>, n: nat)
    requires n > 0 && |fates| + n <= |accepted|
    ensures Received(accepted, fates + AllLost(n)) == Received(accepted, fates + AllLost(n - 1))
    ensures var item := accepted[|fates| + n - 1];
      Flushed(accepted, fates + AllLost(n)) ==
        Flushed(accepted, fates + AllLost(n - 1)) + (if item.dealloc then multiset{item.data} else multiset{})
  {
    hide Received, Flushed;
    var before := fates + AllLost(n - 1);
    assert before + [false] == fates + AllLost(n);
    hide AllLost;
    OneMore(accepted, before, false);
    assert Received(accepted, before) + [] == Received(accepted, before);
  }

  lemma RestStep(accepted: seq<Item>, from: nat, n: nat)
    requires n > 0 && from + n <= |accepted|
    ensures var item, rest, most := accepted[from + n - 1], accepted[from..from + n], accepted[from..from + (n - 1)];
      multiset(Freed(rest)) == multiset(Freed(most)) + (if item.dealloc then multiset{item.data} else multiset{})
  {
    hide Freed;
    var rest := accepted[from..from + n];
    assert rest[..n - 1] == accepted[from..from + (n - 1)];
    FreedLast(rest);
  }

  lemma FreedLast(items: seq<Item>)
    requires items != []
    ensures var last := items[|items| - 1];
      multiset(Freed(items)) ==
        multiset(Freed(items[..|items| - 1])) + (if last.dealloc then multiset{last.data} else multiset{})
  {
    var last := items[|items| - 1];
    var first := if last.dealloc then [last.data] else [];
    assert multiset(first + Freed(items[..|items| - 1])) == multiset(first) + multiset(Freed(items[..|items| - 1]));
  }

  /** Each accepted message is received once, or deallocated once, or dropped if it came without a deallocation
      function, or still queued, and no two of these. */
  lemma {:induction false} NothingLostOrDoubled(accepted: seq<Item>, fates: seq<bool>)
    requires |fates| <= |accepted|
    ensures multiset(Received(accepted, fates)) + Flushed(accepted, fates) + Abandoned(accepted, fates)
      + multiset(Data(accepted[|fates|..]))
      == multiset(Data(accepted))
    decreases |fates|
  {
    if fates == [] {
      assert accepted[0..] == accepted;
    } else {
      var n := |fates| - 1;
      NothingLostOrDoubled(accepted, fates[..n]);
      var was, now := Data(accepted[n..]), Data(accepted[n + 1..]);
      assert was == [accepted[n].data] + now;
      var r, f, a := Received(accepted, fates[..n]), Flushed(accepted, fates[..n]), Abandoned(accepted, fates[..n]);
      OneFate(r, f, a, multiset(now), accepted[n], fates[n]);
    }
  }

  /** Whatever its fate, a message leaves the queue for exactly one of the three places. */
  lemma OneFate(r: seq<Ptr>, f: multiset<Ptr>, a: multiset<Ptr>, rest: multiset<Ptr>, item: Item, fate: bool)
    ensures var d := multiset{item.data};
      multiset(r + if fate then [item.data] else []) + (f + if !fate && item.dealloc then d else multiset{})
        + (a + if !fate && !item.dealloc then d else multiset{}) + rest == multiset(r) + f + a + (d + rest)
  {
  }

  /** msg_q; its error codes are the list's, which the source converts one by one. */
  class MsgQ {
    const list: LinkedList
    var unblocked: bool
    ghost var accepted: seq<Item>
    ghost var fates: seq<bool>
    ghost var received: seq<Ptr>

    /** The list holds the accepted messages that have no fate yet, oldest first; everything received was
        received in the order of sending, and everything flushed was deallocated once. */
    ghost predicate Valid()
      reads this, list, list.repr
    {
      && list.Valid()
      && |fates| <= |accepted|
      && list.Contents() == accepted[|fates|..]
      && received == Received(accepted, fates)
      && multiset(list.deallocated) == Flushed(accepted, fates)
    }

    constructor ()
      ensures Valid() && !unblocked && accepted == [] && fresh(list) && fresh(list.repr)
    {
      list := new LinkedList();
      unblocked, accepted, fates, received := false, [], [], [];
    }

    method Snd(data: Ptr, dealloc: bool) returns (err: Err)
      requires Valid()
      modifies this, list, list.repr
      ensures Valid() && unblocked == old(unblocked) && fresh(list.repr - old(list.repr))
      ensures err == if data == NULL then InvalidParameter else if unblocked then UnavailableResource else Success
      ensures accepted == old(accepted) + (if err == Success then [Item(data, dealloc)] else [])
      ensures fates == old(fates) && received == old(received)
    {
      if data == NULL { return InvalidParameter; }
      if unblocked { return UnavailableResource; }
      ghost var item := Item(data, dealloc);
      err := list.Add(data, dealloc);
      LaterMessagesDoNotMatter(accepted, [item], fates);
      assert (accepted + [item])[|fates|..] == accepted[|fates|..] + [item];
      accepted := accepted + [item];
    }

    /** The first part of a receive: not let in once the queue has been unblocked. */
    method RcvStart() returns (err: Err)
      requires Valid()
      ensures (err == Success <==> !unblocked) && (err != Success ==> err == UnavailableResource)
    {
      return if unblocked then UnavailableResource else Success;
    }

    /** The second part: there is a message, or the queue was unblocked while waiting. */
    method RcvFinish() returns (err: Err, data: Ptr)
      requires Valid() && (unblocked || |fates| < |accepted|)
      modifies this, list, list.repr
      ensures Valid() && unblocked == old(unblocked) && accepted == old(accepted) && list.repr == old(list.repr)
      ensures err == if |old(fates)| < |accepted| then Success else UnavailableResource
      ensures err == Success ==>
        data == accepted[|old(fates)|].data && fates == old(fates) + [true] && received == old(received) + [data]
      ensures err != Success ==> fates == old(fates) && received == old(received)
    {
      hide Received, Flushed, Items;
      ghost var rest := list.Contents();
      err, data := list.Remove();
      if err == Success {
        TakeOne(accepted, fates, rest);
        received, fates := received + [data], fates + [true];
      }
    }

    /** All queued messages are dropped. */
    method Flush() returns (err: Err)
      requires Valid()
      modifies this, list
      ensures Valid() && err == Success && unblocked == old(unblocked) && list.repr == old(list.repr)
      ensures accepted == old(accepted) && |fates| == |accepted| && old(fates) <= fates && received == old(received)
    {
      hide Freed, Received, Flushed, AllLost;
      ghost var n, contents, freed := |accepted| - |fates|, list.Contents(), list.deallocated;
      err := list.Flush();
      assert accepted[|fates|..|fates| + n] == contents;
      FlushRest(accepted, fates, n);
      assert multiset(freed + Freed(contents)) == multiset(freed) + multiset(Freed(contents));
      fates := fates + AllLost(n);
    }

    /** From now on no send is accepted and no new receive let in; the waiting ones may finish. */
    method Unblock() returns (err: Err)
      requires Valid()
      modifies `unblocked
      ensures Valid() && unblocked
      ensures err == if old(unblocked) then UnavailableResource else Success
    {
      if unblocked { return UnavailableResource; }
      unblocked := true;
      return Success;
    }
  }
}
