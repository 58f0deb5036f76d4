/** The doubly linked list of linked_list.c: new elements at the head, the oldest at the tail. */
module LinkedLists {

  type Ptr = int
  const NULL: Ptr := 0

  datatype Err = Success | FailureGeneral | InvalidParameter | InvalidHandle | UnavailableResource | InsufficientBuffer

  /** What an element holds: the data and whether a deallocation function came with it. */
  datatype Item = Item(data: Ptr, dealloc: bool)

  class ListElement {
    var next: ListElement?
    var prev: ListElement?
    const item: Item

    constructor (item: Item)
      ensures this.item == item && next == null && prev == null
    {
      this.item, next, prev := item, null, null;
    }
  }

  function Items(nodes: seq<ListElement>): (r: seq<Item>)
    ensures |r| == |nodes| && forall i :: 0 <= i < |r| ==> r[i] == nodes[i].item
  {
    seq(|nodes|, i requires 0 <= i < |nodes| => nodes[i].item)
  }

  predicate Once(nodes: seq<ListElement>) {
    forall i, j :: 0 <= i < j < |nodes| ==> nodes[i] != nodes[j]
  }

  /** The data handed to their deallocation functions when the items are flushed, from the last one on. */
  function Freed(items: seq<Item>): seq<Ptr> {
    if items == [] then []
    else
      var last := items[|items| - 1];
      (if last.dealloc then [last.data] else []) + Freed(items[..|items| - 1])
  }

  lemma FreedNext(nodes: seq<ListElement>, k: nat)
    requires 0 < k <= |nodes|
    ensures var item := nodes[k - 1].item;
      Freed(Items(nodes[..k])) == (if item.dealloc then [item.data] else []) + Freed(Items(nodes[..k - 1]))
  {
    assert Items(nodes[..k])[..k - 1] == Items(nodes[..k - 1]);
  }

  lemma FreedNone(nodes: seq<ListElement>)
    requires nodes == []
    ensures Items(nodes) == [] && Freed(Items(nodes)) == []
  {
  }

  /** A single item's data is freed if there is a function to do it; */
  lemma FreedOne(item: Item)
    ensures Freed([item]) == if item.dealloc then [item.data] else []
  {
    assert [item][..0] == [];
  }

  /** and of several, the newer ones are freed before the older ones. */
  lemma {:induction false} FreedNewestFirst(older: seq<Item>, newer: seq<Item>)
    ensures Freed(older + newer) == Freed(newer) + Freed(older)
    decreases |newer|
  {
    if newer == [] {
      assert older + newer == older;
    } else {
      hide Freed;
      var n := |newer| - 1;
      FreedNewestFirst(older, newer[..n]);
      FreedLast(newer);
      FreedLast(older + newer);
      assert (older + newer)[..|older| + n] == older + newer[..n];
    }
  }

  lemma FreedLast(items: seq<Item>)
    requires items != []
    ensures var last := items[|items| - 1];
      Freed(items) == (if last.dealloc then [last.data] else []) + Freed(items[..|items| - 1])
  {
  }

  lemma OnceNone()
    ensures Once([])
  {
  }

  /** The last item whose data is accepted, or -1. */
  function LastMatch(items: seq<Item>, equal: Ptr -> bool): (i: int)
    ensures -1 <= i < |items|
    ensures i >= 0 ==> equal(items[i].data)
    ensures forall j :: i < j < |items| ==> !equal(items[j].data)
  {
    if items == [] then -1
    else if equal(items[|items| - 1].data) then |items| - 1
    else LastMatch(items[..|items| - 1], equal)
  }

  lemma IsLastMatch(items: seq<Item>, equal: Ptr -> bool, i: int)
    requires -1 <= i < |items| && (i >= 0 ==> equal(items[i].data))
    requires forall j :: i < j < |items| ==> !equal(items[j].data)
    ensures LastMatch(items, equal) == i
  {
  }

  function Drop<T>(s: seq<T>, i: int): seq<T>
    requires 0 <= i < |s|
  {
    s[..i] + s[i + 1..]
  }

  class LinkedList {
    var head: ListElement?
    var tail: ListElement?
    ghost var nodes: seq<ListElement>  // from the tail to the head
    ghost var repr: set<ListElement>
    ghost var deallocated: seq<Ptr>

    /** next leads from the head to the tail through all nodes, prev back, and no node is met twice. */
    ghost predicate Valid()
      reads this, repr
    {
      && (forall n :: n in nodes ==> n in repr)
      && Once(nodes)
      && (forall i, j :: 0 <= i < j < |nodes| && j == i + 1 ==> nodes[j].next == nodes[i] && nodes[i].prev == nodes[j])
      && (if nodes == [] then head == null && tail == null
          else
            && tail == nodes[0] && tail.next == null
            && head == nodes[|nodes| - 1] && head.prev == null)
    }

    ghost function Contents(): seq<Item>
      reads this
    {
      Items(nodes)
    }

    constructor ()
      ensures Valid() && Contents() == [] && deallocated == [] && repr == {}
    {
      head, tail, nodes, repr, deallocated := null, null, [], {}, [];
    }

    method Add(data: Ptr, dealloc: bool) returns (err: Err)
      requires Valid()
      modifies this, repr
      ensures Valid() && fresh(repr - old(repr)) && deallocated == old(deallocated)
      ensures err == (if data == NULL then InvalidParameter else Success)
      ensures Contents() == if data == NULL then old(Contents()) else old(Contents()) + [Item(data, dealloc)]
    {
      if data == NULL { return InvalidParameter; }
      var elem := new ListElement(Item(data, dealloc));
      var tmp := head;
      head := elem;
      head.next := tmp;
      if tmp != null {
        tmp.prev := head;
      } else {
        tail := head;
      }
      nodes, repr := nodes + [elem], repr + {elem};
      return Success;
    }

    method Remove() returns (err: Err, data: Ptr)
      requires Valid()
      modifies this, repr
      ensures Valid() && repr == old(repr) && deallocated == old(deallocated)
      ensures err == (if old(Contents()) == [] then UnavailableResource else Success)
      ensures old(Contents()) != [] ==> data == old(Contents())[0].data && Contents() == old(Contents())[1..]
      ensures old(Contents()) == [] ==> Contents() == []
    {
      if tail == null { return UnavailableResource, NULL; }
      var tmp := tail;
      assert |nodes| > 1 ==> nodes[0].prev == nodes[1];
      tail := tmp.prev;
      if tail != null {
        tail.next := null;
      } else {
        head := tail;
      }
      data := tmp.item.data;
      ghost var was := nodes;
      nodes := nodes[1..];
      assert forall i :: 0 <= i < |nodes| ==> nodes[i] == was[i + 1];
      return Success, data;
    }

    method Empty() returns (r: bool)
      requires Valid()
      ensures r <==> Contents() == []
    {
      r := head == null;
    }

    /** Every element goes, the newest first, each one's data deallocated if it is to be. */
    method Flush() returns (err: Err)
      requires Valid()
      modifies this
      ensures Valid() && Contents() == [] && repr == old(repr) && err == Success
      ensures deallocated == old(deallocated) + Freed(old(Contents()))
    {
      hide Freed, Items, Once;
      ghost var k := |nodes|;
      assert nodes[..k] == nodes;
      while head != null
        invariant 0 <= k <= |nodes| && nodes == old(nodes) && repr == old(repr)
        invariant head == if k == 0 then null else nodes[k - 1]
        invariant old(deallocated) + Freed(Items(nodes)) == deallocated + Freed(Items(nodes[..k]))
        decreases k
      {
        assert k > 1 ==> nodes[k - 1].next == nodes[k - 2];
        FreedNext(nodes, k);
        var tmp := head.next;
        if head.item.dealloc {
          deallocated := deallocated + [head.item.data];
        }
        head := tmp;
        k := k - 1;
      }
      FreedNone(nodes[..0]);
      OnceNone();
      tail := null;
      nodes := [];
      return Success;
    }

    /** Looks from the head for the first match; wanted says whether the caller asks for the data. On an
        empty list nothing is reported, not even that there is no match. */
    method Search(equal: Ptr -> bool, wanted: bool, remove: bool) returns (err: Err, data: Ptr)
      requires Valid()
      modifies this, repr
      ensures Valid() && repr == old(repr)
      ensures err == (if old(Contents()) == [] then UnavailableResource else Success)
      ensures var i := LastMatch(old(Contents()), equal);
        && data == (if i >= 0 && wanted then old(Contents())[i].data else NULL)
        && Contents() == (if i >= 0 && remove then Drop(old(Contents()), i) else old(Contents()))
        && deallocated == old(deallocated) +
             (if i >= 0 && remove && !wanted && old(Contents())[i].dealloc then [old(Contents())[i].data] else [])
    {
      hide LastMatch, Drop, Items;
      data := NULL;
      if tail == null { return UnavailableResource, data; }
      var tmp := head;
      ghost var k := |nodes| - 1;
      while tmp != null
        invariant Valid() && nodes == old(nodes) && deallocated == old(deallocated) && repr == old(repr)
        invariant -1 <= k < |nodes| && tmp == (if k < 0 then null else nodes[k])
        invariant forall j :: k < j < |nodes| ==> !equal(nodes[j].item.data)
        invariant data == NULL
        decreases k
      {
        if equal(tmp.item.data) {
          IsLastMatch(Items(nodes), equal, k);
          if wanted { data := tmp.item.data; }
          if remove {
            Unlink(tmp, k);
            if !wanted && tmp.item.dealloc {
              deallocated := deallocated + [tmp.item.data];
            }
          }
          return Success, data;
        } else {
          assert k > 0 ==> nodes[k].next == nodes[k - 1];
          tmp := tmp.next;
          k := k - 1;
        }
      }
      IsLastMatch(Items(nodes), equal, -1);
      return Success, data;
    }

    /** The removal of a found element, at place k, from anywhere in the list. */
    method Unlink(tmp: ListElement, ghost k: nat)
      requires Valid() && k < |nodes| && tmp == nodes[k]
      modifies this`head, this`tail, this`nodes, repr
      ensures Valid() && nodes == Drop(old(nodes), k)
      ensures Contents() == Drop(old(Contents()), k)
    {
      hide Once, Drop, Items;
      OnceDrop(nodes, k);
      assert k > 0 ==> tmp.next == nodes[k - 1];
      assert k + 1 < |nodes| ==> tmp.prev == nodes[k + 1];
      if tmp.prev == null {
        head := tmp.next;
      } else {
        tmp.prev.next := tmp.next;
      }
      if tmp.next == null {
        tail := tmp.prev;
      } else {
        tmp.next.prev := tmp.prev;
      }
      tmp.prev, tmp.next := null, null;
      nodes := Drop(nodes, k);
    }
  }

  lemma OnceDrop(was: seq<ListElement>, k: nat)
    requires Once(was) && k < |was|
    ensures var now := Drop(was, k);
      && Once(now) && |now| == |was| - 1
      && (forall j :: 0 <= j < |now| ==> now[j] == was[if j < k then j else j + 1])
      && (forall n :: n in now ==> n in was)
      && Items(now) == Drop(Items(was), k)
    ensures forall i :: 0 <= i < |was| && was[i] == was[k] ==> i == k
  {
  }
}
