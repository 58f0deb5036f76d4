/** Time values of LocTimer.cpp and the loop that expires timers. */
module Timers {
  import opened HeapModel
  import opened LocHeapImpl

  // ---------- struct timespec ----------

  const NANOS := 1000000000
  const TWO32 := 0x1_0000_0000
  const TWO31 := 0x8000_0000

  datatype Timespec = Timespec(sec: int, nsec: int)

  predicate Normal(t: Timespec) { 0 <= t.sec && 0 <= t.nsec < NANOS }

  function Nanos(t: Timespec): int { t.sec * NANOS + t.nsec }

  /** Conversion to a 32-bit signed int. */
  function ToInt32(x: int): int {
    var m := x % TWO32;
    if m < TWO31 then m else m - TWO32
  }

  /** LocTimerDelegate::ranks */
  function Ranks(self: Timespec, other: Timespec): int {
    var rank := ToInt32(other.sec - self.sec);
    if rank == 0 then ToInt32(other.nsec - self.nsec) else rank
  }

  /** Whether the 32-bit difference of the seconds keeps the sign of the true difference. */
  predicate SignKept(d: int) {
    (d > 0 ==> 0 < d % TWO32 < TWO31) && (d < 0 ==> TWO31 <= d % TWO32)
  }

  /** Whether whole multiples of 2^32 seconds vanish, and the nanoseconds happen to decide alike. */
  predicate Lucky(a: Timespec, b: Timespec) {
    var d := b.sec - a.sec;
    d != 0 && d % TWO32 == 0 && (if d > 0 then a.nsec < b.nsec else b.nsec < a.nsec)
  }

  /** ranks compares two times correctly. */
  predicate RanksRight(a: Timespec, b: Timespec) {
    (Ranks(a, b) > 0 <==> Nanos(a) < Nanos(b)) && (Ranks(a, b) == 0 <==> a == b)
  }

  /** For normalised times, ranks orders by time exactly when the seconds' difference keeps its sign, or by
      luck; it does keep it below 2^31 seconds. */
  lemma RanksIsTimeOrder(a: Timespec, b: Timespec)
    requires Normal(a) && Normal(b)
    ensures RanksRight(a, b) <==> SignKept(b.sec - a.sec) || Lucky(a, b)
    ensures -TWO31 < b.sec - a.sec < TWO31 ==> SignKept(b.sec - a.sec)
  {
    var d := b.sec - a.sec;
    SecondsDecide(a, b);
    SmallDifference(b.nsec - a.nsec);
    assert 0 <= d % TWO32 < TWO32;
    if -TWO31 < d < TWO31 { SmallDifference(d); }
  }

  lemma SecondsDecide(a: Timespec, b: Timespec)
    requires Normal(a) && Normal(b)
    ensures b.sec > a.sec ==> Nanos(a) < Nanos(b)
    ensures b.sec < a.sec ==> Nanos(b) < Nanos(a)
    ensures b.sec == a.sec ==> Nanos(b) - Nanos(a) == b.nsec - a.nsec
  {
    assert Nanos(b) - Nanos(a) == (b.sec - a.sec) * NANOS + (b.nsec - a.nsec);
  }

  lemma SmallDifference(d: int)
    requires -TWO31 < d < TWO31
    ensures ToInt32(d) == d && d % TWO32 == if d < 0 then d + TWO32 else d
  {
    if d < 0 { assert (d + TWO32) % TWO32 == d % TWO32; }
  }

  /** Beyond that span the order breaks: a timer due 2^31 seconds later is ranked as earlier. */
  lemma RanksWraps()
    ensures Ranks(Timespec(0, 0), Timespec(TWO31, 0)) < 0 && Nanos(Timespec(0, 0)) < Nanos(Timespec(TWO31, 0))
  {
  }

  /** The due time computed by LocTimer::start. */
  function FutureTime(now: Timespec, timeOutInMs: int): Timespec {
    var sec, nsec := now.sec + timeOutInMs / 1000, now.nsec + timeOutInMs % 1000 * 1000000;
    if nsec >= NANOS then Timespec(sec + nsec / NANOS, nsec % NANOS) else Timespec(sec, nsec)
  }

  /** For every 32-bit timeout, start computes exactly now plus the timeout, normalised, and no
      intermediate value leaves the 32-bit range (the product is unsigned, the sum signed). */
  lemma FutureTimeIsExact(now: Timespec, timeOutInMs: int)
    requires Normal(now) && 0 <= timeOutInMs < TWO32
    ensures Normal(FutureTime(now, timeOutInMs))
    ensures Nanos(FutureTime(now, timeOutInMs)) == Nanos(now) + timeOutInMs * 1000000
    ensures 0 <= timeOutInMs % 1000 * 1000000 < TWO32 && 0 <= now.nsec + timeOutInMs % 1000 * 1000000 < TWO31
  {
    var q, m := timeOutInMs / 1000, timeOutInMs % 1000;
    assert timeOutInMs == 1000 * q + m;
    var nsec := now.nsec + m * 1000000;
    if nsec >= NANOS { assert nsec / NANOS == 1 && nsec % NANOS == nsec - NANOS; }
  }

  // ---------- LocTimerContainer::expire ----------

  /** A LocTimerDelegate in a container: its identity and due time in nanoseconds. */
  datatype Timer = Timer(id: nat, due: int)

  predicate Earlier(a: Timer, b: Timer) { a.due < b.due }

  lemma EarlierRanks()
    ensures Ranking(Earlier)
  {
  }

  ghost predicate InDueOrder(ts: seq<Timer>) {
    forall i, j :: 0 <= i < j < |ts| ==> ts[i].due <= ts[j].due
  }

  /** popIfOutRanks: pops the top unless `now` outranks it, that is, unless it is in the future. */
  method PopIfOutRanks(heap: LocHeap<Timer>, now: int) returns (timer: Option<Timer>)
    requires heap.Valid()
    modifies heap, ReprOf(heap.root)
    ensures heap.Valid() && heap.Repr() <= old(heap.Repr())
    ensures timer.None? ==> heap.Tree() == old(heap.Tree()) && (heap.Tree().Node? ==> now < heap.Tree().data.due)
    ensures timer.Some? ==>
      && old(heap.Tree()).Node? && timer.value == old(heap.Tree()).data && timer.value.due <= now
      && heap.Tree() == Popped(old(heap.Tree()), Earlier)
  {
    timer := None;
    var top := heap.Peek();
    if top.Some? && !(now < top.value.due) {
      timer := heap.Pop(Earlier);
    }
  }

  lemma PopTop(t: Tree<Timer>)
    requires t.Node? && Heap(t, Earlier)
    ensures Heap(Popped(t, Earlier), Earlier)
    ensures Items(t) == Items(Popped(t, Earlier)) + multiset{t.data}
    ensures forall x :: x in Items(t) ==> t.data.due <= x.due
  {
    EarlierRanks();
    PopRemovesTop(t, Earlier);
    TopOutranksAll(t, Earlier);
  }

  function Opt(timer: Option<Timer>): multiset<Timer> {
    if timer.Some? then multiset{timer.value} else multiset{}
  }

  /** The loop of expire: of the heap t at entry, `fired` have been popped before `timer`, and `rest` is left. */
  ghost predicate Expiring(t: Tree<Timer>, fired: seq<Timer>, timer: Option<Timer>, rest: Tree<Timer>, now: int) {
    && Heap(rest, Earlier)
    && multiset(fired) + Opt(timer) + Items(rest) == Items(t)
    && InDueOrder(fired)
    && (timer.Some? ==> forall x :: x in Items(rest) ==> timer.value.due <= x.due)
    && (timer.Some? ==> forall i :: 0 <= i < |fired| ==> fired[i].due <= timer.value.due)
    && (timer.None? ==> forall x :: x in Items(rest) ==> now < x.due)
    && (t.Node? && fired == [] ==> timer == Some(t.data))
    && (timer.Some? ==> t.Node?)
    && (fired != [] ==> t.Node? && fired[0] == t.data && (timer.Some? ==> timer.value.due <= now))
    && (forall i :: 1 <= i < |fired| ==> fired[i].due <= now)
  }

  lemma ExpireNothing(t: Tree<Timer>, now: int)
    requires t.Nil?
    ensures Expiring(t, [], None, t, now)
  {
  }

  lemma ExpireStarts(t: Tree<Timer>, now: int)
    requires Heap(t, Earlier) && t.Node?
    ensures Expiring(t, [], Some(t.data), Popped(t, Earlier), now)
  {
    hide Popped, Ordered, Sized, Items;
    PopTop(t);
    var rest := Items(Popped(t, Earlier));
    assert multiset([]) + multiset{t.data} + rest == rest + multiset{t.data};
    assert forall x :: x in rest ==> x in Items(t);
  }

  lemma ExpireStops(t: Tree<Timer>, fired: seq<Timer>, timer: Timer, rest: Tree<Timer>, now: int)
    requires Expiring(t, fired, Some(timer), rest, now)
    requires rest.Node? ==> now < rest.data.due
    ensures Expiring(t, fired + [timer], None, rest, now)
  {
    NothingDue(rest, now);
    hide Ordered, Sized, Items;
    assert multiset(fired + [timer]) == multiset(fired) + multiset{timer};
  }

  lemma NothingDue(rest: Tree<Timer>, now: int)
    requires Heap(rest, Earlier) && (rest.Node? ==> now < rest.data.due)
    ensures forall x :: x in Items(rest) ==> now < x.due
  {
    if rest.Node? { PopTop(rest); }
  }

  lemma ExpireGoesOn(t: Tree<Timer>, fired: seq<Timer>, timer: Timer, rest: Tree<Timer>, now: int)
    requires Expiring(t, fired, Some(timer), rest, now)
    requires rest.Node? && rest.data.due <= now
    ensures Expiring(t, fired + [timer], Some(rest.data), Popped(rest, Earlier), now)
    ensures |Items(Popped(rest, Earlier))| < |Items(rest)|
  {
    hide Popped, Ordered, Sized, Items;
    PopTop(rest);
    var left := Items(Popped(rest, Earlier));
    assert Items(rest) == left + multiset{rest.data};
    assert multiset(fired) + multiset{timer} + multiset{rest.data} + left ==
      multiset(fired) + multiset{timer} + Items(rest);
    assert forall x :: x in left ==> x in Items(rest);
    assert multiset(fired + [timer]) == multiset(fired) + multiset{timer};
    assert rest.data in Items(rest);
  }

  /** Handling an Expire message: pops the top unconditionally, then everything due by now. The timers
      come out in due order, everything left is in the future, and no timer comes out before its time
      exactly when the top was due at entry. */
  method ProcessExpire(heap: LocHeap<Timer>, now: int) returns (fired: seq<Timer>)
    requires heap.Valid() && Heap(heap.Tree(), Earlier)
    modifies heap, ReprOf(heap.root)
    ensures heap.Valid() && Heap(heap.Tree(), Earlier)
    ensures multiset(fired) + Items(heap.Tree()) == Items(old(heap.Tree()))
    ensures InDueOrder(fired)
    ensures forall x :: x in Items(heap.Tree()) ==> now < x.due
    ensures old(heap.Tree()).Node? ==> fired != [] && fired[0] == old(heap.Tree()).data
    ensures forall i :: 1 <= i < |fired| ==> fired[i].due <= now
    ensures (forall i :: 0 <= i < |fired| ==> fired[i].due <= now) <==>
      (old(heap.Tree()).Nil? || old(heap.Tree()).data.due <= now)
  {
    hide Ordered, Sized, Items, Popped, InDueOrder, Opt;
    ghost var t := heap.Tree();
    if t.Nil? { ExpireNothing(t, now); } else { ExpireStarts(t, now); }
    fired := [];
    var timer := heap.Pop(Earlier);
    while timer.Some?
      invariant heap.Valid() && heap.Repr() <= old(heap.Repr())
      invariant Expiring(t, fired, timer, heap.Tree(), now)
      decreases timer.Some?, |Items(heap.Tree())|
    {
      ghost var rest := heap.Tree();
      var popped := timer.value;
      timer := PopIfOutRanks(heap, now);
      if timer.None? { ExpireStops(t, fired, popped, rest, now); } else { ExpireGoesOn(t, fired, popped, rest, now); }
      fired := fired + [popped];
    }
    ExpireDone(t, fired, heap.Tree(), now);
  }

  lemma ExpireDone(t: Tree<Timer>, fired: seq<Timer>, rest: Tree<Timer>, now: int)
    requires Expiring(t, fired, None, rest, now)
    ensures multiset(fired) + Items(rest) == Items(t)
    ensures (forall i :: 0 <= i < |fired| ==> fired[i].due <= now) <==> (t.Nil? || t.data.due <= now)
  {
    assert multiset(fired) + multiset{} == multiset(fired);
    if fired != [] { assert fired[0].due <= now <==> t.data.due <= now; }
  }
}
