/** The heap of LocHeap.cpp as a function of trees: what push, pop and remove do to the shape and the data. */
module HeapModel {

  /** Strict ranking: r(x, y) says x outranks y. */
  type Rank<!T> = (T, T) -> bool

  /** `ranks` is a total preorder: outranking is irreflexive, transitive and negatively transitive. */
  ghost predicate Ranking<T(!new)>(r: Rank<T>) {
    && (forall x :: !r(x, x))
    && (forall x, y, z :: r(x, y) && r(y, z) ==> r(x, z))
    && (forall x, y, z :: !r(x, y) && !r(y, z) ==> !r(x, z))
  }

  datatype Tree<T> = Nil | Node(size: int, left: Tree<T>, data: T, right: Tree<T>)

  function Size<T>(t: Tree<T>): int { if t.Nil? then 0 else t.size }

  function Leaf<T>(x: T): Tree<T> { Node(1, Nil, x, Nil) }

  ghost function Items<T>(t: Tree<T>): multiset<T> {
    if t.Nil? then multiset{} else multiset{t.data} + Items(t.left) + Items(t.right)
  }

  function Count<T>(t: Tree<T>): nat {
    if t.Nil? then 0 else 1 + Count(t.left) + Count(t.right)
  }

  /** checkNodes, as LocHeap.cpp computes it. */
  predicate CheckNodes<T>(t: Tree<T>, r: Rank<T>)
    requires t.Node?
  {
    && (t.left.Node? ==> !r(t.left.data, t.data) && CheckNodes(t.left, r))
    && (t.right.Node? ==> !r(t.right.data, t.data) && CheckNodes(t.right, r))
    && t.size - Size(t.left) - Size(t.right) == 1
  }

  predicate Below<T>(t: Tree<T>, x: T, r: Rank<T>) {
    t.Node? ==> !r(t.data, x)
  }

  /** No item outranks its parent. */
  predicate Ordered<T>(t: Tree<T>, r: Rank<T>) {
    t.Nil? || (Below(t.left, t.data, r) && Below(t.right, t.data, r) && Ordered(t.left, r) && Ordered(t.right, r))
  }

  predicate Sized<T>(t: Tree<T>) {
    t.Nil? || (t.size == 1 + Size(t.left) + Size(t.right) && Sized(t.left) && Sized(t.right))
  }

  predicate Heap<T>(t: Tree<T>, r: Rank<T>) { Ordered(t, r) && Sized(t) }

  /** checkNodes accepts exactly the ordered trees with exact sizes. */
  lemma {:induction false} CheckNodesIsHeap<T>(t: Tree<T>, r: Rank<T>)
    requires t.Node?
    ensures CheckNodes(t, r) <==> Heap(t, r)
  {
    if t.left.Node? { CheckNodesIsHeap(t.left, r); } else { assert Heap(t.left, r); }
    if t.right.Node? { CheckNodesIsHeap(t.right, r); } else { assert Heap(t.right, r); }
  }

  // ---------- The operations ----------

  function Push<T>(t: Tree<T>, x: T, r: Rank<T>): Tree<T> {
    if t.Nil? then Leaf(x)
    else
      var hi, lo := if r(x, t.data) then x else t.data, if r(x, t.data) then t.data else x;
      if t.left.Nil? then Node(t.size + 1, Leaf(lo), hi, t.right)
      else if t.right.Nil? then Node(t.size + 1, t.left, hi, Leaf(lo))
      else if t.left.size <= t.right.size then Node(t.size + 1, Push(t.left, lo, r), hi, t.right)
      else Node(t.size + 1, t.left, hi, Push(t.right, lo, r))
  }

  /** Which subtree gives up its top in pop. */
  predicate PopsLeft<T>(t: Tree<T>, r: Rank<T>)
    requires t.Node?
  {
    t.left.Node? && (t.right.Nil? || r(t.left.data, t.right.data))
  }

  /** The tree after pop: the item at the top sinks to a leaf, which is taken out. Nothing else about
      the item at the top matters, so the recursive calls, whose top holds the sinking item, fit as well. */
  function Popped<T>(t: Tree<T>, r: Rank<T>): Tree<T>
    requires t.Node?
  {
    if t.left.Nil? && t.right.Nil? then Nil
    else if PopsLeft(t, r) then Node(t.size - 1, Popped(t.left, r), t.left.data, t.right)
    else Node(t.size - 1, t.left, t.right.data, Popped(t.right, r))
  }

  /** The tree after remove. */
  function Removed<T(==)>(t: Tree<T>, x: T, r: Rank<T>): Tree<T> {
    if t.Nil? then Nil
    else if x == t.data then Popped(t, r)
    else if !Found(t, x, r) then t
    else if Found(t.left, x, r) then Node(t.size - 1, Removed(t.left, x, r), t.data, t.right)
    else Node(t.size - 1, t.left, t.data, Removed(t.right, x, r))
  }

  /** Whether remove's search, which skips every subtree whose top x outranks, meets x. */
  predicate Found<T(==)>(t: Tree<T>, x: T, r: Rank<T>) {
    t.Node? && (x == t.data || (!r(x, t.data) && (Found(t.left, x, r) || Found(t.right, x, r))))
  }

  // ---------- They refine a priority multiset ----------

  lemma Asymmetric<T(!new)>(r: Rank<T>, x: T, y: T)
    requires Ranking(r)
    ensures !(r(x, y) && r(y, x))
  {
  }

  lemma NotOutrankedTransitive<T(!new)>(r: Rank<T>, x: T, y: T, z: T)
    requires Ranking(r) && !r(x, y) && !r(y, z)
    ensures !r(x, z)
  {
  }

  lemma {:induction false} PushSized<T>(t: Tree<T>, x: T, r: Rank<T>)
    requires Sized(t)
    ensures Sized(Push(t, x, r)) && Size(Push(t, x, r)) == Size(t) + 1
  {
    if t.Node? && t.left.Node? && t.right.Node? {
      var lo := if r(x, t.data) then t.data else x;
      if t.left.size <= t.right.size { PushSized(t.left, lo, r); } else { PushSized(t.right, lo, r); }
    }
  }

  lemma Regroup<T>(hi: T, lo: T, d: T, x: T, L: multiset<T>, R: multiset<T>)
    requires (hi == x && lo == d) || (hi == d && lo == x)
    ensures multiset{hi} + (L + multiset{lo}) + R == multiset{d} + L + R + multiset{x}
    ensures multiset{hi} + L + (R + multiset{lo}) == multiset{d} + L + R + multiset{x}
  {
    assert multiset{hi} + multiset{lo} == multiset{d} + multiset{x};
    assert multiset{hi} + (L + multiset{lo}) + R == (multiset{hi} + multiset{lo}) + (L + R);
    assert multiset{hi} + L + (R + multiset{lo}) == (multiset{hi} + multiset{lo}) + (L + R);
  }

  lemma ItemsOfNode<T>(n: int, left: Tree<T>, x: T, right: Tree<T>)
    ensures Items(Node(n, left, x, right)) == multiset{x} + Items(left) + Items(right)
  {
  }

  lemma {:induction false} PushItems<T>(t: Tree<T>, x: T, r: Rank<T>)
    ensures Items(Push(t, x, r)) == Items(t) + multiset{x}
  {
    if t.Node? {
      hide Items;
      var hi, lo := if r(x, t.data) then x else t.data, if r(x, t.data) then t.data else x;
      EmptyItems(lo);
      ItemsOfNode(t.size, t.left, t.data, t.right);
      Regroup(hi, lo, t.data, x, Items(t.left), Items(t.right));
      if t.left.Nil? {
        ItemsOfNode(t.size + 1, Leaf(lo), hi, t.right);
        assert multiset{} + multiset{lo} == multiset{lo};
      } else if t.right.Nil? {
        ItemsOfNode(t.size + 1, t.left, hi, Leaf(lo));
        assert multiset{} + multiset{lo} == multiset{lo};
      } else if t.left.size <= t.right.size {
        PushItems(t.left, lo, r);
        ItemsOfNode(t.size + 1, Push(t.left, lo, r), hi, t.right);
      } else {
        PushItems(t.right, lo, r);
        ItemsOfNode(t.size + 1, t.left, hi, Push(t.right, lo, r));
      }
    } else {
      EmptyItems(x);
    }
  }

  lemma EmptyItems<T>(x: T)
    ensures Items<T>(Nil) == multiset{} && Items(Leaf(x)) == multiset{x}
  {
  }

  lemma {:induction false} PushOrdered<T(!new)>(t: Tree<T>, x: T, r: Rank<T>)
    requires Ranking(r) && Ordered(t, r)
    ensures Ordered(Push(t, x, r), r)
    ensures Push(t, x, r).data == if t.Node? && !r(x, t.data) then t.data else x
  {
    hide Ranking;
    if t.Node? {
      var hi, lo := if r(x, t.data) then x else t.data, if r(x, t.data) then t.data else x;
      Asymmetric(r, x, t.data);
      Asymmetric(r, t.data, t.data);
      if t.left.Node? { NotOutrankedTransitive(r, t.left.data, t.data, hi); }
      if t.right.Node? { NotOutrankedTransitive(r, t.right.data, t.data, hi); }
      if t.left.Node? && t.right.Node? {
        if t.left.size <= t.right.size { PushOrdered(t.left, lo, r); } else { PushOrdered(t.right, lo, r); }
      }
    }
  }

  lemma PushAdds<T(!new)>(t: Tree<T>, x: T, r: Rank<T>)
    requires Ranking(r) && Heap(t, r)
    ensures Heap(Push(t, x, r), r) && Size(Push(t, x, r)) == Size(t) + 1
    ensures Items(Push(t, x, r)) == Items(t) + multiset{x}
    ensures Push(t, x, r).data == if t.Node? && !r(x, t.data) then t.data else x
  {
    PushSized(t, x, r);
    PushItems(t, x, r);
    PushOrdered(t, x, r);
  }

  lemma {:induction false} PoppedSized<T>(t: Tree<T>, r: Rank<T>)
    requires t.Node? && Sized(t)
    ensures Sized(Popped(t, r)) && Size(Popped(t, r)) == t.size - 1
  {
    if t.left.Node? || t.right.Node? {
      if PopsLeft(t, r) { PoppedSized(t.left, r); } else { PoppedSized(t.right, r); }
    }
  }

  lemma {:induction false} PoppedItems<T>(t: Tree<T>, r: Rank<T>)
    requires t.Node?
    ensures Items(t) == Items(Popped(t, r)) + multiset{t.data}
  {
    if t.left.Node? || t.right.Node? {
      if PopsLeft(t, r) { PoppedItems(t.left, r); } else { PoppedItems(t.right, r); }
    }
  }

  lemma {:induction false} PoppedOrdered<T(!new)>(t: Tree<T>, r: Rank<T>)
    requires Ranking(r) && t.Node? && Ordered(t.left, r) && Ordered(t.right, r)
    ensures Ordered(Popped(t, r), r)
    ensures forall x :: Below(t.left, x, r) && Below(t.right, x, r) ==> Below(Popped(t, r), x, r)
  {
    hide Ranking;
    if t.left.Node? || t.right.Node? {
      if t.left.Node? && t.right.Node? { Asymmetric(r, t.left.data, t.right.data); }
      var sub := if PopsLeft(t, r) then t.left else t.right;
      PoppedOrdered(sub, r);
      assert Below(Popped(sub, r), sub.data, r);
    }
  }

  /** pop on a tree whose top may rank too low, as in the recursive calls, where it holds the sinking item. */
  lemma PopRemovesTop<T(!new)>(t: Tree<T>, r: Rank<T>)
    requires Ranking(r) && t.Node? && Sized(t) && Ordered(t.left, r) && Ordered(t.right, r)
    ensures Heap(Popped(t, r), r) && Size(Popped(t, r)) == t.size - 1
    ensures Items(t) == Items(Popped(t, r)) + multiset{t.data}
  {
    PoppedSized(t, r);
    PoppedItems(t, r);
    PoppedOrdered(t, r);
  }

  lemma {:induction false} TopOutranksAll<T(!new)>(t: Tree<T>, r: Rank<T>)
    requires Ranking(r) && Ordered(t, r) && t.Node?
    ensures forall x :: x in Items(t) ==> !r(x, t.data)
  {
    hide Ranking;
    Asymmetric(r, t.data, t.data);
    forall x | x in Items(t.left) && t.left.Node? && !r(x, t.left.data) ensures !r(x, t.data) {
      NotOutrankedTransitive(r, x, t.left.data, t.data);
    }
    forall x | x in Items(t.right) && t.right.Node? && !r(x, t.right.data) ensures !r(x, t.data) {
      NotOutrankedTransitive(r, x, t.right.data, t.data);
    }
    if t.left.Node? { TopOutranksAll(t.left, r); }
    if t.right.Node? { TopOutranksAll(t.right, r); }
  }

  /** The search meets x exactly when x is in the heap, whatever it skips. */
  lemma {:induction false} FoundIsMember<T(!new)>(t: Tree<T>, x: T, r: Rank<T>)
    requires Ranking(r) && Ordered(t, r)
    ensures Found(t, x, r) <==> x in Items(t)
  {
    hide Ranking;
    if t.Node? {
      FoundIsMember(t.left, x, r);
      FoundIsMember(t.right, x, r);
      TopOutranksAll(t, r);
    }
  }

  /** Nothing that was not above y rises above it by a removal. */
  lemma RemovedStaysBelow<T(!new)>(t: Tree<T>, x: T, r: Rank<T>, y: T)
    requires Ranking(r) && Ordered(t, r) && Below(t, y, r)
    ensures Below(Removed(t, x, r), y, r)
  {
    hide Ranking;
    if t.Node? && x == t.data {
      if t.left.Node? { NotOutrankedTransitive(r, t.left.data, t.data, y); }
      if t.right.Node? { NotOutrankedTransitive(r, t.right.data, t.data, y); }
      PoppedOrdered(t, r);
    }
  }

  lemma {:induction false} RemovedOrdered<T(!new)>(t: Tree<T>, x: T, r: Rank<T>)
    requires Ranking(r) && Ordered(t, r)
    ensures Ordered(Removed(t, x, r), r)
  {
    hide Ranking;
    if t.Node? && x == t.data {
      PoppedOrdered(t, r);
    } else if t.Node? {
      RemovedStaysBelow(t.left, x, r, t.data);
      RemovedStaysBelow(t.right, x, r, t.data);
      RemovedOrdered(t.left, x, r);
      RemovedOrdered(t.right, x, r);
    }
  }

  lemma {:induction false} RemovedSized<T>(t: Tree<T>, x: T, r: Rank<T>)
    requires Sized(t)
    ensures Sized(Removed(t, x, r)) && Size(Removed(t, x, r)) == Size(t) - if Found(t, x, r) then 1 else 0
  {
    if t.Node? && x == t.data {
      PoppedSized(t, r);
    } else if t.Node? {
      RemovedSized(t.left, x, r);
      RemovedSized(t.right, x, r);
    }
  }

  lemma {:induction false} RemovedItems<T>(t: Tree<T>, x: T, r: Rank<T>)
    ensures if Found(t, x, r) then Items(t) == Items(Removed(t, x, r)) + multiset{x} else Removed(t, x, r) == t
  {
    if t.Node? && x == t.data {
      PoppedItems(t, r);
    } else if Found(t, x, r) {
      if Found(t.left, x, r) { RemovedItems(t.left, x, r); } else { RemovedItems(t.right, x, r); }
    }
  }

  /** remove takes out just x, if it is there, and leaves a heap with corrected sizes. */
  lemma RemoveTakesOut<T(!new)>(t: Tree<T>, x: T, r: Rank<T>)
    requires Ranking(r) && Heap(t, r)
    ensures Heap(Removed(t, x, r), r)
    ensures if x in Items(t)
      then Items(t) == Items(Removed(t, x, r)) + multiset{x} && Size(Removed(t, x, r)) == Size(t) - 1
            else Removed(t, x, r) == t
  {
    FoundIsMember(t, x, r);
    RemovedOrdered(t, x, r);
    RemovedSized(t, x, r);
    RemovedItems(t, x, r);
  }

  // ---------- Balance ----------

  lemma {:induction false} SizedIsCount<T>(t: Tree<T>)
    requires Sized(t)
    ensures Size(t) == Count(t)
  {
    if t.Node? {
      SizedIsCount(t.left);
      SizedIsCount(t.right);
    }
  }

  /** At every node the left subtree is as large as the right one, or larger by one. */
  predicate LeftHeavyByOne<T>(t: Tree<T>) {
    t.Nil? || (0 <= Size(t.left) - Size(t.right) <= 1 && LeftHeavyByOne(t.left) && LeftHeavyByOne(t.right))
  }

  lemma {:induction false} PushKeepsLeftHeavy<T>(t: Tree<T>, x: T, r: Rank<T>)
    requires Sized(t) && LeftHeavyByOne(t)
    ensures Sized(Push(t, x, r)) && LeftHeavyByOne(Push(t, x, r)) && Size(Push(t, x, r)) == Size(t) + 1
  {
    if t.Node? {
      SizedIsCount(t.left);
      SizedIsCount(t.right);
      var lo := if r(x, t.data) then t.data else x;
      if t.left.Node? && t.right.Node? {
        if t.left.size <= t.right.size {
          PushKeepsLeftHeavy(t.left, lo, r);
        } else {
          PushKeepsLeftHeavy(t.right, lo, r);
        }
      }
    }
  }

  function PushAll<T>(xs: seq<T>, r: Rank<T>): Tree<T> {
    if xs == [] then Nil else Push(PushAll(xs[..|xs| - 1], r), xs[|xs| - 1], r)
  }

  function Height<T>(t: Tree<T>): nat {
    if t.Nil? then 0 else 1 + if Height(t.left) < Height(t.right) then Height(t.right) else Height(t.left)
  }

  function Pow2(n: nat): nat { if n == 0 then 1 else 2 * Pow2(n - 1) }

  lemma {:induction false} LeftHeavyIsShallow<T>(t: Tree<T>)
    requires Sized(t) && LeftHeavyByOne(t)
    ensures t.Node? ==> Pow2(Height(t) - 1) <= Count(t)
  {
    if t.Node? {
      LeftHeavyIsShallow(t.left);
      LeftHeavyIsShallow(t.right);
      SizedIsCount(t.left);
      SizedIsCount(t.right);
    }
  }

  /** A heap built by n pushes alone has exact sizes, left-heavy balance and height at most floor(log2 n) + 1. */
  lemma {:induction false} PushOnlyIsBalanced<T>(xs: seq<T>, r: Rank<T>)
    ensures var t := PushAll(xs, r);
      && Sized(t) && LeftHeavyByOne(t) && Count(t) == |xs|
      && (xs != [] ==> t.Node? && Pow2(Height(t) - 1) <= |xs|)
    decreases |xs|
  {
    var t := PushAll(xs, r);
    if xs != [] {
      PushOnlyIsBalanced(xs[..|xs| - 1], r);
      PushKeepsLeftHeavy(PushAll(xs[..|xs| - 1], r), xs[|xs| - 1], r);
      SizedIsCount(PushAll(xs[..|xs| - 1], r));
      SizedIsCount(t);
      LeftHeavyIsShallow(t);
    }
  }

  function Imbalance<T>(t: Tree<T>): nat
    requires t.Node?
  {
    if Size(t.left) < Size(t.right) then Size(t.right) - Size(t.left) else Size(t.left) - Size(t.right)
  }

  /** Node by node, t' is no more out of balance than t, or out by at most one. */
  predicate NoWorse<T>(t: Tree<T>, t': Tree<T>) {
    t.Node? ==>
      && t'.Node?
      && (Imbalance(t') <= 1 || Imbalance(t') <= Imbalance(t))
      && NoWorse(t.left, t'.left)
      && NoWorse(t.right, t'.right)
  }

  lemma {:induction false} NoWorseSelf<T>(t: Tree<T>)
    ensures NoWorse(t, t)
  {
    if t.Node? {
      NoWorseSelf(t.left);
      NoWorseSelf(t.right);
    }
  }

  /** From any heap, whatever pops did to it, a push makes no node's imbalance worse. */
  lemma {:induction false} PushNeverUnbalances<T>(t: Tree<T>, x: T, r: Rank<T>)
    requires Sized(t)
    ensures NoWorse(t, Push(t, x, r)) && Size(Push(t, x, r)) == Size(t) + 1
  {
    if t.Node? {
      SizedIsCount(t.left);
      SizedIsCount(t.right);
      NoWorseSelf(t.left);
      NoWorseSelf(t.right);
      var lo := if r(x, t.data) then t.data else x;
      if t.left.Node? && t.right.Node? {
        if t.left.size <= t.right.size {
          PushNeverUnbalances(t.left, lo, r);
        } else {
          PushNeverUnbalances(t.right, lo, r);
        }
      }
    }
  }
}
