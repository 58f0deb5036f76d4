/** LocHeap.cpp: a heap of linked nodes whose operations move data between nodes instead of nodes. */
module LocHeapImpl {
  import opened HeapModel

  datatype Option<+T> = None | Some(value: T)

  class LocHeapNode<T(==)> {
    var size: int
    var left: LocHeapNode?<T>
    var right: LocHeapNode?<T>
    var data: T
    ghost var repr: set<LocHeapNode<T>>
    ghost var tree: Tree<T>  // the tree below this node

    ghost predicate Valid()
      reads this, repr
      decreases repr
    {
      && this in repr
      && (left != null ==> left in repr && left.repr <= repr - {this} && left.Valid())
      && (right != null ==> right in repr && right.repr <= repr - {this} && right.Valid())
      && (left != null && right != null ==> left.repr !! right.repr)
      && tree == Node(size, TreeOf(left), data, TreeOf(right))
    }

    /** A node not yet in a tree. */
    ghost predicate Single()
      reads this
    {
      left == null && right == null && size == 1 && repr == {this} && tree == Leaf(data)
    }

    constructor (x: T)
      ensures Valid() && fresh(repr) && Single() && data == x
    {
      size, left, right, data := 1, null, null, x;
      repr, tree := {this}, Leaf(x);
    }

    /** push: on the way down, node's item is swapped with every item it outranks. */
    method Push(node: LocHeapNode<T>, r: Rank<T>)
      requires Valid() && node !in repr && node.Single()
      modifies repr, node
      ensures Valid() && repr == old(repr) + {node}
      ensures tree == HeapModel.Push(old(tree), old(node.data), r)
      decreases repr, 1
    {
      Yield(node, r);
      if left == null {
        left := node;
        repr, size, tree := repr + {node}, size + 1, tree.(left := node.tree, size := size + 1);
      } else if right == null {
        right := node;
        repr, size, tree := repr + {node}, size + 1, tree.(right := node.tree, size := size + 1);
      } else if left.size <= right.size {
        PushLeft(node, r);
      } else {
        PushRight(node, r);
      }
    }

    /** The higher-ranked of the two items is kept here. */
    method Yield(node: LocHeapNode<T>, r: Rank<T>)
      requires Valid() && node !in repr && node.Single()
      modifies `data, `tree, node`data, node`tree
      ensures Valid() && node.Single()
      ensures if r(old(node.data), old(data)) then tree == old(tree).(data := old(node.data)) && node.data == old(data)
        else tree == old(tree) && node.data == old(node.data)
    {
      if r(node.data, data) {
        node.data, data := data, node.data;
        node.tree, tree := Leaf(node.data), tree.(data := data);
      }
    }

    method PushLeft(node: LocHeapNode<T>, r: Rank<T>)
      requires Valid() && node !in repr && node.Single() && left != null
      modifies repr, node
      ensures Valid() && repr == old(repr) + {node}
      ensures tree == old(Node(size + 1, HeapModel.Push(tree.left, node.data, r), data, tree.right))
      decreases repr, 0
    {
      hide HeapModel.Push;
      left.Push(node, r);
      repr, size, tree := repr + {node}, size + 1, tree.(left := left.tree, size := size + 1);
    }

    method PushRight(node: LocHeapNode<T>, r: Rank<T>)
      requires Valid() && node !in repr && node.Single() && right != null
      modifies repr, node
      ensures Valid() && repr == old(repr) + {node}
      ensures tree == old(Node(size + 1, tree.left, data, HeapModel.Push(tree.right, node.data, r)))
      decreases repr, 0
    {
      hide HeapModel.Push;
      right.Push(node, r);
      repr, size, tree := repr + {node}, size + 1, tree.(right := right.tree, size := size + 1);
    }

    /** pop: the top item sinks to a leaf, which is unlinked and returned. `rest` is what the reference
        to this node becomes. */
    method Pop(r: Rank<T>) returns (rest: LocHeapNode?<T>, popped: LocHeapNode<T>)
      requires Valid()
      modifies repr
      ensures rest != null ==> rest == this
      ensures ValidTree(rest) && ReprOf(rest) <= old(repr) && TreeOf(rest) == Popped(old(tree), r)
      ensures popped in old(repr) && popped !in ReprOf(rest) && popped.data == old(data)
      decreases repr, 1
    {
      if left == null && right == null {
        size := size - 1;
        rest, popped := null, this;
      } else if right == null || (left != null && r(left.data, right.data)) {
        assert left.Valid();
        rest, popped := PopLeft(r);
      } else {
        assert right.Valid();
        rest, popped := PopRight(r);
      }
    }

    method PopLeft(r: Rank<T>) returns (rest: LocHeapNode<T>, popped: LocHeapNode<T>)
      requires Valid() && left != null && left.tree.Node?
      modifies repr
      ensures rest == this && Valid() && repr <= old(repr)
      ensures tree == old(Node(size - 1, Popped(tree.left, r), left.data, tree.right))
      ensures popped in old(repr) && popped !in repr && popped.data == old(data)
      decreases repr, 0, 1
    {
      hide Popped;
      PoppedIgnoresTop(left.tree, data, r);
      SinkLeft();
      popped := CutLeft(r);
      rest := this;
    }

    /** The item at the top changes places with the left one. */
    method SinkLeft()
      requires Valid() && left != null && left.tree.Node?
      modifies this`data, this`tree, left`data, left`tree
      ensures Valid() && left.tree.Node?
      ensures tree == old(Node(size, tree.left.(data := data), left.data, tree.right))
    {
      data, left.data := left.data, data;
      left.tree := left.tree.(data := left.data);
      tree := Node(size, TreeOf(left), data, TreeOf(right));
    }

    /** The left subtree is popped. */
    method CutLeft(r: Rank<T>) returns (popped: LocHeapNode<T>)
      requires Valid() && left != null && left.tree.Node?
      modifies repr
      ensures Valid() && repr <= old(repr)
      ensures tree == old(Node(size - 1, Popped(tree.left, r), data, tree.right))
      ensures popped in old(repr) && popped !in repr && popped.data == old(left.data)
      decreases repr, 0, 0
    {
      hide Popped;
      size := size - 1;
      var rest;
      rest, popped := left.Pop(r);
      left := rest;
      tree := Node(size, TreeOf(left), data, TreeOf(right));
      repr := {this} + ReprOf(left) + ReprOf(right);
    }

    method PopRight(r: Rank<T>) returns (rest: LocHeapNode<T>, popped: LocHeapNode<T>)
      requires Valid() && right != null && right.tree.Node?
      modifies repr
      ensures rest == this && Valid() && repr <= old(repr)
      ensures tree == old(Node(size - 1, tree.left, right.data, Popped(tree.right, r)))
      ensures popped in old(repr) && popped !in repr && popped.data == old(data)
      decreases repr, 0, 1
    {
      hide Popped;
      PoppedIgnoresTop(right.tree, data, r);
      SinkRight();
      popped := CutRight(r);
      rest := this;
    }

    /** The item at the top changes places with the right one. */
    method SinkRight()
      requires Valid() && right != null && right.tree.Node?
      modifies this`data, this`tree, right`data, right`tree
      ensures Valid() && right.tree.Node?
      ensures tree == old(Node(size, tree.left, right.data, tree.right.(data := data)))
    {
      data, right.data := right.data, data;
      right.tree := right.tree.(data := right.data);
      tree := Node(size, TreeOf(left), data, TreeOf(right));
    }

    /** The right subtree is popped. */
    method CutRight(r: Rank<T>) returns (popped: LocHeapNode<T>)
      requires Valid() && right != null && right.tree.Node?
      modifies repr
      ensures Valid() && repr <= old(repr)
      ensures tree == old(Node(size - 1, tree.left, data, Popped(tree.right, r)))
      ensures popped in old(repr) && popped !in repr && popped.data == old(right.data)
      decreases repr, 0, 0
    {
      hide Popped;
      size := size - 1;
      var rest;
      rest, popped := right.Pop(r);
      right := rest;
      tree := Node(size, TreeOf(left), data, TreeOf(right));
      repr := {this} + ReprOf(left) + ReprOf(right);
    }

    /** remove: finds the node whose item is x itself and pops it out. */
    method Remove(x: T, r: Rank<T>) returns (rest: LocHeapNode?<T>, removed: LocHeapNode?<T>)
      requires Valid()
      modifies repr
      ensures rest != null ==> rest == this
      ensures ValidTree(rest) && ReprOf(rest) <= old(repr) && TreeOf(rest) == Removed(old(tree), x, r)
      ensures removed != null <==> Found(old(tree), x, r)
      ensures removed != null ==> removed in old(repr) && removed !in ReprOf(rest) && removed.data == x
      ensures removed == null ==> rest == this
      decreases repr, 1
    {
      ghost var t := tree;
      RemovedNothing(t, x, r);
      rest, removed := this, null;
      if data == x {
        rest, removed := Pop(r);
        assert Removed(t, x, r) == Popped(t, r);
      } else if !r(x, data) {
        if left != null {
          removed := RemoveLeft(x, r);
        }
        if removed == null && right != null {
          assert tree == t;
          removed := RemoveRight(x, r);
          assert removed != null ==> !Found(t.left, x, r) && tree == Removed(t, x, r);
        }
        assert removed == null ==> !Found(t, x, r) && tree == t;
      }
    }

    method RemoveLeft(x: T, r: Rank<T>) returns (removed: LocHeapNode?<T>)
      requires Valid() && left != null
      modifies repr
      ensures Valid() && repr <= old(repr)
      ensures removed != null <==> Found(old(tree).left, x, r)
      ensures removed == null ==> tree == old(tree) && right == old(right)
      ensures removed != null ==> tree == old(Node(size - 1, Removed(tree.left, x, r), data, tree.right))
      ensures removed != null ==> removed in old(repr) && removed !in repr && removed.data == x
      decreases repr, 0
    {
      hide Removed, Found;
      RemovedNothing(left.tree, x, r);
      var l;
      l, removed := left.Remove(x, r);
      left := l;
      if removed != null {
        size := size - 1;
      }
      tree := Node(size, TreeOf(left), data, TreeOf(right));
      repr := {this} + ReprOf(left) + ReprOf(right);
    }

    method RemoveRight(x: T, r: Rank<T>) returns (removed: LocHeapNode?<T>)
      requires Valid() && right != null
      modifies repr
      ensures Valid() && repr <= old(repr)
      ensures removed != null <==> Found(old(tree).right, x, r)
      ensures removed == null ==> tree == old(tree)
      ensures removed != null ==> tree == old(Node(size - 1, tree.left, data, Removed(tree.right, x, r)))
      ensures removed != null ==> removed in old(repr) && removed !in repr && removed.data == x
      decreases repr, 0
    {
      hide Removed, Found;
      RemovedNothing(right.tree, x, r);
      var l;
      l, removed := right.Remove(x, r);
      right := l;
      if removed != null {
        size := size - 1;
      }
      tree := Node(size, TreeOf(left), data, TreeOf(right));
      repr := {this} + ReprOf(left) + ReprOf(right);
    }
  }

  lemma PoppedIgnoresTop<T>(t: Tree<T>, x: T, r: Rank<T>)
    requires t.Node?
    ensures Popped(t.(data := x), r) == Popped(t, r)
  {
  }

  lemma RemovedNothing<T>(t: Tree<T>, x: T, r: Rank<T>)
    ensures !Found(t, x, r) ==> Removed(t, x, r) == t
  {
  }

  class LocHeap<T(==)> {
    var root: LocHeapNode?<T>

    ghost predicate Valid()
      reads this, root, ReprOf(root)
    {
      ValidTree(root)
    }

    ghost function Tree(): Tree<T>
      reads this, root
    {
      TreeOf(root)
    }

    ghost function Repr(): set<object>
      reads this, root
    {
      {this} + ReprOf(root)
    }

    constructor ()
      ensures Valid() && Tree() == Nil && fresh(Repr())
    {
      root := null;
    }

    method Push(x: T, r: Rank<T>)
      requires Valid()
      modifies this, ReprOf(root)
      ensures Valid() && fresh(Repr() - old(Repr())) && Tree() == HeapModel.Push(old(Tree()), x, r)
    {
      var node := new LocHeapNode(x);
      if root == null {
        root := node;
      } else {
        root.Push(node, r);
      }
    }

    method Peek() returns (top: Option<T>)
      requires Valid()
      ensures top == if Tree().Nil? then None else Some(Tree().data)
    {
      top := if root == null then None else Some(root.data);
    }

    method Pop(r: Rank<T>) returns (top: Option<T>)
      requires Valid()
      modifies this, ReprOf(root)
      ensures Valid() && Repr() <= old(Repr())
      ensures old(Tree()).Nil? ==> top == None && Tree() == Nil
      ensures old(Tree()).Node? ==> top == Some(old(Tree()).data) && Tree() == Popped(old(Tree()), r)
    {
      top := None;
      if root != null {
        var rest, node := root.Pop(r);
        root := rest;
        top := Some(node.data);
      }
    }

    method Remove(x: T, r: Rank<T>) returns (removed: Option<T>)
      requires Valid()
      modifies this, ReprOf(root)
      ensures Valid() && Repr() <= old(Repr()) && Tree() == Removed(old(Tree()), x, r)
      ensures removed == if Found(old(Tree()), x, r) then Some(x) else None
    {
      removed := None;
      if root != null {
        var rest, node := root.Remove(x, r);
        root := rest;
        removed := if node == null then None else Some(node.data);
      }
    }
  }

  ghost function ReprOf<T>(n: LocHeapNode?<T>): set<LocHeapNode<T>>
    reads n
  {
    if n == null then {} else n.repr
  }

  ghost function TreeOf<T>(n: LocHeapNode?<T>): Tree<T>
    reads n
  {
    if n == null then Nil else n.tree
  }

  ghost predicate ValidTree<T>(n: LocHeapNode?<T>)
    reads n, ReprOf(n)
  {
    n != null ==> n.Valid()
  }
}
