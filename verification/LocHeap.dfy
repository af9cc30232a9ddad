/** The pointer tree of LocHeap: nodes linked and relabelled in place. Every method is proved
    equal to the corresponding function on trees, whose promises are in HeapTree. */
module LocHeap {
  import opened Wrappers
  import opened HeapTree

  class LocHeapNode<T(==)> {
    var mSize: int
    var mLeft: LocHeapNode?<T>
    var mRight: LocHeapNode?<T>
    var mData: T
    ghost var Repr: set<LocHeapNode<T>>  // the nodes of this subtree
    ghost var Model: Tree<T>             // the tree this subtree stands for

    ghost predicate Valid()
      reads this, Repr
      decreases Repr
    {
      && this in Repr
      && (mLeft != null ==> mLeft in Repr && mLeft.Repr <= Repr && this !in mLeft.Repr && mLeft.Valid())
      && (mRight != null ==> mRight in Repr && mRight.Repr <= Repr && this !in mRight.Repr && mRight.Valid())
      && (mLeft != null && mRight != null ==> mLeft.Repr !! mRight.Repr)
      && Model == Node(mSize, TreeOf(mLeft), TreeOf(mRight), mData)
    }

    static ghost function TreeOf(node: LocHeapNode?<T>): Tree<T>
      reads node
    {
      if node == null then Leaf else node.Model
    }

    constructor (data: T)
      ensures Valid() && Repr == {this} && Model == Single(data)
    {
      mSize, mLeft, mRight, mData := 1, null, null, data;
      Repr := {this};
      Model := Single(data);
    }

    /** Exchanges only the data; the links stay. */
    method Swap(node: LocHeapNode<T>)
      requires this != node && Model.Node? && node.Model.Node?
      modifies this`mData, node`mData, this`Model, node`Model
      ensures mData == old(node.mData) && node.mData == old(mData)
      ensures Model == old(Model).(data := mData) && node.Model == old(node.Model).(data := node.mData)
    {
      mData, node.mData := node.mData, mData;
      Model, node.Model := Model.(data := mData), node.Model.(data := node.mData);
    }

    method Push(node: LocHeapNode<T>, outRanks: (T, T) -> bool)
      requires Valid()
      requires node.Valid() && node.Repr == {node} && node !in Repr && node.Model == Single(node.mData)
      modifies Repr, node
      ensures Valid() && Repr == old(Repr) + {node}
      ensures Model == HeapTree.Push(old(Model), old(node.mData), outRanks)
      decreases Repr, 1
    {
      ghost var before, x := Model, node.mData;
      if outRanks(node.mData, mData) {
        Swap(node);
      }
      Sink(node, outRanks, before, x);
    }

    /** The second half of push: the lower of the two data goes into a subtree. */
    method Sink(node: LocHeapNode<T>, outRanks: (T, T) -> bool, ghost before: Tree<T>, ghost x: T)
      requires Valid()
      requires node.Valid() && node.Repr == {node} && node !in Repr && node.Model == Single(node.mData)
      requires before.Node? && Model == before.(data := mData)
      requires (mData, node.mData) == if outRanks(x, before.data) then (x, before.data) else (before.data, x)
      modifies Repr, node
      ensures Valid() && Repr == old(Repr) + {node}
      ensures Model == HeapTree.Push(before, x, outRanks)
      decreases Repr, 0
    {
      if mLeft == null {
        mLeft := node;
      } else if mRight == null {
        mRight := node;
      } else if mLeft.mSize <= mRight.mSize {
        mLeft.Push(node, outRanks);
      } else {
        mRight.Push(node, outRanks);
      }
      mSize := mSize + 1;
      Repr := Repr + {node};
      Model := Node(mSize, TreeOf(mLeft), TreeOf(mRight), mData);
    }

    /** Returns the tree that is left (null when top was its last node) and the detached leaf,
        which carries the data that was on top. */
    static method Pop(top: LocHeapNode<T>, outRanks: (T, T) -> bool)
      returns (rest: LocHeapNode?<T>, popped: LocHeapNode<T>)
      requires top.Valid()
      modifies top.Repr
      ensures popped in old(top.Repr) && popped.mData == old(top.mData)
      ensures TreeOf(rest) == HeapTree.Pop(old(top.Model), outRanks)
      ensures rest != null ==> rest == top && rest.Valid() && rest.Repr == old(top.Repr) - {popped}
      decreases top.Repr, 1
    {
      top.mSize, top.Model := top.mSize - 1, top.Model.(size := top.mSize - 1);
      if top.mLeft != null || top.mRight != null {
        rest := top;
        if top.mLeft != null && (top.mRight == null || outRanks(top.mLeft.mData, top.mRight.mData)) {
          popped := top.PullFromLeft(outRanks);
        } else {
          popped := top.PullFromRight(outRanks);
        }
      } else {
        rest, popped := null, top;
      }
    }

    method PullFromLeft(outRanks: (T, T) -> bool) returns (popped: LocHeapNode<T>)
      requires Valid() && mLeft != null
      modifies Repr
      ensures Valid() && popped in old(Repr) && popped != this && Repr == old(Repr) - {popped}
      ensures popped.mData == old(mData)
      ensures old(Model.left.Node?)
      ensures Model == Node(old(mSize), HeapTree.Pop(old(Model.left), outRanks), old(Model.right), old(mLeft.mData))
      decreases Repr, 0
    {
      Swap(mLeft);
      var sub;
      sub, popped := Pop(mLeft, outRanks);
      mLeft := sub;
      Repr := Repr - {popped};
      Model := Node(mSize, TreeOf(mLeft), TreeOf(mRight), mData);
    }

    method PullFromRight(outRanks: (T, T) -> bool) returns (popped: LocHeapNode<T>)
      requires Valid() && mRight != null
      modifies Repr
      ensures Valid() && popped in old(Repr) && popped != this && Repr == old(Repr) - {popped}
      ensures popped.mData == old(mData)
      ensures old(Model.right.Node?)
      ensures Model == Node(old(mSize), old(Model.left), HeapTree.Pop(old(Model.right), outRanks), old(mRight.mData))
      decreases Repr, 0
    {
      Swap(mRight);
      var sub;
      sub, popped := Pop(mRight, outRanks);
      mRight := sub;
      Repr := Repr - {popped};
      Model := Node(mSize, TreeOf(mLeft), TreeOf(mRight), mData);
    }

    /** Returns the tree that is left and the removed node, or the tree as it was and null. */
    static method Remove(top: LocHeapNode<T>, data: T, outRanks: (T, T) -> bool)
      returns (rest: LocHeapNode?<T>, removed: LocHeapNode?<T>)
      requires top.Valid()
      modifies top.Repr
      ensures (TreeOf(rest), removed != null) == HeapTree.Remove(old(top.Model), data, outRanks)
      ensures removed != null ==> removed in old(top.Repr) && removed.mData == data
      ensures rest != null ==> rest == top && rest.Valid() && rest.Repr == old(top.Repr) - {removed}
      decreases top.Repr, 2
    {
      rest, removed := top, null;
      if data == top.mData {
        rest, removed := Pop(top, outRanks);
      } else if !outRanks(data, top.mData) {
        removed := top.RemoveBelow(data, outRanks);
      }
    }

    method RemoveBelow(data: T, outRanks: (T, T) -> bool) returns (removed: LocHeapNode?<T>)
      requires Valid() && data != mData && !outRanks(data, mData)
      modifies Repr
      ensures Valid() && removed != this && Repr == old(Repr) - {removed}
      ensures removed != null ==> removed in old(Repr) && removed.mData == data
      ensures (Model, removed != null) == HeapTree.Remove(old(Model), data, outRanks)
      decreases Repr, 1
    {
      removed := null;
      if mLeft != null {
        removed := RemoveFromLeft(data, outRanks);
      }
      if removed == null && mRight != null {
        removed := RemoveFromRight(data, outRanks);
      }
      if removed != null {
        mSize, Model := mSize - 1, Model.(size := mSize - 1);
      }
    }

    method RemoveFromLeft(data: T, outRanks: (T, T) -> bool) returns (removed: LocHeapNode?<T>)
      requires Valid() && mLeft != null
      modifies Repr
      ensures Valid() && removed != this && Repr == old(Repr) - {removed}
      ensures removed != null ==> removed in old(Repr) && removed.mData == data
      ensures (Model.left, removed != null) == HeapTree.Remove(old(Model.left), data, outRanks)
      ensures Model == old(Model).(left := Model.left) && mData == old(mData)
      decreases Repr, 0
    {
      var sub;
      sub, removed := Remove(mLeft, data, outRanks);
      mLeft := sub;
      Repr := Repr - {removed};
      Model := Model.(left := TreeOf(mLeft));
    }

    method RemoveFromRight(data: T, outRanks: (T, T) -> bool) returns (removed: LocHeapNode?<T>)
      requires Valid() && mRight != null
      modifies Repr
      ensures Valid() && removed != this && Repr == old(Repr) - {removed}
      ensures removed != null ==> removed in old(Repr) && removed.mData == data
      ensures (Model.right, removed != null) == HeapTree.Remove(old(Model.right), data, outRanks)
      ensures Model == old(Model).(right := Model.right) && mData == old(mData)
      decreases Repr, 0
    {
      var sub;
      sub, removed := Remove(mRight, data, outRanks);
      mRight := sub;
      Repr := Repr - {removed};
      Model := Model.(right := TreeOf(mRight));
    }

    lemma ModelMirrorsFields()
      requires Valid()
      ensures Model.Node? && Model.data == mData && Model.size == mSize
      ensures Model.left == TreeOf(mLeft) && Model.right == TreeOf(mRight)
    {
    }

    /** True exactly for a heap whose stored sizes are right. */
    predicate CheckNodes(outRanks: (T, T) -> bool)
      requires Valid()
      reads this, Repr
      ensures CheckNodes(outRanks) <==> Heap(Model, outRanks)
      decreases Repr
    {
      ChildrenMirrorFields();
      assert Heap(Model, outRanks) <==>
        && (Model.left.Node? ==> !outRanks(Model.left.data, mData)) && Heap(Model.left, outRanks)
        && (Model.right.Node? ==> !outRanks(Model.right.data, mData)) && Heap(Model.right, outRanks)
        && mSize == StoredSize(Model.left) + StoredSize(Model.right) + 1;
      if mLeft != null && (outRanks(mLeft.mData, mData) || !mLeft.CheckNodes(outRanks)) then false
      else if mRight != null && (outRanks(mRight.mData, mData) || !mRight.CheckNodes(outRanks)) then false
      else
        var leftSize := if mLeft == null then 0 else mLeft.mSize;
        var rightSize := if mRight == null then 0 else mRight.mSize;
        mSize - leftSize - rightSize == 1
    }

    lemma ChildrenMirrorFields()
      requires Valid()
      ensures Model == Node(mSize, TreeOf(mLeft), TreeOf(mRight), mData)
      ensures mLeft != null ==> Model.left.Node? && Model.left.data == mLeft.mData && Model.left.size == mLeft.mSize
      ensures mRight != null ==>
        Model.right.Node? && Model.right.data == mRight.mData && Model.right.size == mRight.mSize
    {
      if mLeft != null { mLeft.ModelMirrorsFields(); }
      if mRight != null { mRight.ModelMirrorsFields(); }
    }
  }

  /** The heap itself: a tree that may be empty, always in heap order with right sizes. */
  class LocHeap<T(==,!new)> {
    const outRanks: (T, T) -> bool
    var mTree: LocHeapNode?<T>
    ghost var Repr: set<LocHeapNode<T>>
    ghost var Model: Tree<T>

    ghost predicate Valid()
      reads this, Repr
    {
      && WeakOrder(outRanks)
      && Heap(Model, outRanks)
      && Linked()
    }

    /** The nodes form the tree that Model says. */
    ghost predicate Linked()
      reads this, Repr
    {
      if mTree == null then Model == Leaf && Repr == {}
      else mTree in Repr && mTree.Repr == Repr && mTree.Model == Model && mTree.Valid()
    }

    constructor (outRanks: (T, T) -> bool)
      requires WeakOrder(outRanks)
      ensures Valid() && Repr == {} && this.outRanks == outRanks && Model == Leaf
    {
      this.outRanks := outRanks;
      mTree := null;
      Repr, Model := {}, Leaf;
    }

    method Push(data: T)
      requires Valid()
      modifies this, Repr
      ensures Valid() && fresh(Repr - old(Repr))
      ensures Model == HeapTree.Push(old(Model), data, outRanks)
      ensures Elements(Model) == Elements(old(Model)) + multiset{data}
    {
      PushCorrect(Model, data, outRanks);
      var heapNode := new LocHeapNode(data);
      Attach(heapNode);
    }

    /** Links a new node in and keeps the links right; what that does to the contents is in Push. */
    method Attach(heapNode: LocHeapNode<T>)
      requires Linked() && heapNode !in Repr
      requires heapNode.Valid() && heapNode.Repr == {heapNode} && heapNode.Model == Single(heapNode.mData)
      modifies this, Repr, heapNode
      ensures Linked() && Repr == old(Repr) + {heapNode}
      ensures Model == HeapTree.Push(old(Model), old(heapNode.mData), outRanks)
    {
      if mTree == null {
        mTree := heapNode;
      } else {
        mTree.Push(heapNode, outRanks);
      }
      Repr, Model := mTree.Repr, mTree.Model;
    }

    method Peek() returns (top: Option<T>)
      requires Valid()
      ensures top == Top(Model)
      ensures top.Some? ==> forall x | x in Elements(Model) :: !outRanks(x, top.value)
    {
      top := None;
      if mTree != null {
        mTree.ModelMirrorsFields();
        top := Some(mTree.mData);
        forall x | x in Elements(Model) ensures !outRanks(x, mTree.mData) {
          TopOutrankedByNone(Model, x, outRanks);
        }
      }
    }

    /** Unlinks the top and keeps the links right; what that does to the contents is in Pop. */
    method DetachTop() returns (data: T)
      requires Linked() && mTree != null
      modifies this, Repr
      ensures Linked() && Repr <= old(Repr)
      ensures old(Model.Node?) && data == old(Model.data)
      ensures Model == HeapTree.Pop(old(Model), outRanks)
    {
      mTree.ModelMirrorsFields();
      var tree, heapNode := LocHeapNode.Pop(mTree, outRanks);
      mTree := tree;
      data := heapNode.mData;
      Repr := if mTree == null then {} else mTree.Repr;
      Model := LocHeapNode.TreeOf(mTree);
    }

    method Pop() returns (data: Option<T>)
      requires Valid()
      modifies this, Repr
      ensures Valid() && Repr <= old(Repr)
      ensures data == Top(old(Model))
      ensures data.None? ==> Model == old(Model)
      ensures data.Some? ==>
        && Model == HeapTree.Pop(old(Model), outRanks)
        && Elements(Model) == Elements(old(Model)) - multiset{data.value}
    {
      data := None;
      if mTree != null {
        mTree.ModelMirrorsFields();
        PopCorrect(Model, outRanks);
        var top := DetachTop();
        data := Some(top);
      }
    }

    method DetachNode(data: T) returns (found: bool)
      requires Linked()
      modifies this, Repr
      ensures Linked() && Repr <= old(Repr)
      ensures (Model, found) == HeapTree.Remove(old(Model), data, outRanks)
    {
      found := false;
      if mTree != null {
        var tree, heapNode := LocHeapNode.Remove(mTree, data, outRanks);
        mTree := tree;
        found := heapNode != null;
        Repr := if mTree == null then {} else mTree.Repr;
        Model := LocHeapNode.TreeOf(mTree);
      }
    }

    /** Takes data out exactly when the heap holds it. */
    method Remove(data: T) returns (removed: Option<T>)
      requires Valid()
      modifies this, Repr
      ensures Valid() && Repr <= old(Repr)
      ensures removed == if data in Elements(old(Model)) then Some(data) else None
      ensures Model == HeapTree.Remove(old(Model), data, outRanks).0
      ensures Elements(Model) == Elements(old(Model)) - multiset{data}
    {
      RemoveCorrect(Model, data, outRanks);
      var found := DetachNode(data);
      removed := if found then Some(data) else None;
    }
  }
}
