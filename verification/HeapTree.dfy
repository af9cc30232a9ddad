/** The value of a timer heap: a binary tree kept in heap order by an arbitrary ranking.
    The operations follow LocHeapNode's recursion branch by branch; what they promise is
    proved in the lemmas below them. */
module HeapTree {

  import opened Wrappers

  /** `size` is the stored count (mSize), which need not be right until SizesOk says so. */
  datatype Tree<T> = Leaf | Node(size: int, left: Tree<T>, right: Tree<T>, data: T)

  /** What a ranking owes the heap: "outranks" is the strict part of a total preorder.
      Compared is always true: naming it is how a proof asks for one instance. */
  ghost predicate WeakOrder<T(!new)>(outRanks: (T, T) -> bool) {
    forall x, y, z {:trigger Compared(x, y, z)} ::
      Compared(x, y, z) ==>
        (outRanks(x, y) ==> !outRanks(y, x)) && (outRanks(x, z) ==> outRanks(x, y) || outRanks(y, z))
  }

  ghost predicate Compared<T>(x: T, y: T, z: T) { true }

  /** LocHeap::peek. */
  function Top<T>(t: Tree<T>): Option<T> {
    if t.Leaf? then None else Some(t.data)
  }

  function Single<T>(x: T): Tree<T> {
    Node(1, Leaf, Leaf, x)
  }

  function StoredSize<T>(t: Tree<T>): int {
    if t.Leaf? then 0 else t.size
  }

  ghost function Elements<T>(t: Tree<T>): multiset<T> {
    if t.Leaf? then multiset{} else Elements(t.left) + Elements(t.right) + multiset{t.data}
  }

  /** No child outranks its parent. */
  predicate Ordered<T>(t: Tree<T>, outRanks: (T, T) -> bool) {
    t.Node? ==>
      && (t.left.Node? ==> !outRanks(t.left.data, t.data))
      && (t.right.Node? ==> !outRanks(t.right.data, t.data))
      && Ordered(t.left, outRanks)
      && Ordered(t.right, outRanks)
  }

  /** Every stored size is the number of nodes of its subtree. */
  predicate SizesOk<T>(t: Tree<T>) {
    t.Node? ==>
      && SizesOk(t.left)
      && SizesOk(t.right)
      && t.size == StoredSize(t.left) + StoredSize(t.right) + 1
  }

  predicate Heap<T>(t: Tree<T>, outRanks: (T, T) -> bool) {
    SizesOk(t) && Ordered(t, outRanks)
  }

  /** LocHeapNode::push on a non-empty tree, LocHeap::push on an empty one. */
  function Push<T>(t: Tree<T>, x: T, outRanks: (T, T) -> bool): Tree<T> {
    if t.Leaf? then Single(x) else
      var (top, down) := if outRanks(x, t.data) then (x, t.data) else (t.data, x);
      if t.left.Leaf? then Node(t.size + 1, Single(down), t.right, top)
      else if t.right.Leaf? then Node(t.size + 1, t.left, Single(down), top)
      else if t.left.size <= t.right.size then Node(t.size + 1, Push(t.left, down, outRanks), t.right, top)
      else Node(t.size + 1, t.left, Push(t.right, down, outRanks), top)
  }

  /** Does the left child take the place of the popped top? */
  predicate GoesLeft<T>(t: Tree<T>, outRanks: (T, T) -> bool)
    requires t.Node? && (t.left.Node? || t.right.Node?)
  {
    t.left.Node? && (t.right.Leaf? || outRanks(t.left.data, t.right.data))
  }

  /** LocHeapNode::pop: what is left of the tree once its top is gone. */
  function Pop<T>(t: Tree<T>, outRanks: (T, T) -> bool): Tree<T>
    requires t.Node?
  {
    if t.left.Leaf? && t.right.Leaf? then Leaf
    else if GoesLeft(t, outRanks) then Node(t.size - 1, Pop(t.left, outRanks), t.right, t.left.data)
    else Node(t.size - 1, t.left, Pop(t.right, outRanks), t.right.data)
  }

  /** LocHeapNode::remove: the tree afterwards, and whether a node was taken out. */
  function Remove<T(==)>(t: Tree<T>, x: T, outRanks: (T, T) -> bool): (Tree<T>, bool) {
    if t.Leaf? then (t, false)
    else if x == t.data then (Pop(t, outRanks), true)
    else if outRanks(x, t.data) then (t, false)
    else
      var (left, inLeft) := Remove(t.left, x, outRanks);
      if inLeft then (Node(t.size - 1, left, t.right, t.data), true)
      else
        var (right, inRight) := Remove(t.right, x, outRanks);
        if inRight then (Node(t.size - 1, t.left, right, t.data), true) else (t, false)
  }

  // ---------- what the operations promise ----------

  lemma {:induction false} SizeCountsElements<T>(t: Tree<T>)
    requires SizesOk(t)
    ensures StoredSize(t) == |Elements(t)|
  {
    if t.Node? {
      SizeCountsElements(t.left);
      SizeCountsElements(t.right);
    }
  }

  lemma {:induction false} TopOutrankedByNone<T(!new)>(t: Tree<T>, x: T, outRanks: (T, T) -> bool)
    requires WeakOrder(outRanks) && Ordered(t, outRanks) && t.Node? && x in Elements(t)
    ensures !outRanks(x, t.data)
  {
    if t.left.Node? && x in Elements(t.left) {
      TopOutrankedByNone(t.left, x, outRanks);
      assert Compared(x, t.left.data, t.data);
    } else if t.right.Node? && x in Elements(t.right) {
      TopOutrankedByNone(t.right, x, outRanks);
      assert Compared(x, t.right.data, t.data);
    } else {
      assert Compared(x, x, x);
    }
  }

  lemma {:induction false} PushElements<T>(t: Tree<T>, x: T, outRanks: (T, T) -> bool)
    ensures Elements(Push(t, x, outRanks)) == Elements(t) + multiset{x}
  {
    if t.Node? {
      var (top, down) := if outRanks(x, t.data) then (x, t.data) else (t.data, x);
      Reordered(Elements(t.left), Elements(t.right), x, t.data);
      if t.left.Leaf? || (t.right.Node? && t.left.size <= t.right.size) {
        PushElements(t.left, down, outRanks);
        assert Push(t, x, outRanks) == Node(t.size + 1, Push(t.left, down, outRanks), t.right, top);
      } else {
        PushElements(t.right, down, outRanks);
        assert Push(t, x, outRanks) == Node(t.size + 1, t.left, Push(t.right, down, outRanks), top);
      }
    }
  }

  lemma Reordered<T>(l: multiset<T>, r: multiset<T>, x: T, y: T)
    ensures (l + multiset{x}) + r + multiset{y} == (l + r + multiset{y}) + multiset{x}
    ensures (l + multiset{y}) + r + multiset{x} == (l + r + multiset{y}) + multiset{x}
    ensures l + (r + multiset{x}) + multiset{y} == (l + r + multiset{y}) + multiset{x}
    ensures l + (r + multiset{y}) + multiset{x} == (l + r + multiset{y}) + multiset{x}
  {
  }

  lemma {:induction false} PushSizes<T>(t: Tree<T>, x: T, outRanks: (T, T) -> bool)
    requires SizesOk(t)
    ensures SizesOk(Push(t, x, outRanks))
    ensures StoredSize(Push(t, x, outRanks)) == StoredSize(t) + 1
  {
    if t.Node? {
      var down := if outRanks(x, t.data) then t.data else x;
      PushSizes(t.left, down, outRanks);
      PushSizes(t.right, down, outRanks);
    }
  }

  /** Push keeps the heap, adds exactly x, and lifts x to the top just when it outranks the old top. */
  lemma {:induction false} PushCorrect<T(!new)>(t: Tree<T>, x: T, outRanks: (T, T) -> bool)
    requires WeakOrder(outRanks) && Heap(t, outRanks)
    ensures Heap(Push(t, x, outRanks), outRanks)
    ensures Elements(Push(t, x, outRanks)) == Elements(t) + multiset{x}
    ensures Push(t, x, outRanks).Node?
    ensures Push(t, x, outRanks).data == if t.Leaf? || outRanks(x, t.data) then x else t.data
  {
    PushElements(t, x, outRanks);
    PushSizes(t, x, outRanks);
    PushOrdered(t, x, outRanks);
  }

  lemma {:induction false} PushOrdered<T(!new)>(t: Tree<T>, x: T, outRanks: (T, T) -> bool)
    requires WeakOrder(outRanks) && Ordered(t, outRanks)
    ensures Ordered(Push(t, x, outRanks), outRanks)
  {
    if t.Node? {
      var down := if outRanks(x, t.data) then t.data else x;
      PushOrdered(t.left, down, outRanks);
      PushOrdered(t.right, down, outRanks);
      PushKeepsChildrenBelow(t.left, t.data, x, outRanks);
      PushKeepsChildrenBelow(t.right, t.data, x, outRanks);
    }
  }

  lemma PushKeepsChildrenBelow<T(!new)>(child: Tree<T>, top: T, x: T, outRanks: (T, T) -> bool)
    requires WeakOrder(outRanks)
    requires child.Node? ==> !outRanks(child.data, top)
    ensures outRanks(x, top) ==> !outRanks(top, x) && (child.Node? ==> !outRanks(child.data, x))
  {
    assert Compared(x, top, top);
    if child.Node? {
      assert Compared(child.data, top, x);
    }
  }

  lemma {:induction false} PopElements<T>(t: Tree<T>, outRanks: (T, T) -> bool)
    requires t.Node?
    ensures Elements(t) == Elements(Pop(t, outRanks)) + multiset{t.data}
  {
    var l, r := Elements(t.left), Elements(t.right);
    if t.left.Leaf? && t.right.Leaf? {
    } else if GoesLeft(t, outRanks) {
      PopElements(t.left, outRanks);
      assert Elements(Pop(t, outRanks)) == Elements(Pop(t.left, outRanks)) + r + multiset{t.left.data};
    } else {
      PopElements(t.right, outRanks);
      assert Elements(Pop(t, outRanks)) == l + Elements(Pop(t.right, outRanks)) + multiset{t.right.data};
    }
  }

  lemma {:induction false} PopSizes<T>(t: Tree<T>, outRanks: (T, T) -> bool)
    requires SizesOk(t) && t.Node?
    ensures SizesOk(Pop(t, outRanks)) && StoredSize(Pop(t, outRanks)) == StoredSize(t) - 1
  {
    if t.left.Leaf? && t.right.Leaf? {
    } else if GoesLeft(t, outRanks) {
      PopSizes(t.left, outRanks);
    } else {
      PopSizes(t.right, outRanks);
    }
  }

  lemma {:induction false} PopOrdered<T(!new)>(t: Tree<T>, outRanks: (T, T) -> bool)
    requires WeakOrder(outRanks) && Ordered(t, outRanks) && t.Node?
    ensures Ordered(Pop(t, outRanks), outRanks)
    ensures Pop(t, outRanks).Node? ==> !outRanks(Pop(t, outRanks).data, t.data)
  {
    if t.left.Leaf? && t.right.Leaf? {
    } else if GoesLeft(t, outRanks) {
      PopOrdered(t.left, outRanks);
      if t.right.Node? {
        assert Compared(t.left.data, t.right.data, t.right.data);
      }
    } else {
      PopOrdered(t.right, outRanks);
    }
  }

  /** Pop keeps the heap and takes out exactly the top. */
  lemma {:induction false} PopCorrect<T(!new)>(t: Tree<T>, outRanks: (T, T) -> bool)
    requires WeakOrder(outRanks) && Heap(t, outRanks) && t.Node?
    ensures Heap(Pop(t, outRanks), outRanks)
    ensures Elements(Pop(t, outRanks)) == Elements(t) - multiset{t.data}
    ensures StoredSize(Pop(t, outRanks)) == StoredSize(t) - 1
  {
    PopElements(t, outRanks);
    PopSizes(t, outRanks);
    PopOrdered(t, outRanks);
  }

  /** Does the search for x go on below t's top, and on which side does it succeed? */
  ghost predicate SearchesBelow<T>(t: Tree<T>, x: T, outRanks: (T, T) -> bool) {
    t.Node? && x != t.data && !outRanks(x, t.data)
  }

  lemma {:induction false} RemoveElements<T(!new)>(t: Tree<T>, x: T, outRanks: (T, T) -> bool)
    requires WeakOrder(outRanks) && Ordered(t, outRanks)
    ensures Remove(t, x, outRanks).1 <==> x in Elements(t)
    ensures x in Elements(t) ==> Elements(t) == Elements(Remove(t, x, outRanks).0) + multiset{x}
    ensures x !in Elements(t) ==> Remove(t, x, outRanks).0 == t
  {
    if t.Leaf? {
    } else if x == t.data {
      PopElements(t, outRanks);
    } else if outRanks(x, t.data) {
      if x in Elements(t) {
        TopOutrankedByNone(t, x, outRanks);
      }
    } else {
      RemoveElements(t.left, x, outRanks);
      RemoveElements(t.right, x, outRanks);
      var (left, inLeft) := Remove(t.left, x, outRanks);
      if inLeft {
        TakenFromLeft(t, left, x);
      } else {
        var (right, inRight) := Remove(t.right, x, outRanks);
        if inRight { TakenFromRight(t, right, x); }
      }
    }
  }

  lemma TakenFromLeft<T>(t: Tree<T>, left: Tree<T>, x: T)
    requires t.Node? && Elements(t.left) == Elements(left) + multiset{x}
    ensures Elements(t) == Elements(Node(t.size - 1, left, t.right, t.data)) + multiset{x} && x in Elements(t)
  {
    var l, r, l' := Elements(t.left), Elements(t.right), Elements(left);
    assert Elements(Node(t.size - 1, left, t.right, t.data)) == l' + r + multiset{t.data};
    Reordered(l', r, x, t.data);
  }

  lemma TakenFromRight<T>(t: Tree<T>, right: Tree<T>, x: T)
    requires t.Node? && Elements(t.right) == Elements(right) + multiset{x}
    ensures Elements(t) == Elements(Node(t.size - 1, t.left, right, t.data)) + multiset{x} && x in Elements(t)
  {
    var l, r' := Elements(t.left), Elements(right);
    assert Elements(Node(t.size - 1, t.left, right, t.data)) == l + r' + multiset{t.data};
    Reordered(l, r', x, t.data);
  }

  lemma {:induction false} RemoveSizes<T>(t: Tree<T>, x: T, outRanks: (T, T) -> bool)
    requires SizesOk(t)
    ensures var (t', found) := Remove(t, x, outRanks);
      SizesOk(t') && StoredSize(t') == StoredSize(t) - (if found then 1 else 0)
  {
    if t.Node? && x == t.data {
      PopSizes(t, outRanks);
    } else if SearchesBelow(t, x, outRanks) {
      RemoveSizes(t.left, x, outRanks);
      RemoveSizes(t.right, x, outRanks);
    }
  }

  lemma {:induction false} RemoveOrdered<T(!new)>(t: Tree<T>, x: T, outRanks: (T, T) -> bool)
    requires WeakOrder(outRanks) && Ordered(t, outRanks)
    ensures var t' := Remove(t, x, outRanks).0;
      Ordered(t', outRanks) && (t'.Node? ==> t.Node? && !outRanks(t'.data, t.data))
  {
    if t.Leaf? {
    } else if x == t.data {
      PopOrdered(t, outRanks);
    } else {
      assert Compared(t.data, t.data, t.data);
      if SearchesBelow(t, x, outRanks) {
        RemoveOrdered(t.left, x, outRanks);
        RemoveOrdered(t.right, x, outRanks);
        RemoveKeepsChildBelow(t.left, t.data, x, outRanks);
        RemoveKeepsChildBelow(t.right, t.data, x, outRanks);
      }
    }
  }

  lemma RemoveKeepsChildBelow<T(!new)>(child: Tree<T>, top: T, x: T, outRanks: (T, T) -> bool)
    requires WeakOrder(outRanks)
    requires child.Node? ==> !outRanks(child.data, top)
    requires var t' := Remove(child, x, outRanks).0; t'.Node? ==> child.Node? && !outRanks(t'.data, child.data)
    ensures var t' := Remove(child, x, outRanks).0; t'.Node? ==> !outRanks(t'.data, top)
  {
    var t' := Remove(child, x, outRanks).0;
    if t'.Node? {
      assert Compared(t'.data, child.data, top);
    }
  }

  /** Remove takes x out exactly when it is there, although it skips every subtree whose top ranks
      below x; when x is not there the tree does not change; a top other than x stays on top. */
  lemma {:induction false} RemoveCorrect<T(!new)>(t: Tree<T>, x: T, outRanks: (T, T) -> bool)
    requires WeakOrder(outRanks) && Heap(t, outRanks)
    ensures var (t', found) := Remove(t, x, outRanks);
      && (found <==> x in Elements(t))
      && Heap(t', outRanks)
      && Elements(t') == Elements(t) - multiset{x}
      && (!found ==> t' == t)
      && StoredSize(t') == StoredSize(t) - (if found then 1 else 0)
    ensures t.Node? && x != t.data ==> KeepsTop(t, Remove(t, x, outRanks).0)
  {
    RemoveElements(t, x, outRanks);
    RemoveSizes(t, x, outRanks);
    RemoveOrdered(t, x, outRanks);
    TakeOut(Elements(t), Elements(Remove(t, x, outRanks).0), x);
    RemoveKeepsTop(t, x, outRanks);
  }

  predicate KeepsTop<T(==)>(t: Tree<T>, t': Tree<T>) {
    t.Node? && t'.Node? && t'.data == t.data
  }

  lemma RemoveKeepsTop<T>(t: Tree<T>, x: T, outRanks: (T, T) -> bool)
    ensures t.Node? && x != t.data ==> KeepsTop(t, Remove(t, x, outRanks).0)
  {
  }

  lemma TakeOut<T>(before: multiset<T>, after: multiset<T>, x: T)
    requires if x in before then before == after + multiset{x} else after == before
    ensures after == before - multiset{x}
  {
  }

  // ---------- draining ----------

  /** The data in the order repeated pops hand them out. */
  function Drain<T>(t: Tree<T>, outRanks: (T, T) -> bool): seq<T>
    decreases NodeCount(t)
  {
    if t.Leaf? then [] else
      PopShrinks(t, outRanks);
      [t.data] + Drain(Pop(t, outRanks), outRanks)
  }

  function NodeCount<T>(t: Tree<T>): nat {
    if t.Leaf? then 0 else NodeCount(t.left) + NodeCount(t.right) + 1
  }

  lemma {:induction false} PopShrinks<T>(t: Tree<T>, outRanks: (T, T) -> bool)
    requires t.Node?
    ensures NodeCount(Pop(t, outRanks)) == NodeCount(t) - 1
  {
    if t.left.Node? || t.right.Node? {
      PopShrinks(if GoesLeft(t, outRanks) then t.left else t.right, outRanks);
    }
  }

  ghost predicate SortedByRank<T>(s: seq<T>, outRanks: (T, T) -> bool) {
    forall i, j | 0 <= i < j < |s| :: !outRanks(s[j], s[i])
  }

  /** Draining any heap gives its contents, each once, in non-increasing rank. */
  lemma {:induction false} DrainSorts<T(!new)>(t: Tree<T>, outRanks: (T, T) -> bool)
    requires WeakOrder(outRanks) && Heap(t, outRanks)
    ensures multiset(Drain(t, outRanks)) == Elements(t)
    ensures SortedByRank(Drain(t, outRanks), outRanks)
    decreases NodeCount(t)
  {
    if t.Node? {
      var rest := Pop(t, outRanks);
      PopShrinks(t, outRanks);
      PopCorrect(t, outRanks);
      DrainSorts(rest, outRanks);
      PopElements(t, outRanks);
      PrependSorted(t, Drain(rest, outRanks), outRanks);
    }
  }

  lemma PrependSorted<T(!new)>(t: Tree<T>, s: seq<T>, outRanks: (T, T) -> bool)
    requires WeakOrder(outRanks) && Ordered(t, outRanks) && t.Node?
    requires multiset(s) <= Elements(t) && SortedByRank(s, outRanks)
    ensures SortedByRank([t.data] + s, outRanks)
  {
    forall j | 0 <= j < |s| ensures !outRanks(s[j], t.data) {
      assert s[j] in multiset(s);
      TopOutrankedByNone(t, s[j], outRanks);
    }
  }

  // ---------- balance ----------

  /** Pushes fill the smaller side, the left one first. */
  predicate Balanced<T>(t: Tree<T>) {
    t.Node? ==>
      && Balanced(t.left)
      && Balanced(t.right)
      && 0 <= StoredSize(t.left) - StoredSize(t.right) <= 1
  }

  function Height<T>(t: Tree<T>): nat {
    if t.Leaf? then 0
    else if Height(t.left) < Height(t.right) then Height(t.right) + 1 else Height(t.left) + 1
  }

  function Pow2(n: nat): nat {
    if n == 0 then 1 else 2 * Pow2(n - 1)
  }

  function PushAll<T>(xs: seq<T>, outRanks: (T, T) -> bool): Tree<T> {
    if xs == [] then Leaf else Push(PushAll(xs[..|xs| - 1], outRanks), xs[|xs| - 1], outRanks)
  }

  lemma {:induction false} PushKeepsBalance<T>(t: Tree<T>, x: T, outRanks: (T, T) -> bool)
    requires SizesOk(t) && Balanced(t)
    ensures var t' := Push(t, x, outRanks); SizesOk(t') && Balanced(t') && StoredSize(t') == StoredSize(t) + 1
  {
    if t.Node? {
      var down := if outRanks(x, t.data) then t.data else x;
      SizesNonNegative(t.left);
      SizesNonNegative(t.right);
      PushKeepsBalance(t.left, down, outRanks);
      PushKeepsBalance(t.right, down, outRanks);
    }
  }

  lemma {:induction false} SizesNonNegative<T>(t: Tree<T>)
    requires SizesOk(t)
    ensures StoredSize(t) >= 0 && (StoredSize(t) == 0 <==> t.Leaf?)
  {
    if t.Node? {
      SizesNonNegative(t.left);
      SizesNonNegative(t.right);
    }
  }

  lemma {:induction false} BalancedIsShallow<T>(t: Tree<T>)
    requires SizesOk(t) && Balanced(t) && t.Node?
    ensures Pow2(Height(t) - 1) <= t.size
  {
    SizesNonNegative(t.left);
    SizesNonNegative(t.right);
    if t.left.Node? {
      BalancedIsShallow(t.left);
    }
    if t.right.Node? {
      BalancedIsShallow(t.right);
    }
  }

  /** A heap built by n pushes alone has height at most floor(log2 n) + 1. */
  lemma {:induction false} PushesStayShallow<T>(xs: seq<T>, outRanks: (T, T) -> bool)
    ensures var t := PushAll(xs, outRanks);
      && SizesOk(t) && Balanced(t) && StoredSize(t) == |xs|
      && (xs != [] ==> Pow2(Height(t) - 1) <= |xs|)
  {
    if xs != [] {
      PushesStayShallow(xs[..|xs| - 1], outRanks);
      PushKeepsBalance(PushAll(xs[..|xs| - 1], outRanks), xs[|xs| - 1], outRanks);
      BalancedIsShallow(PushAll(xs, outRanks));
    }
  }
}
