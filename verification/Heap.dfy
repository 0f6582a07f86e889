/** The linked binary heap of deps/libuv/src/heap-inl.h. */
module Heaps {
  import opened Bytes
  import opened Sequences

  class Node<K> {
    var left: Node?<K>
    var right: Node?<K>
    var parent: Node?<K>
    const key: K

    constructor (key: K)
      ensures this.key == key
    {
      this.key := key;
      left, right, parent := null, null, null;
    }
  }

  /** The node at level-order position `p`, counted from 1; none at 0 and past the end. */
  ghost function At<K>(at: seq<Node<K>>, p: nat): (n: Node?<K>)
    ensures n != null <==> 1 <= p <= |at|
    ensures n != null ==> n in at
  {
    if 1 <= p <= |at| then at[p - 1] else null
  }

  datatype Links<K> = Links(left: Node?<K>, right: Node?<K>, parent: Node?<K>)

  ghost function LinksOf<K>(n: Node<K>): Links<K>
    reads n
  {
    Links(n.left, n.right, n.parent)
  }

  /** The links that a complete binary tree has at position `p`. */
  ghost function TreeLinks<K>(at: seq<Node<K>>, p: nat): Links<K> {
    Links(At(at, 2 * p), At(at, 2 * p + 1), At(at, p / 2))
  }

  ghost predicate Linked<K>(at: seq<Node<K>>)
    reads at
  {
    Distinct(at) && forall p :: 1 <= p <= |at| ==> LinksOf(at[p - 1]) == TreeLinks(at, p)
  }

  ghost function Swapped<K>(at: seq<Node<K>>, p: nat, c: nat): (r: seq<Node<K>>)
    requires 1 <= p <= |at| && 1 <= c <= |at|
    ensures |r| == |at|
  {
    at[p - 1 := at[c - 1]][c - 1 := at[p - 1]]
  }

  /** The links of the node that was at position `q` after the node at `p` and its child at `c` have changed places. */
  ghost function Adjusted<K>(at: seq<Node<K>>, p: nat, c: nat, q: nat): Links<K>
    requires 1 <= p <= |at| && 1 <= c <= |at|
  {
    var n := TreeLinks(at, q);
    var parent, child := at[p - 1], at[c - 1];
    if q == p then Links(At(at, 2 * c), At(at, 2 * c + 1), child)
    else if q == c then
      if c == 2 * p then Links(parent, At(at, 2 * p + 1), At(at, p / 2)) else Links(At(at, 2 * p), parent, At(at, p / 2))
    else
      Links(if 2 * q == p then child else n.left, if 2 * q + 1 == p then child else n.right,
            if q / 2 == c then parent else if q / 2 == p then child else n.parent)
  }

  /** That is what the complete tree with the two exchanged asks for. */
  lemma AdjustedIsTree<K>(at: seq<Node<K>>, p: nat, c: nat, q: nat)
    requires 1 <= p && 2 <= c <= |at| && p == c / 2 && 1 <= q <= |at|
    ensures TreeLinks(Swapped(at, p, c), q) == Adjusted(at, p, c, if q == p then c else if q == c then p else q)
  {
  }

  ghost function Nodes<K>(at: seq<Node<K>>): set<Node<K>> {
    set n | n in at
  }

  lemma SwappedNodes<K>(at: seq<Node<K>>, p: nat, c: nat)
    requires 1 <= p <= |at| && 1 <= c <= |at|
    ensures Nodes(Swapped(at, p, c)) == Nodes(at)
  {
    var at' := Swapped(at, p, c);
    forall n | n in at
      ensures n in at'
    {
      var i :| 0 <= i < |at| && at[i] == n;
      assert at'[if i == p - 1 then c - 1 else if i == c - 1 then p - 1 else i] == n;
    }
  }

  lemma SwappedDistinct<K>(at: seq<Node<K>>, p: nat, c: nat)
    requires Distinct(at) && 1 <= p <= |at| && 1 <= c <= |at|
    ensures Distinct(Swapped(at, p, c))
  {
  }

  /** The nodes whose links a swap changes: the two, and those above, beside and below them. */
  ghost predicate Apart<K>(near: Near<K>) {
    && near.parent != near.child && near.parent != near.above && near.parent != near.sibling
    && near.parent != near.l && near.parent != near.r
    && near.child != near.above && near.child != near.sibling && near.child != near.l && near.child != near.r
    && (near.above == null || (near.above != near.sibling && near.above != near.l && near.above != near.r))
    && (near.sibling == null || (near.sibling != near.l && near.sibling != near.r)) && (near.l == null || near.l != near.r)
  }

  datatype Near<K> = Near(parent: Node<K>, child: Node<K>, above: Node?<K>, sibling: Node?<K>, l: Node?<K>, r: Node?<K>,
                          childIsLeft: bool, parentIsLeft: bool)

  ghost function NearOf<K>(at: seq<Node<K>>, p: nat, c: nat): Near<K>
    requires 1 <= p <= |at| && 1 <= c <= |at|
  {
    Near(at[p - 1], at[c - 1], At(at, p / 2), At(at, if c == 2 * p then 2 * p + 1 else 2 * p),
         At(at, 2 * c), At(at, 2 * c + 1), c == 2 * p, p % 2 == 0)
  }

  /** The new links of a node that had the links `old`. */
  ghost function Relinked<K>(near: Near<K>, n: Node<K>, before: Links<K>): Links<K> {
    if n == near.parent then Links(near.l, near.r, near.child)
    else if n == near.child then
      if near.childIsLeft then Links(near.parent, near.sibling, near.above) else Links(near.sibling, near.parent, near.above)
    else if n == near.sibling then before.(parent := near.child)
    else if n == near.l || n == near.r then before.(parent := near.parent)
    else if n == near.above then if near.parentIsLeft then before.(left := near.child) else before.(right := near.child)
    else before
  }

  /** A node, the one above it and those below it are different nodes. */
  lemma NeighboursApart<K>(at: seq<Node<K>>, p: nat)
    requires Distinct(at) && 1 <= p <= |at|
    ensures var n, a, l, r := at[p - 1], At(at, p / 2), At(at, 2 * p), At(at, 2 * p + 1);
            && n != a && n != l && n != r && (a != null ==> a != l && a != r) && (l != null ==> l != r)
            && (a != null ==> (At(at, p / 2 * 2) == n <==> p % 2 == 0))
  {
    hide Distinct;
    DifferentAt(at, p, 2 * p); DifferentAt(at, p, 2 * p + 1); DifferentAt(at, p, p / 2); DifferentAt(at, p, p / 2 * 2);
    DifferentAt(at, 2 * p, p / 2); DifferentAt(at, 2 * p + 1, p / 2); DifferentAt(at, 2 * p, 2 * p + 1);
  }

  /** The node at position `q` is one of these only if that is its position. */
  lemma WhichNeighbour<K>(at: seq<Node<K>>, p: nat, q: nat)
    requires Distinct(at) && 1 <= p <= |at| && 1 <= q <= |at|
    ensures at[q - 1] == at[p - 1] ==> q == p
    ensures (at[q - 1] == At(at, 2 * p) <==> q == 2 * p) && (at[q - 1] == At(at, 2 * p + 1) <==> q == 2 * p + 1)
    ensures at[q - 1] == At(at, p / 2) <==> q == p / 2
  {
    hide Distinct;
    DifferentAt(at, q, p); DifferentAt(at, q, 2 * p); DifferentAt(at, q, 2 * p + 1); DifferentAt(at, q, p / 2);
  }

  lemma RelinkedIsAdjusted<K>(at: seq<Node<K>>, p: nat, c: nat, q: nat)
    requires Distinct(at) && 1 <= p && 2 <= c <= |at| && p == c / 2 && 1 <= q <= |at|
    ensures Relinked(NearOf(at, p, c), at[q - 1], TreeLinks(at, q)) == Adjusted(at, p, c, q)
  {
    hide Distinct;
    DifferentAt(at, q, p); DifferentAt(at, q, c); DifferentAt(at, q, p / 2);
    DifferentAt(at, q, if c == 2 * p then 2 * p + 1 else 2 * p);
    DifferentAt(at, q, 2 * c); DifferentAt(at, q, 2 * c + 1);
  }

  lemma DifferentAt<K>(at: seq<Node<K>>, p: nat, q: nat)
    requires Distinct(at)
    ensures At(at, p) != null && At(at, p) == At(at, q) ==> p == q
  {
  }

  class Heap<K(!new)> {
    var min: Node?<K>
    var nelts: nat
    const less: (K, K) -> bool

    /** The nodes in level order. */
    ghost var at: seq<Node<K>>

    ghost predicate Shape()
      reads this, at
    {
      Linked(at) && min == At(at, 1) && nelts == |at|
    }

    /** `heap_init` */
    constructor (less: (K, K) -> bool)
      ensures Shape() && at == [] && this.less == less
    {
      min, nelts, at := null, 0, [];
      this.less := less;
    }

    /** `heap_node_swap`, lines 78 to 91: the two nodes and the sibling. */
    method Exchange(parent: Node<K>, child: Node<K>, ghost sibling: Node?<K>)
      requires parent != child && parent != sibling && child != sibling && child.left != child && child.right != child
      requires (parent.left == child && parent.right == sibling) || (parent.right == child && parent.left == sibling)
      modifies parent, child, sibling
      ensures LinksOf(parent) == Links(old(child.left), old(child.right), child)
      ensures LinksOf(child) ==
              if old(parent.left) == child then Links(parent, sibling, old(parent.parent))
              else Links(sibling, parent, old(parent.parent))
      ensures sibling != null ==> LinksOf(sibling) == old(LinksOf(sibling)).(parent := child)
    {
      parent.left, child.left := child.left, parent.left;
      parent.right, child.right := child.right, parent.right;
      parent.parent, child.parent := child.parent, parent.parent;

      parent.parent := child;
      var sibling';
      if child.left == child {
        child.left := parent;
        sibling' := child.right;
      } else {
        child.right := parent;
        sibling' := child.left;
      }
      if sibling' != null {
        sibling'.parent := child;
      }
    }

    /** `heap_node_swap`, lines 93 to 103: the former children of the child, and the link from above. */
    method Reattach(parent: Node<K>, child: Node<K>, ghost above: Node?<K>, ghost l: Node?<K>, ghost r: Node?<K>)
      requires parent != l && parent != r && child != l && child != r && child != above && parent != above
      requires l == null || (l != r && l != above)
      requires r == null || r != above
      requires parent.left == l && parent.right == r && child.parent == above
      modifies this`min, above, l, r
      ensures l != null ==> LinksOf(l) == old(LinksOf(l)).(parent := parent)
      ensures r != null ==> LinksOf(r) == old(LinksOf(r)).(parent := parent)
      ensures min == if above == null then child else old(min)
      ensures above != null ==>
                LinksOf(above) == if old(above.left) == parent then old(LinksOf(above)).(left := child)
                                  else old(LinksOf(above)).(right := child)
    {
      if parent.left != null {
        parent.left.parent := parent;
      }
      if parent.right != null {
        parent.right.parent := parent;
      }
      if child.parent == null {
        min := child;
      } else if child.parent.left == parent {
        child.parent.left := child;
      } else {
        child.parent.right := child;
      }
    }

    /** All the pointer work of `heap_node_swap`. */
    method Relink(parent: Node<K>, child: Node<K>, ghost near: Near<K>)
      requires parent == near.parent && child == near.child && Apart(near)
      requires LinksOf(child) == Links(near.l, near.r, parent) && parent.parent == near.above
      requires LinksOf(parent) ==
               if near.childIsLeft then Links(child, near.sibling, near.above) else Links(near.sibling, child, near.above)
      requires near.above != null ==> (near.above.left == parent) == near.parentIsLeft
      modifies this`min, parent, child, near.above, near.sibling, near.l, near.r
      ensures min == if near.above == null then child else old(min)
      ensures forall i :: 0 <= i < |at| ==> LinksOf(at[i]) == Relinked(near, at[i], old(LinksOf(at[i])))
    {
      Exchange(parent, child, near.sibling);
      Reattach(parent, child, near.above, near.l, near.r);
      forall i | 0 <= i < |at|
        ensures LinksOf(at[i]) == Relinked(near, at[i], old(LinksOf(at[i])))
      {
        if at[i] == near.parent {
        } else if at[i] == near.child {
        } else if at[i] == near.sibling {
        } else if at[i] == near.l {
        } else if at[i] == near.r {
        } else if at[i] == near.above {
        } else {
        }
      }
    }

    /** In terms of the level order: every node's links are adjusted. */
    method SwapPointers(parent: Node<K>, child: Node<K>, ghost p: nat, ghost c: nat)
      requires Shape() && 1 <= p && 2 <= c <= |at| && p == c / 2 && parent == at[p - 1] && child == at[c - 1]
      modifies this`min, Nodes(at)
      ensures forall q :: 1 <= q <= |at| ==> LinksOf(at[q - 1]) == Adjusted(at, p, c, q)
      ensures min == if p == 1 then child else old(min)
    {
      hide Distinct, Adjusted, Relinked;
      NearFits(p, c);
      Relink(parent, child, NearOf(at, p, c));
      forall q | 1 <= q <= |at|
        ensures LinksOf(at[q - 1]) == Adjusted(at, p, c, q)
      {
        assert old(LinksOf(at[q - 1])) == TreeLinks(at, q);
        RelinkedIsAdjusted(at, p, c, q);
      }
    }

    /** `heap_node_swap`: parent and child change places in level order, and every link is right again. */
    method NodeSwap(parent: Node<K>, child: Node<K>, ghost p: nat, ghost c: nat)
      requires Shape() && 1 <= p && 2 <= c <= |at| && p == c / 2 && parent == at[p - 1] && child == at[c - 1]
      modifies this`min, this`at, Nodes(at)
      ensures at == Swapped(old(at), p, c) && Shape() && Nodes(at) == old(Nodes(at))
    {
      hide Distinct, TreeLinks, Adjusted;
      SwapPointers(parent, child, p, c);
      at := Swapped(at, p, c);
      forall q | 1 <= q <= |at|
        ensures LinksOf(at[q - 1]) == TreeLinks(at, q)
      {
        ghost var q' := if q == p then c else if q == c then p else q;
        AdjustedIsTree(old(at), p, c, q);
        assert at[q - 1] == old(at)[q' - 1];
      }
      SwappedDistinct(old(at), p, c);
      SwappedNodes(old(at), p, c);
    }

    lemma NearFits(p: nat, c: nat)
      requires Shape() && 1 <= p && 2 <= c <= |at| && p == c / 2
      ensures var near := NearOf(at, p, c);
              && Apart(near)
              && LinksOf(near.child) == Links(near.l, near.r, near.parent) && near.parent.parent == near.above
              && LinksOf(near.parent) == (if near.childIsLeft then Links(near.child, near.sibling, near.above)
                                          else Links(near.sibling, near.child, near.above))
              && (near.above != null ==> (near.above.left == near.parent) == near.parentIsLeft)
    {
      assert LinksOf(at[p - 1]) == TreeLinks(at, p) && LinksOf(at[c - 1]) == TreeLinks(at, c);
      if p > 1 { assert LinksOf(at[p / 2 - 1]) == TreeLinks(at, p / 2); }
    }

    /** Sift up: the last loops of `heap_insert` and `heap_remove`. */
    method SiftUp(node: Node<K>, ghost start: nat)
      requires Shape() && StrictWeakOrder(less) && 1 <= start <= |at| && node == at[start - 1]
      requires AlmostOrdered(Keys(at), less, start) && ChildrenOrdered(Keys(at), less, start)
      modifies this`min, this`at, Nodes(at)
      ensures Shape() && HeapOrdered(Keys(at), less) && Nodes(at) == old(Nodes(at))
    {
      hide TreeLinks, Distinct, AlmostOrdered, ChildrenOrdered, StrictWeakOrder;
      ghost var i := start;
      ParentAt(i);
      while node.parent != null && less(node.key, node.parent.key)
        invariant Shape() && 1 <= i <= |at| && node == at[i - 1] && Nodes(at) == old(Nodes(at))
        invariant node.parent == At(at, i / 2)
        invariant AlmostOrdered(Keys(at), less, i) && ChildrenOrdered(Keys(at), less, i)
        decreases i
      {
        ghost var before := at;
        NodeSwap(node.parent, node, i / 2, i);
        UpStep(before, less, i);
        i := i / 2;
        ParentAt(i);
      }
      OrderedEverywhere(Keys(at), less, i);
    }

    lemma ParentAt(i: nat)
      requires Shape() && 1 <= i <= |at|
      ensures at[i - 1].left == At(at, 2 * i) && at[i - 1].right == At(at, 2 * i + 1) && at[i - 1].parent == At(at, i / 2)
    {
      assert LinksOf(at[i - 1]) == TreeLinks(at, i);
    }

    /** The least of a node and its children, lines 221 to 225. */
    method Smallest(child: Node<K>, ghost i: nat) returns (smallest: Node<K>, ghost c: nat)
      requires Shape() && StrictWeakOrder(less) && 1 <= i <= |at| && child == at[i - 1]
      ensures 1 <= c <= |at| && smallest == at[c - 1] && (smallest == child ==> c == i && ChildrenOrdered(Keys(at), less, i))
      ensures smallest != child ==> c / 2 == i && less(smallest.key, child.key) && SiblingNotLess(Keys(at), less, i, c)
      ensures smallest == child || smallest == child.left || smallest == child.right
      ensures child.left != null ==> !less(child.left.key, smallest.key)
      ensures child.right != null ==> !less(child.right.key, smallest.key)
      ensures smallest == child.right && child.left != null ==> less(smallest.key, child.left.key)
    {
      ParentAt(i);
      smallest, c := child, i;
      if child.left != null && less(child.left.key, smallest.key) {
        smallest, c := child.left, 2 * i;
      }
      if child.right != null && less(child.right.key, smallest.key) {
        smallest, c := child.right, 2 * i + 1;
      }
      if c != i { DifferentAt(at, c, i); }
    }

    /** Sift down: the loop of `heap_remove`, lines 220 to 229. */
    method SiftDown(child: Node<K>, ghost start: nat) returns (ghost i: nat)
      requires Shape() && StrictWeakOrder(less) && 1 <= start <= |at| && child == at[start - 1]
      requires AlmostOrdered(Keys(at), less, start)
      modifies this`min, this`at, Nodes(at)
      ensures Shape() && 1 <= i <= |at| && child == at[i - 1] && Nodes(at) == old(Nodes(at))
      ensures AlmostOrdered(Keys(at), less, i) && ChildrenOrdered(Keys(at), less, i)
    {
      hide TreeLinks, Distinct, AlmostOrdered, ChildrenOrdered, StrictWeakOrder, SiblingNotLess;
      i := start;
      var smallest, c := Smallest(child, i);
      while smallest != child
        invariant Shape() && 1 <= i <= |at| && child == at[i - 1] && Nodes(at) == old(Nodes(at))
        invariant AlmostOrdered(Keys(at), less, i)
        invariant 1 <= c <= |at| && smallest == at[c - 1]
        invariant smallest == child ==> c == i && ChildrenOrdered(Keys(at), less, i)
        invariant smallest != child ==> c / 2 == i && less(smallest.key, child.key) && SiblingNotLess(Keys(at), less, i, c)
        decreases |at| - i
      {
        ghost var before := at;
        NodeSwap(child, smallest, i, c);
        DownStep(before, less, i, c);
        i := c;
        smallest, c := Smallest(child, i);
      }
    }

    /** The path from the root to position `n`, lowest bit first; `path` is an `unsigned int`. */
    method PathTo(n: nat) returns (path: nat, k: nat)
      requires 0 < n < UINT_LIMIT
      ensures Walk(1, path, k) == n
    {
      path, k := 0, 0;
      var m := n;
      assert Scaled(n, 0) == n && Walk(n, 0, 0) == n && Pow2(0) == 1;
      while m >= 2
        invariant m >= 1 && Walk(m, path, k) == n && path < Pow2(k) && Scaled(m, k) <= n
        decreases m
      {
        PathStep(m, path, k, n);
        var bit := m % 2;
        path := Uint(2 * path + bit);
        k := k + 1;
        m := m / 2;
      }
    }

    /** Follow the path: the slot for position `n` is a child of `owner`, or the root pointer when there is none. */
    method Descend(n: nat) returns (owner: Node?<K>, isRight: bool)
      requires Shape() && 0 < n < UINT_LIMIT && n <= |at| + 1
      ensures owner == At(at, n / 2) && (n > 1 ==> isRight == (n % 2 == 1))
    {
      var path, k := PathTo(n);
      owner, isRight := null, false;
      ghost var p := 1;
      while k > 0
        invariant p >= 1 && Walk(p, path, k) == n
        invariant owner == At(at, p / 2) && (p > 1 ==> isRight == (p % 2 == 1)) && p <= |at| + 1
      {
        WalkGrows(p, path, k);
        var here := if owner == null then min else if isRight then owner.right else owner.left;
        if p > 1 { assert LinksOf(at[p / 2 - 1]) == TreeLinks(at, p / 2); }
        owner, isRight := here, path % 2 == 1;
        p := 2 * p + path % 2;
        path := path / 2;
        k := k - 1;
      }
    }

    /** `*child = value`: the slot is a child pointer of `owner`, or the root pointer when there is none. */
    method SetSlot(owner: Node?<K>, isRight: bool, value: Node?<K>)
      modifies this`min, owner
      ensures min == if owner == null then value else old(min)
      ensures owner != null ==> LinksOf(owner) == WithChild(old(LinksOf(owner)), isRight, value)
    {
      if owner == null {
        min := value;
      } else if isRight {
        owner.right := value;
      } else {
        owner.left := value;
      }
    }

    method ReadSlot(owner: Node?<K>, isRight: bool, ghost n: nat) returns (value: Node?<K>)
      requires Shape() && 1 <= n <= |at| && owner == At(at, n / 2) && (n > 1 ==> isRight == (n % 2 == 1))
      ensures value == At(at, n)
    {
      if n > 1 { ParentAt(n / 2); }
      value := if owner == null then min else if isRight then owner.right else owner.left;
    }

    /** `heap_insert`, lines 115 to 141: the new node becomes the last one in level order. */
    method Attach(newnode: Node<K>)
      requires Shape() && newnode !in at && |at| + 1 < UINT_LIMIT
      modifies this, Nodes(at), newnode
      ensures Shape() && at == old(at) + [newnode]
    {
      hide Distinct, TreeLinks;
      newnode.left, newnode.right, newnode.parent := null, null, null;
      var owner, isRight := Descend(nelts + 1);
      newnode.parent := owner;
      SetSlot(owner, isRight, newnode);
      nelts := nelts + 1;
      at := at + [newnode];
      forall q | 1 <= q <= |at|
        ensures LinksOf(at[q - 1]) == TreeLinks(at, q)
      {
        AttachedLinks(old(at), newnode, q);
        if q < |at| { assert old(LinksOf(at[q - 1])) == TreeLinks(old(at), q); }
        DifferentAt(old(at), q, |at| / 2);
      }
      DistinctAttach(old(at), newnode);
    }

    /** `heap_insert` */
    method Insert(newnode: Node<K>)
      requires Shape() && HeapOrdered(Keys(at), less) && StrictWeakOrder(less)
      requires newnode !in at && |at| + 1 < UINT_LIMIT
      modifies this, Nodes(at), newnode
      ensures Shape() && HeapOrdered(Keys(at), less) && Nodes(at) == old(Nodes(at)) + {newnode}
    {
      ghost var before := at;
      Attach(newnode);
      AppendOrder(before, newnode, less);
      assert Nodes(at) == Nodes(before) + {newnode};
      SiftUp(newnode, |at|);
    }

    /** `heap_remove`, lines 160 to 185: unlink the last node in level order. */
    method DetachLast() returns (child: Node<K>)
      requires Shape() && 0 < |at| < UINT_LIMIT
      modifies this, Nodes(at)
      ensures Shape() && child == old(at)[|old(at)| - 1] && at == old(at)[..|old(at)| - 1]
    {
      hide Distinct, TreeLinks;
      var owner, isRight := Descend(nelts);
      ghost var n := |at|;
      child := ReadSlot(owner, isRight, n);
      nelts := nelts - 1;
      SetSlot(owner, isRight, null);
      at := at[..n - 1];
      forall q | 1 <= q <= |at|
        ensures LinksOf(at[q - 1]) == TreeLinks(at, q)
      {
        DetachedLinks(old(at), q);
        assert old(LinksOf(at[q - 1])) == TreeLinks(old(at), q);
        DifferentAt(old(at), q, n / 2);
      }
      DistinctDetach(old(at));
    }

    /** `heap_remove`, lines 195 to 214: `child`, which is not in the tree, takes the place of `node`. */
    method Replace(node: Node<K>, child: Node<K>, ghost p: nat)
      requires Shape() && 1 <= p <= |at| && node == at[p - 1] && child !in at
      modifies this`min, this`at, Nodes(at), child
      ensures at == old(at)[p - 1 := child] && Shape()
    {
      hide Distinct, TreeLinks, LinksOf;
      ParentAt(p);
      ghost var above := At(at, p / 2);
      if p > 1 { ParentAt(p / 2); }
      NeighboursApart(at, p);
      Transplant(node, child, above, p % 2 == 0);
      at := at[p - 1 := child];
      forall q | 1 <= q <= |at|
        ensures LinksOf(at[q - 1]) == TreeLinks(at, q)
      {
        ReplacedLinks(old(at), p, child, q);
        assert old(LinksOf(at[q - 1])) == TreeLinks(old(at), q);
        WhichNeighbour(old(at), p, q);
      }
      DistinctReplace(old(at), p, child);
    }

    /** The assignments of lines 196 to 214. */
    method Transplant(node: Node<K>, child: Node<K>, ghost above: Node?<K>, ghost isLeft: bool)
      requires node != child && node.parent == above && node != above && node != node.left && node != node.right
      requires child != above && child != node.left && child != node.right
      requires above != null ==> above != node.left && above != node.right && (above.left == node) == isLeft
      requires node.left != null ==> node.left != node.right
      modifies this`min, child, above, node.left, node.right
      ensures LinksOf(child) == LinksOf(node) == old(LinksOf(node))
      ensures min == if above == null then child else old(min)
      ensures above != null ==> LinksOf(above) == WithChild(old(LinksOf(above)), !isLeft, child)
      ensures node.left != null ==> LinksOf(node.left) == old(LinksOf(node.left)).(parent := child)
      ensures node.right != null ==> LinksOf(node.right) == old(LinksOf(node.right)).(parent := child)
    {
      child.left := node.left;
      child.right := node.right;
      child.parent := node.parent;
      if child.left != null {
        child.left.parent := child;
      }
      if child.right != null {
        child.right.parent := child;
      }
      if node.parent == null {
        min := child;
      } else if node.parent.left == node {
        node.parent.left := child;
      } else {
        node.parent.right := child;
      }
    }

    /** `heap_remove`: any node of the heap, wherever it is; nothing happens in an empty heap. */
    method Remove(node: Node?<K>)
      requires Shape() && HeapOrdered(Keys(at), less) && StrictWeakOrder(less) && |at| < UINT_LIMIT
      requires nelts == 0 || (node != null && node in at)
      modifies this, Nodes(at)
      ensures Shape() && HeapOrdered(Keys(at), less)
      ensures node != null ==> Nodes(at) == old(Nodes(at)) - {node}
      ensures node == null ==> Nodes(at) == old(Nodes(at)) == {}
    {
      if nelts == 0 {
        return;
      }
      ghost var all := at;
      var child := DetachLast();
      if child == node {
        // the source tests for `child == heap->min` here; unlinking has already cleared the root pointer in that case
        assert child != min;
        DetachedNodes(all);
        DetachedOrder(Keys(all), less);
        assert Keys(at) == Keys(all)[..|at|];
        return;
      }
      ghost var p :| 0 <= p < |all| && all[p] == node;
      RemoveAt(node, child, p + 1, all);
    }

    /** `heap_remove`, lines 195 to 236, once the last node is unlinked. */
    method RemoveAt(node: Node<K>, child: Node<K>, ghost p: nat, ghost all: seq<Node<K>>)
      requires Shape() && HeapOrdered(Keys(all), less) && StrictWeakOrder(less) && Distinct(all)
      requires 1 <= p < |all| && at == all[..|all| - 1] && child == all[|all| - 1] && node == at[p - 1]
      modifies this`min, this`at, Nodes(at), child
      ensures Shape() && HeapOrdered(Keys(at), less) && Nodes(at) == Nodes(all) - {node}
    {
      hide TreeLinks, AlmostOrdered, ChildrenOrdered, StrictWeakOrder, HeapOrdered;
      DifferentAt(all, |all|, p);
      assert child !in at;
      Replace(node, child, p);
      MovedNodes(all, p);
      MovedOrder(all, less, p);
      ghost var i := SiftDown(child, p);
      SiftUp(child, i);
    }

    /** `heap_dequeue` */
    method Dequeue()
      requires Shape() && HeapOrdered(Keys(at), less) && StrictWeakOrder(less) && |at| < UINT_LIMIT
      modifies this, Nodes(at)
      ensures Shape() && HeapOrdered(Keys(at), less)
      ensures old(min) != null ==> Nodes(at) == old(Nodes(at)) - {old(min)}
      ensures old(min) == null ==> Nodes(at) == {}
    {
      Remove(min);
    }
  }

  lemma DetachedNodes<K>(all: seq<Node<K>>)
    requires Distinct(all) && all != []
    ensures Nodes(all[..|all| - 1]) == Nodes(all) - {all[|all| - 1]}
  {
    assert all == all[..|all| - 1] + [all[|all| - 1]];
  }

  lemma MovedNodes<K>(all: seq<Node<K>>, p: nat)
    requires Distinct(all) && 1 <= p < |all|
    ensures Nodes(all[..|all| - 1][p - 1 := all[|all| - 1]]) == Nodes(all) - {all[p - 1]}
  {
    var n := |all|;
    var r := all[..n - 1][p - 1 := all[n - 1]];
    forall x | x in all && x != all[p - 1]
      ensures x in r
    {
      var i :| 0 <= i < n && all[i] == x;
      assert r[if i == n - 1 then p - 1 else i] == x;
    }
  }

  lemma DetachedOrder<K>(keys: seq<K>, less: (K, K) -> bool)
    requires HeapOrdered(keys, less) && keys != []
    ensures HeapOrdered(keys[..|keys| - 1], less)
  {
    var keys' := keys[..|keys| - 1];
    forall p: nat
      ensures OrderedAt(keys', less, p)
    {
      assert OrderedAt(keys, less, p);
    }
  }

  /** Moving the last key to position `p` disturbs the order only there. */
  lemma MovedOrder<K(!new)>(all: seq<Node<K>>, less: (K, K) -> bool, p: nat)
    requires HeapOrdered(Keys(all), less) && StrictWeakOrder(less) && 1 <= p < |all|
    ensures AlmostOrdered(Keys(all[..|all| - 1][p - 1 := all[|all| - 1]]), less, p)
  {
    var keys := Keys(all);
    var keys' := Keys(all[..|all| - 1][p - 1 := all[|all| - 1]]);
    assert OrderedAt(keys, less, p) && OrderedAt(keys, less, 2 * p) && OrderedAt(keys, less, 2 * p + 1);
    forall q: nat | q != p && q / 2 != p
      ensures OrderedAt(keys', less, q)
    {
      assert OrderedAt(keys, less, q);
    }
  }

  /** `heap_min`: no key is less than the one at the root. */
  lemma {:induction false} MinIsLeast<K(!new)>(keys: seq<K>, less: (K, K) -> bool, p: nat)
    requires HeapOrdered(keys, less) && StrictWeakOrder(less) && 1 <= p <= |keys|
    ensures !less(keys[p - 1], keys[0])
    decreases p
  {
    if p > 1 {
      assert OrderedAt(keys, less, p);
      MinIsLeast(keys, less, p / 2);
    }
  }

  /** Putting another node at position `p` changes the links of the nodes above and below. */
  lemma ReplacedLinks<K>(at: seq<Node<K>>, p: nat, child: Node<K>, q: nat)
    requires 1 <= p <= |at| && 1 <= q <= |at|
    ensures var n := TreeLinks(at, q);
            TreeLinks(at[p - 1 := child], q) ==
            if q == p / 2 then WithChild(n, p % 2 == 1, child)
            else if q == 2 * p || q == 2 * p + 1 then n.(parent := child)
            else n
  {
  }

  lemma DistinctReplace<K>(at: seq<Node<K>>, p: nat, child: Node<K>)
    requires Distinct(at) && 1 <= p <= |at| && child !in at
    ensures Distinct(at[p - 1 := child])
  {
  }

  ghost function WithChild<K>(links: Links<K>, isRight: bool, value: Node?<K>): Links<K> {
    if isRight then links.(right := value) else links.(left := value)
  }

  /** A node that joins at the end is a leaf, and the child of the node at half its position. */
  lemma AttachedLinks<K>(at: seq<Node<K>>, newnode: Node<K>, q: nat)
    requires 1 <= q <= |at| + 1
    ensures var n := |at| + 1;
            TreeLinks(at + [newnode], q) ==
            if q == n then Links(null, null, At(at, n / 2))
            else if q == n / 2 then WithChild(TreeLinks(at, q), n % 2 == 1, newnode)
            else TreeLinks(at, q)
  {
  }

  lemma DistinctAttach<K>(at: seq<Node<K>>, newnode: Node<K>)
    requires Distinct(at) && newnode !in at
    ensures Distinct(at + [newnode])
  {
  }

  lemma DetachedLinks<K>(at: seq<Node<K>>, q: nat)
    requires 1 <= q < |at|
    ensures var n := |at|;
            TreeLinks(at[..n - 1], q) ==
            if q == n / 2 then WithChild(TreeLinks(at, q), n % 2 == 1, null) else TreeLinks(at, q)
  {
  }

  lemma DistinctDetach<K>(at: seq<Node<K>>)
    requires Distinct(at) && at != []
    ensures Distinct(at[..|at| - 1])
  {
  }

  // ----- order -----

  ghost predicate StrictWeakOrder<K(!new)>(less: (K, K) -> bool) {
    && (forall a, b :: less(a, b) ==> !less(b, a))
    && (forall a, b, c :: less(a, c) ==> less(a, b) || less(b, c))
  }

  ghost function Keys<K>(at: seq<Node<K>>): (r: seq<K>)
    ensures |r| == |at| && forall i :: 0 <= i < |at| ==> r[i] == at[i].key
  {
    seq(|at|, i requires 0 <= i < |at| => at[i].key)
  }

  /** The key at position `p` is not less than the one above it. */
  ghost predicate OrderedAt<K>(keys: seq<K>, less: (K, K) -> bool, p: nat) {
    2 <= p <= |keys| ==> !less(keys[p - 1], keys[p / 2 - 1])
  }

  ghost predicate HeapOrdered<K>(keys: seq<K>, less: (K, K) -> bool) {
    forall p: nat :: OrderedAt(keys, less, p)
  }

  /** Ordered but for position `i` and its children, which are not less than the key above `i`. */
  ghost predicate AlmostOrdered<K>(keys: seq<K>, less: (K, K) -> bool, i: nat) {
    && (forall p: nat :: p != i && p / 2 != i ==> OrderedAt(keys, less, p))
    && (2 <= i <= |keys| ==> NotLessAt(keys, less, 2 * i, i / 2) && NotLessAt(keys, less, 2 * i + 1, i / 2))
  }

  ghost predicate NotLessAt<K>(keys: seq<K>, less: (K, K) -> bool, p: nat, q: nat) {
    1 <= p <= |keys| && 1 <= q <= |keys| ==> !less(keys[p - 1], keys[q - 1])
  }

  ghost predicate ChildrenOrdered<K>(keys: seq<K>, less: (K, K) -> bool, i: nat) {
    OrderedAt(keys, less, 2 * i) && OrderedAt(keys, less, 2 * i + 1)
  }

  ghost predicate SiblingNotLess<K>(keys: seq<K>, less: (K, K) -> bool, i: nat, c: nat) {
    NotLessAt(keys, less, if c == 2 * i then 2 * i + 1 else 2 * i, c)
  }

  lemma OrderedEverywhere<K>(keys: seq<K>, less: (K, K) -> bool, i: nat)
    requires AlmostOrdered(keys, less, i) && ChildrenOrdered(keys, less, i) && OrderedAt(keys, less, i)
    ensures HeapOrdered(keys, less)
  {
    forall p: nat
      ensures OrderedAt(keys, less, p)
    {
      if p / 2 == i { assert p == 2 * i || p == 2 * i + 1; }
    }
  }

  ghost function SwapKeys<K>(keys: seq<K>, p: nat, c: nat): (r: seq<K>)
    requires 1 <= p <= |keys| && 1 <= c <= |keys|
    ensures |r| == |keys|
  {
    keys[p - 1 := keys[c - 1]][c - 1 := keys[p - 1]]
  }

  lemma SwappedKeys<K>(at: seq<Node<K>>, p: nat, c: nat)
    requires 1 <= p <= |at| && 1 <= c <= |at|
    ensures Keys(Swapped(at, p, c)) == SwapKeys(Keys(at), p, c)
  {
  }

  /** Away from the two exchanged positions and their neighbours, order is what it was. */
  lemma OrderElsewhere<K>(keys: seq<K>, less: (K, K) -> bool, p: nat, c: nat, q: nat)
    requires 1 <= p && c / 2 == p && c <= |keys| && OrderedAt(keys, less, q)
    requires q != p && q != c && q / 2 != p && q / 2 != c
    ensures OrderedAt(SwapKeys(keys, p, c), less, q)
  {
  }

  lemma UpStep<K(!new)>(at: seq<Node<K>>, less: (K, K) -> bool, i: nat)
    requires StrictWeakOrder(less) && 2 <= i <= |at| && less(at[i - 1].key, at[i / 2 - 1].key)
    requires AlmostOrdered(Keys(at), less, i) && ChildrenOrdered(Keys(at), less, i)
    ensures var keys := Keys(Swapped(at, i / 2, i)); AlmostOrdered(keys, less, i / 2) && ChildrenOrdered(keys, less, i / 2)
  {
    SwappedKeys(at, i / 2, i);
    UpKeys(Keys(at), less, i);
    hide StrictWeakOrder, SwapKeys, AlmostOrdered, ChildrenOrdered, Swapped;
  }

  lemma UpKeys<K(!new)>(keys: seq<K>, less: (K, K) -> bool, i: nat)
    requires StrictWeakOrder(less) && 2 <= i <= |keys| && less(keys[i - 1], keys[i / 2 - 1])
    requires AlmostOrdered(keys, less, i) && ChildrenOrdered(keys, less, i)
    ensures var keys' := SwapKeys(keys, i / 2, i); AlmostOrdered(keys', less, i / 2) && ChildrenOrdered(keys', less, i / 2)
  {
    var j := i / 2;
    var keys' := SwapKeys(keys, j, i);
    var s := if i == 2 * j then 2 * j + 1 else 2 * j;
    assert OrderedAt(keys, less, j) && OrderedAt(keys, less, s);
    UpNeighbours(keys, less, i, j, s);
    hide StrictWeakOrder, SwapKeys, OrderedAt, NotLessAt;
    forall p: nat | p != j && p / 2 != j
      ensures OrderedAt(keys', less, p)
    {
      if p / 2 != i { OrderElsewhere(keys, less, j, i, p); } else { assert p == 2 * i || p == 2 * i + 1; }
    }
  }

  /** The comparisons around the two positions after a step up. */
  lemma UpNeighbours<K(!new)>(keys: seq<K>, less: (K, K) -> bool, i: nat, j: nat, s: nat)
    requires StrictWeakOrder(less) && 2 <= i <= |keys| && j == i / 2 && less(keys[i - 1], keys[j - 1])
    requires s == (if i == 2 * j then 2 * j + 1 else 2 * j) && OrderedAt(keys, less, j) && OrderedAt(keys, less, s)
    requires NotLessAt(keys, less, 2 * i, j) && NotLessAt(keys, less, 2 * i + 1, j)
    ensures var keys' := SwapKeys(keys, j, i);
            && ChildrenOrdered(keys', less, j) && ChildrenOrdered(keys', less, i)
            && (2 <= j ==> NotLessAt(keys', less, 2 * j, j / 2) && NotLessAt(keys', less, 2 * j + 1, j / 2))
  {
  }

  lemma DownStep<K(!new)>(at: seq<Node<K>>, less: (K, K) -> bool, i: nat, c: nat)
    requires StrictWeakOrder(less) && 1 <= i && c / 2 == i && 1 <= c <= |at| && less(at[c - 1].key, at[i - 1].key)
    requires AlmostOrdered(Keys(at), less, i) && SiblingNotLess(Keys(at), less, i, c)
    ensures AlmostOrdered(Keys(Swapped(at, i, c)), less, c)
  {
    var keys := Keys(at);
    SwappedKeys(at, i, c);
    var keys' := SwapKeys(keys, i, c);
    var s := if c == 2 * i then 2 * i + 1 else 2 * i;
    assert OrderedAt(keys, less, 2 * c) && OrderedAt(keys, less, 2 * c + 1);
    DownNeighbours(keys, less, i, c, s);
    hide StrictWeakOrder, SwapKeys, OrderedAt, NotLessAt, SiblingNotLess;
    forall p: nat | p != c && p / 2 != c
      ensures OrderedAt(keys', less, p)
    {
      if p != i && p / 2 != i { OrderElsewhere(keys, less, i, c, p); } else { assert p == i || p == s; }
    }
  }

  /** The comparisons around the two positions after a step down. */
  lemma DownNeighbours<K(!new)>(keys: seq<K>, less: (K, K) -> bool, i: nat, c: nat, s: nat)
    requires StrictWeakOrder(less) && 1 <= i && c / 2 == i && c <= |keys| && less(keys[c - 1], keys[i - 1])
    requires s == (if c == 2 * i then 2 * i + 1 else 2 * i) && NotLessAt(keys, less, s, c)
    requires OrderedAt(keys, less, 2 * c) && OrderedAt(keys, less, 2 * c + 1) && (2 <= i ==> NotLessAt(keys, less, c, i / 2))
    ensures var keys' := SwapKeys(keys, i, c);
            && OrderedAt(keys', less, i) && OrderedAt(keys', less, s)
            && NotLessAt(keys', less, 2 * c, c / 2) && NotLessAt(keys', less, 2 * c + 1, c / 2)
  {
  }

  lemma AppendOrder<K>(at: seq<Node<K>>, newnode: Node<K>, less: (K, K) -> bool)
    requires HeapOrdered(Keys(at), less)
    ensures var keys := Keys(at + [newnode]);
            AlmostOrdered(keys, less, |at| + 1) && ChildrenOrdered(keys, less, |at| + 1)
  {
    forall p: nat | p != |at| + 1
      ensures OrderedAt(Keys(at + [newnode]), less, p)
    {
      assert OrderedAt(Keys(at), less, p);
    }
  }

  function Scaled(m: nat, k: nat): nat {
    m * Pow2(k)
  }

  /** Where `k` turns, left for an even and right for an odd `path`, lead from position `p`. */
  function Walk(p: nat, path: nat, k: nat): nat
    decreases k
  {
    if k == 0 then p else Walk(2 * p + path % 2, path / 2, k - 1)
  }

  lemma {:induction false} WalkGrows(p: nat, path: nat, k: nat)
    requires p > 0
    ensures Walk(p, path, k) >= p && (k > 0 ==> Walk(p, path, k) >= 2 * p + path % 2)
    decreases k
  {
    if k > 0 {
      WalkGrows(2 * p + path % 2, path / 2, k - 1);
    }
  }

  /** One turn of the loop that builds the path: nothing is lost, and the word does not overflow. */
  lemma PathStep(m: nat, path: nat, k: nat, n: nat)
    requires m >= 2 && path < Pow2(k) && Scaled(m, k) <= n
    ensures var path' := 2 * path + m % 2;
            path' < Pow2(k + 1) && path' <= n && Scaled(m / 2, k + 1) <= n && Walk(m / 2, path', k + 1) == Walk(m, path, k)
  {
    var path' := 2 * path + m % 2;
    assert path' / 2 == path && path' % 2 == m % 2;
    HalfTimesDouble(m, Pow2(k));
  }

  lemma HalfTimesDouble(m: nat, x: nat)
    requires m >= 2
    ensures m / 2 * (2 * x) <= m * x && 2 * x <= m * x
  {
    var h := m / 2;
    assert h * (2 * x) == 2 * h * x;
    if m % 2 == 1 { assert m * x == 2 * h * x + x; }
  }
}
