/**
 * The red-black tree of deps/libuv/include/tree.h: RB_INSERT, RB_REMOVE, their colour fixups and the searches.
 */
module RbTrees {
  import opened RbBalance
  import opened RbLinks

  class Head {
    const cmp: Compare
    var root: Node?
    ghost var tree: Tree

    /** The heap is the red-black tree `tree`, in strictly ascending order. */
    ghost predicate Valid()
      reads this, All(Top, tree)
    {
      TotalPreorder(cmp) && Holds(Top, tree) && RedBlack(tree) && Sorted(Inorder(tree), cmp)
    }

    constructor (cmp: Compare)
      requires TotalPreorder(cmp)
      ensures Valid() && tree == Leaf && this.cmp == cmp
    {
      this.cmp := cmp;
      root, tree := null, Leaf;
    }

    /** The heap holds exactly the tree `t` in its context `c`. */
    ghost predicate Holds(c: Context, t: Tree)
      reads this`root, All(c, t)
    {
      && Apart(c, t) && root == TopRoot(c, Root(t))
      && forall n :: n in All(c, t) ==> FieldsOf(n) == Expected(c, t, n)
    }

    lemma Focus(s: Side, c: Context, a: Tree, n: Node, red: bool, b: Tree)
      ensures All(c, Make(s, a, n, red, b)) == All(In(s, c, n, red, b), a)
      ensures Holds(c, Make(s, a, n, red, b)) <==> Holds(In(s, c, n, red, b), a)
    {
      var t, c' := Make(s, a, n, red, b), In(s, c, n, red, b);
      RefocusShape(s, c, a, n, red, b);
      if Apart(c, t) {
        forall x | x in All(c, t)
          ensures Expected(c, t, x) == Expected(c', a, x)
        {
          Refocus(s, c, a, n, red, b, x);
        }
      }
      hide Make, All, Expected, Apart, TopRoot;
    }

    method SetChild(n: Node, s: Side, x: Node?)
      modifies n
      ensures FieldsOf(n) == Set(old(FieldsOf(n)), s, x)
    {
      if s == L {
        n.left := x;
      } else {
        n.right := x;
      }
    }

    /** The parent's link to `elm`, or the root, is redirected to `x`. */
    method Rehook(elm: Node, x: Node?, parent: Node?)
      modifies this`root, parent
      ensures root == if parent == null then x else old(root)
      ensures parent != null ==> FieldsOf(parent) == Rehung(parent, old(FieldsOf(parent)), elm, x, parent)
    {
      if parent != null {
        if parent.left == elm {
          parent.left := x;
        } else {
          parent.right := x;
        }
      } else {
        root := x;
      }
    }

    /** RB_ROTATE_LEFT (for side L) and RB_ROTATE_RIGHT, by what they do to each node. */
    method RotateLinks(elm: Node, s: Side, ghost tmp: Node, ghost b: Node?, ghost p: Node?, ghost all: set<Node>)
      requires Child(elm, Other(s)) == tmp && Child(tmp, s) == b && elm.parent == p
      requires elm != tmp && elm != b && elm != p && tmp != b && tmp != p && (b == null || b != p)
      modifies this`root, elm, tmp, b, p
      ensures root == if p == null then tmp else old(root)
      ensures forall n :: n in all ==> FieldsOf(n) == Rotated(n, old(FieldsOf(n)), s, elm, tmp, b, p)
    {
      var tmp' := Child(elm, Other(s));
      SetChild(elm, Other(s), Child(tmp', s));
      if Child(elm, Other(s)) != null {
        Child(tmp', s).parent := elm;
      }
      tmp'.parent := elm.parent;
      Rehook(elm, tmp', tmp'.parent);
      SetChild(tmp', s, elm);
      elm.parent := tmp';
    }

    lemma FocusFields(s: Side, c: Context, a: Tree, n: Node, red: bool, b: Tree)
      requires Holds(c, Make(s, a, n, red, b))
      ensures Child(n, s) == Root(a) && Child(n, Other(s)) == Root(b) && n.parent == Parent(c) && n.red == red
    {
      var t := Make(s, a, n, red, b);
      MakeNodes(s, a, n, red, b);
      assert n in All(c, t) && n in Nodes(t);
      MakeFields(s, a, n, red, b, Parent(c), n);
      assert FieldsOf(n) == Expected(c, t, n);
      hide Make, Nodes, Proper, InTree, InContext, Around, ProperAround, TopRoot;
    }

    lemma AboveFields(c: Context, t: Tree)
      requires Holds(c, t) && c.In?
      ensures Child(c.n, c.s) == Root(t) && Child(c.n, Other(c.s)) == Root(c.sib)
      ensures c.n.parent == Parent(c.up) && c.n.red == c.red
      ensures Root(t) != null ==> Root(t) != Root(c.sib)
    {
      assert c.n in All(c, t);
      assert FieldsOf(c.n) == Expected(c, t, c.n);
      HoleSide(c, t);
      AboveHole(c, Root(t));
      hide Nodes, Proper, InTree, InContext, Around, ProperAround, TopRoot;
    }

    method Rotate(x: Node, s: Side, ghost c: Context, ghost a: Tree, ghost cx: bool, ghost b: Tree, ghost y: Node,
                  ghost cy: bool, ghost d: Tree)
      requires Holds(c, Make(s, a, x, cx, Make(s, b, y, cy, d)))
      modifies this`root, All(c, Make(s, a, x, cx, Make(s, b, y, cy, d)))
      ensures Holds(c, Make(s, Make(s, a, x, cx, b), y, cy, d))
      ensures All(c, Make(s, Make(s, a, x, cx, b), y, cy, d)) == All(c, Make(s, a, x, cx, Make(s, b, y, cy, d)))
    {
      ghost var t, t' := Make(s, a, x, cx, Make(s, b, y, cy, d)), Make(s, Make(s, a, x, cx, b), y, cy, d);
      RotateReady(x, s, c, a, cx, b, y, cy, d);
      hide Make, Nodes, Proper, InTree, InContext, Around, ProperAround, TopRoot, Set, Rotated;
      RotateLinks(x, s, y, Root(b), Parent(c), All(c, t));
      RootAtTop(c, x, y);
      forall n | n in All(c, t)
        ensures Expected(c, t', n) == Rotated(n, Expected(c, t, n), s, x, y, Root(b), Parent(c))
      {
        RotateAll(s, c, a, x, cx, b, y, cy, d, n);
      }
      hide Expected;
    }

    lemma RotateReady(x: Node, s: Side, c: Context, a: Tree, cx: bool, b: Tree, y: Node, cy: bool, d: Tree)
      requires Holds(c, Make(s, a, x, cx, Make(s, b, y, cy, d)))
      ensures {x, y} <= All(c, Make(s, a, x, cx, Make(s, b, y, cy, d)))
      ensures Root(b) != null ==> Root(b) in All(c, Make(s, a, x, cx, Make(s, b, y, cy, d)))
      ensures Parent(c) != null ==> Parent(c) in All(c, Make(s, a, x, cx, Make(s, b, y, cy, d)))
      ensures Child(x, Other(s)) == y && Child(y, s) == Root(b) && x.parent == Parent(c)
      ensures Root(Make(s, a, x, cx, Make(s, b, y, cy, d))) == x
      ensures Root(Make(s, Make(s, a, x, cx, b), y, cy, d)) == y
      ensures x != y && x != Root(b) && x != Parent(c) && y != Root(b) && y != Parent(c)
      ensures Root(b) == null || Root(b) != Parent(c)
      ensures All(c, Make(s, Make(s, a, x, cx, b), y, cy, d)) == All(c, Make(s, a, x, cx, Make(s, b, y, cy, d)))
      ensures Apart(c, Make(s, Make(s, a, x, cx, b), y, cy, d))
    {
      hide Make, Nodes, Proper, InTree, InContext, Around, ProperAround, TopRoot, Set, Rotated, Expected;
      FocusFields(s, c, a, x, cx, Make(s, b, y, cy, d));
      RotateShape(s, a, x, cx, b, y, cy, d);
      RotateNames(s, a, x, cx, b, y, cy, d);
      ParentAround(c);
      MakeNodes(s, b, y, cy, d);
      Focus(Other(s), c, Make(s, b, y, cy, d), x, cx, a);
      MakeTurned(s, a, x, cx, Make(s, b, y, cy, d));
      FocusFields(s, In(Other(s), c, x, cx, a), b, y, cy, d);
    }

    method Paint(n: Node, red: bool, ghost c: Context, ghost t: Tree)
      requires Holds(c, t) && t.Fork? && t.n == n
      modifies n
      ensures Holds(c, Painted(t, red))
      ensures All(c, Painted(t, red)) == All(c, t)
    {
      n.red := red;
      forall x | x in All(c, t)
        ensures x in All(c, Painted(t, red))
        ensures Expected(c, Painted(t, red), x) ==
                if x == t.n then Expected(c, t, x).(red := red) else Expected(c, t, x)
      {
        PaintAll(c, t, red, x);
      }
      hide Expected, TopRoot;
    }

    method SpliceLinks(elm: Node, child: Node?, parent: Node?, ghost all: set<Node>)
      requires child == null || child != parent
      modifies this`root, child, parent
      ensures root == if parent == null then child else old(root)
      ensures forall x :: x in all ==> FieldsOf(x) == Spliced(x, old(FieldsOf(x)), elm, child, parent)
    {
      if child != null {
        child.parent := parent;
      }
      Rehook(elm, child, parent);
    }

    /** The part of RB_REMOVE that unlinks a node with at most one child. */
    method Splice(elm: Node, child: Node?, parent: Node?, ghost s: Side, ghost c: Context, ghost a: Tree, ghost red: bool)
      requires Holds(c, Make(s, a, elm, red, Leaf)) && child == Root(a) && parent == Parent(c)
      modifies this`root, All(c, a)
      ensures Holds(c, a)
    {
      ghost var t := Make(s, a, elm, red, Leaf);
      MakeNodes(s, a, elm, red, Leaf);
      RootAtTop(c, elm, child);
      ParentAround(c);
      RootIn(a);
      hide Make, Nodes, Proper, InTree, InContext, Around, ProperAround, TopRoot, Set;
      SpliceLinks(elm, child, parent, All(c, a));
      forall x | x in All(c, a)
        ensures x in All(c, t)
        ensures Expected(c, a, x) == Spliced(x, Expected(c, t, x), elm, child, parent)
      {
        SpliceAll(s, c, a, elm, red, x);
      }
      hide Expected, Spliced;
    }

    method ReplaceLinks(was: Node, elm: Node, ghost p: Node?, ghost l: Node, ghost r: Node?, ghost all: set<Node>)
      requires was.left == l && was.right == r && was.parent == p
      requires elm != was && elm != l && elm != r && elm != p && was != l && was != r && was != p
      requires l != p && l != r && (r == null || r != p)
      requires elm in all && was in all
      modifies this`root, elm, l, r, p
      ensures root == if p == null then elm else old(root)
      ensures FieldsOf(elm) == old(FieldsOf(was))
      ensures forall x :: x in all && x != elm ==> FieldsOf(x) == Replaced(x, old(FieldsOf(x)), was, elm, p, l, r)
    {
      elm.left, elm.right, elm.parent, elm.red := was.left, was.right, was.parent, was.red;
      Rehook(was, elm, was.parent);
      was.left.parent := elm;
      if was.right != null {
        was.right.parent := elm;
      }
    }

    /** The part of RB_REMOVE that puts the successor `elm`, already unlinked, in the place of `was`. */
    method Replace(was: Node, elm: Node, ghost c: Context, ghost l: Tree, ghost red: bool, ghost r: Tree)
      requires Holds(c, Fork(l, was, red, r)) && elm !in All(c, Fork(l, was, red, r)) && l.Fork?
      modifies this`root, elm, All(c, Fork(l, was, red, r)) - {was}
      ensures Holds(c, Fork(l, elm, red, r))
    {
      ghost var t, t' := Fork(l, was, red, r), Fork(l, elm, red, r);
      FocusFields(L, c, l, was, red, r);
      RootAtTop(c, was, elm);
      ParentAround(c);
      RootIn(l);
      RootIn(r);
      assert Apart(c, t');
      assert FieldsOf(was) == Expected(c, t, was);
      hide InTree, InContext, Around, ProperAround, TopRoot, Set, Proper, Rehung;
      ReplaceLinks(was, elm, Parent(c), Root(l), Root(r), All(c, t) + {elm});
      forall x | x in All(c, t')
        ensures x != elm ==> x in All(c, t)
        ensures Expected(c, t', x) == if x == elm then Expected(c, t, was)
                                      else Replaced(x, Expected(c, t, x), was, elm, Parent(c), Root(l), Root(r))
      {
        ReplaceAll(c, l, was, red, r, elm, x);
      }
      hide Expected, Replaced;
    }

    /** The part of RB_INSERT that hangs the new node below the last node of the search. */
    method Attach(elm: Node, parent: Node?, comp: int, ghost c: Context)
      requires Holds(c, Leaf) && elm !in Around(c) && parent == Parent(c)
      requires c.In? ==> (comp < 0 <==> c.s == L)
      modifies this`root, elm, parent
      ensures Holds(c, Fork(Leaf, elm, true, Leaf))
    {
      ghost var t' := Fork(Leaf, elm, true, Leaf);
      RootAtTop(c, null, elm);
      ParentAround(c);
      hide InContext, Around, ProperAround, TopRoot;
      elm.parent, elm.left, elm.right, elm.red := parent, null, null, true;
      if parent != null {
        if comp < 0 {
          parent.left := elm;
        } else {
          parent.right := elm;
        }
      } else {
        root := elm;
      }
      forall x | x in Around(c)
        ensures Expected(c, t', x) ==
                if x == Parent(c) then Set(Expected(c, Leaf, x), c.s, elm) else Expected(c, Leaf, x)
      {
        AttachAll(c, elm, x);
      }
      assert FieldsOf(elm) == Expected(c, t', elm);
      hide Expected;
    }

    /** The uncle is red: it and the parent turn black, the grandparent red. */
    method Recolour(parent: Node, gparent: Node, tmp: Node, ghost s: Side, ghost s': Side, ghost c: Context,
                    ghost uncle: Tree, ghost sib: Tree, ghost t: Tree)
      requires Holds(In(s', In(s, c, gparent, false, uncle), parent, true, sib), t) && Root(uncle) == tmp
      modifies All(In(s', In(s, c, gparent, false, uncle), parent, true, sib), t)
      ensures Holds(c, Make(s, Make(s', t, parent, false, sib), gparent, true, Painted(uncle, false)))
      ensures All(c, Make(s, Make(s', t, parent, false, sib), gparent, true, Painted(uncle, false))) ==
              All(In(s', In(s, c, gparent, false, uncle), parent, true, sib), t)
    {
      hide Make, All, Holds, Painted;
      ghost var c', p, p' := In(s, c, gparent, false, uncle), Make(s', t, parent, true, sib), Make(s', t, parent, false, sib);
      Focus(s', c', t, parent, true, sib);
      PaintMake(s', t, parent, true, sib);
      ghost var u, u' := In(Other(s), c, gparent, false, p), In(Other(s), c, gparent, false, p');
      TurnFocus(s, c, p, gparent, false, uncle);
      InTheTree(u, uncle);
      InTheTree(c', p);
      Paint(tmp, false, u, uncle);
      TurnFocus(s, c, p, gparent, false, Painted(uncle, false));
      Paint(parent, false, In(s, c, gparent, false, Painted(uncle, false)), p);
      Focus(s, c, p', gparent, false, Painted(uncle, false));
      PaintMake(s, p', gparent, false, Painted(uncle, false));
      InTheTree(c, Make(s, p', gparent, false, Painted(uncle, false)));
      Paint(gparent, true, c, Make(s, p', gparent, false, Painted(uncle, false)));
    }

    /** From one child of a node to the other. */
    lemma TurnFocus(s: Side, c: Context, a: Tree, n: Node, red: bool, b: Tree)
      ensures All(In(s, c, n, red, b), a) == All(In(Other(s), c, n, red, a), b)
      ensures Holds(In(s, c, n, red, b), a) <==> Holds(In(Other(s), c, n, red, a), b)
    {
      MakeTurned(s, a, n, red, b);
      Focus(s, c, a, n, red, b);
      Focus(Other(s), c, b, n, red, a);
    }

    /** RB_SET_BLACKRED on a node and its parent. */
    method SetBlackRed(black: Node, red: Node, ghost s: Side, ghost c: Context, ghost t: Tree, ghost was: bool,
                       ghost b: Tree)
      requires Holds(c, Make(s, t, red, was, b)) && t.Fork? && t.n == black
      modifies All(c, Make(s, t, red, was, b))
      ensures Holds(c, Make(s, Painted(t, false), red, true, b))
      ensures All(c, Make(s, Painted(t, false), red, true, b)) == All(c, Make(s, t, red, was, b))
    {
      hide Make, All, Holds, Painted;
      ghost var c', t' := In(s, c, red, was, b), Painted(t, false);
      Focus(s, c, t, red, was, b);
      InTheTree(c', t);
      Paint(black, false, c', t);
      Focus(s, c, t', red, was, b);
      PaintMake(s, t', red, was, b);
      InTheTree(c, Make(s, t', red, was, b));
      Paint(red, true, c, Make(s, t', red, was, b));
    }

    /** An inner grandchild becomes an outer one. */
    method TurnIn(elm: Node, parent: Node, s: Side, ghost c: Context, ghost sib: Tree, ghost b: Tree, ghost d: Tree)
      requires Holds(In(Other(s), c, parent, true, sib), Make(s, b, elm, true, d))
      modifies this`root, All(In(Other(s), c, parent, true, sib), Make(s, b, elm, true, d))
      ensures Holds(In(s, c, elm, true, d), Make(s, sib, parent, true, b))
    {
      hide Make, All, Holds;
      ghost var t := Make(s, b, elm, true, d);
      Focus(Other(s), c, t, parent, true, sib);
      MakeTurned(s, sib, parent, true, t);
      Rotate(parent, s, c, sib, true, b, elm, true, d);
      Focus(s, c, Make(s, sib, parent, true, b), elm, true, d);
    }

    /** The uncle is black: parent and grandparent change places and colours. */
    method TurnOut(parent: Node, gparent: Node, s: Side, ghost c: Context, ghost uncle: Tree, ghost sib: Tree, ghost t: Tree)
      requires Holds(In(s, In(s, c, gparent, false, uncle), parent, true, sib), t)
      modifies this`root, All(In(s, In(s, c, gparent, false, uncle), parent, true, sib), t)
      ensures Holds(In(s, c, parent, false, Make(s, sib, gparent, true, uncle)), t)
    {
      hide Make, All, Holds, Painted;
      ghost var p, p' := Make(s, t, parent, true, sib), Make(s, t, parent, false, sib);
      Focus(s, In(s, c, gparent, false, uncle), t, parent, true, sib);
      Focus(s, c, p, gparent, false, uncle);
      PaintMake(s, t, parent, true, sib);
      SetBlackRed(parent, gparent, s, c, p, false, uncle);
      MakeTurned(s, p', gparent, true, uncle);
      MakeTurned(s, t, parent, false, sib);
      Rotate(gparent, Other(s), c, uncle, true, sib, parent, false, t);
      ghost var g := Make(s, sib, gparent, true, uncle);
      MakeTurned(s, sib, gparent, true, uncle);
      MakeTurned(s, t, parent, false, g);
      Focus(s, c, t, parent, false, g);
    }

    /** One iteration of RB_INSERT_COLOR. */
    method InsertStep(elm: Node, parent: Node, ghost c: Context, ghost t: Tree)
        returns (elm': Node, ghost c': Context, ghost t': Tree)
      requires Holds(c, t) && InsertInv(c, t) && c.In? && c.red && elm == t.n && parent == c.n
      modifies this`root, All(c, t)
      ensures Holds(c', t') && InsertInv(c', t') && t'.Fork? && elm' == t'.n
      ensures Inorder(Plug(c', t')) == Inorder(Plug(c, t)) && Depth(c') < Depth(c)
    {
      hide Holds;
      Grandparent(c, t);
      AboveFields(c, t);
      ghost var up := Make(c.s, t, c.n, c.red, c.sib);
      Focus(c.s, c.up, t, c.n, c.red, c.sib);
      AboveFields(c.up, up);
      RootOfMake(c.s, t, c.n, c.red, c.sib);
      var gparent := parent.parent;
      var s := if parent == gparent.left then L else R;
      var tmp := Child(gparent, Other(s));
      ghost var top, uncle := c.up.up, c.up.sib;
      Focus(s, top, up, gparent, false, uncle);
      RootFields(Other(s), top, uncle, gparent, false, up);
      hide Make, All, Holds, Painted, InsertInv, Inorder, Plug;
      if tmp != null && tmp.red {
        Recolour(parent, gparent, tmp, s, c.s, top, uncle, c.sib, t);
        UncleRed(s, c.s, top, gparent, uncle, parent, c.sib, t);
        UncleRedOrder(s, c.s, top, gparent, uncle, parent, c.sib, t);
        elm', c', t' := gparent, top, Make(s, Make(c.s, t, parent, false, c.sib), gparent, true, Painted(uncle, false));
        RootOfMake(s, Make(c.s, t, parent, false, c.sib), gparent, true, Painted(uncle, false));
        return;
      }
      ghost var near := In(s, top, gparent, false, uncle);
      if Child(parent, Other(s)) == elm {
        ghost var b, d := Sub(t, s), Sub(t, Other(s));
        MakeSubs(s, t);
        TurnIn(elm, parent, s, near, c.sib, b, d);
        TurnInner(s, top, gparent, uncle, parent, c.sib, b, elm, d);
        TurnInnerOrder(s, near, parent, c.sib, b, elm, d);
        ghost var t1 := Make(s, c.sib, parent, true, b);
        TurnOut(elm, gparent, s, top, uncle, d, t1);
        TurnOuter(s, top, gparent, uncle, elm, d, t1);
        TurnOuterOrder(s, top, gparent, uncle, elm, d, t1);
        elm', c', t' := parent, In(s, top, elm, false, Make(s, d, gparent, true, uncle)), t1;
        RootOfMake(s, c.sib, parent, true, b);
      } else {
        TurnOut(parent, gparent, s, top, uncle, c.sib, t);
        TurnOuter(s, top, gparent, uncle, parent, c.sib, t);
        TurnOuterOrder(s, top, gparent, uncle, parent, c.sib, t);
        elm', c', t' := elm, In(s, top, parent, false, Make(s, c.sib, gparent, true, uncle)), t;
      }
    }

    /** RB_INSERT_COLOR, with the focus on the new node. */
    method InsertColor(elm: Node, ghost c0: Context, ghost t0: Tree) returns (ghost tree: Tree)
      requires Holds(c0, t0) && InsertInv(c0, t0) && elm == t0.n
      modifies this`root, All(c0, t0)
      ensures Holds(Top, tree) && RedBlack(tree) && Inorder(tree) == Inorder(Plug(c0, t0))
    {
      var e := elm;
      ghost var c, t := c0, t0;
      hide Make, All, Holds, Painted, Inorder, Plug, RedBlack, InsertInv;
      InsertView(c, t);
      var parent := e.parent;
      while parent != null && parent.red
        invariant Holds(c, t) && InsertInv(c, t) && t.Fork? && e == t.n && parent == e.parent == Parent(c)
        invariant c.In? ==> c.n.red == c.red
        invariant All(c, t) == All(c0, t0) && Inorder(Plug(c, t)) == Inorder(Plug(c0, t0))
        decreases Depth(c)
      {
        e, c, t := InsertStep(e, parent, c, t);
        SameNodes(c, t, c0, t0);
        InsertView(c, t);
        parent := e.parent;
      }
      InsertEnds(c, t);
      Unfocus(c, t);
      tree := Painted(Plug(c, t), false);
      AtTop(Plug(c, t));
      PaintOrder(Plug(c, t), false);
      Paint(root, false, Top, Plug(c, t));
    }

    /** A red sibling goes above the parent, which turns red. */
    method LowerSibling(parent: Node, tmp: Node, s: Side, ghost c: Context, ghost t: Tree, ghost b: Tree, ghost d: Tree)
      requires Holds(In(s, c, parent, false, Make(s, b, tmp, true, d)), t)
      modifies this`root, All(In(s, c, parent, false, Make(s, b, tmp, true, d)), t)
      ensures Holds(In(s, In(s, c, tmp, false, d), parent, true, b), t)
    {
      hide Make, All, Holds, Painted;
      ghost var sib, sib' := Make(s, b, tmp, true, d), Make(s, b, tmp, false, d);
      Focus(s, c, t, parent, false, sib);
      MakeTurned(s, t, parent, false, sib);
      PaintMake(s, b, tmp, true, d);
      SetBlackRed(tmp, parent, Other(s), c, sib, false, t);
      MakeTurned(s, t, parent, true, sib');
      Rotate(parent, s, c, t, true, b, tmp, false, d);
      Focus(s, c, Make(s, t, parent, true, b), tmp, false, d);
      Focus(s, In(s, c, tmp, false, d), t, parent, true, b);
    }

    /** The near nephew is red, the far one black: the near one takes the sibling's place. */
    method RaiseNephew(near: Node, tmp: Node, s: Side, ghost c: Context, ghost p: Node, ghost red: bool, ghost t: Tree,
                       ghost e: Tree, ghost f: Tree, ghost d: Tree)
      requires Holds(In(s, c, p, red, Make(s, Make(s, e, near, true, f), tmp, false, d)), t)
      modifies this`root, All(In(s, c, p, red, Make(s, Make(s, e, near, true, f), tmp, false, d)), t)
      ensures Holds(In(s, c, p, red, Make(s, e, near, false, Make(s, f, tmp, true, d))), t)
    {
      hide Make, All, Holds, Painted;
      ghost var y, y', c' := Make(s, e, near, true, f), Make(s, e, near, false, f), In(Other(s), c, p, red, t);
      TurnFocus(s, c, t, p, red, Make(s, y, tmp, false, d));
      PaintMake(s, e, near, true, f);
      SetBlackRed(near, tmp, s, c', y, false, d);
      MakeTurned(s, e, near, false, f);
      MakeTurned(s, y', tmp, true, d);
      Rotate(tmp, Other(s), c', d, true, f, near, false, e);
      MakeTurned(s, f, tmp, true, d);
      MakeTurned(s, e, near, false, Make(s, f, tmp, true, d));
      TurnFocus(s, c, t, p, red, Make(s, e, near, false, Make(s, f, tmp, true, d)));
    }

    /** The far nephew is red: the sibling takes the parent's place and colour. */
    method RaiseSibling(parent: Node, tmp: Node, s: Side, ghost c: Context, ghost red: bool, ghost t: Tree, ghost b: Tree,
                        ghost d: Tree)
      requires Holds(In(s, c, parent, red, Make(s, b, tmp, false, d)), t) && d.Fork?
      modifies this`root, All(In(s, c, parent, red, Make(s, b, tmp, false, d)), t)
      ensures Holds(c, Make(s, Make(s, t, parent, false, b), tmp, red, Painted(d, false)))
    {
      AboveFields(In(s, c, parent, red, Make(s, b, tmp, false, d)), t);
      hide Make, All, Holds, Painted;
      ghost var o := Other(s);
      ghost var sib, sib', d' := Make(s, b, tmp, false, d), Make(s, b, tmp, red, d), Painted(d, false);
      TurnFocus(s, c, t, parent, red, sib);
      PaintMake(s, b, tmp, false, d);
      InTheTree(In(o, c, parent, red, t), sib);
      Paint(tmp, parent.red, In(o, c, parent, red, t), sib);
      TurnFocus(s, c, t, parent, red, sib');
      Focus(s, c, t, parent, red, sib');
      PaintMake(s, t, parent, red, sib');
      InTheTree(c, Make(s, t, parent, red, sib'));
      Paint(parent, false, c, Make(s, t, parent, red, sib'));
      Focus(s, c, t, parent, false, sib');
      TurnFocus(s, c, t, parent, false, sib');
      ghost var c1 := In(o, c, parent, false, t);
      Focus(s, c1, b, tmp, red, d);
      TurnFocus(s, c1, b, tmp, red, d);
      ghost var c2 := In(o, c1, tmp, red, b);
      InTheTree(c2, d);
      AboveFields(c2, d);
      Paint(Child(tmp, Other(s)), false, c2, d);
      TurnFocus(s, c1, b, tmp, red, d');
      Focus(s, c1, b, tmp, red, d');
      TurnFocus(s, c, t, parent, false, Make(s, b, tmp, red, d'));
      Focus(s, c, t, parent, false, Make(s, b, tmp, red, d'));
      Rotate(parent, s, c, t, false, b, tmp, red, d');
    }

    /** What the sibling of the focus and its children look like. */
    lemma SiblingFields(s: Side, c: Context, p: Node, red: bool, sib: Tree, t: Tree)
      requires Holds(In(s, c, p, red, sib), t) && sib.Fork?
      ensures sib.n in All(In(s, c, p, red, sib), t)
      ensures sib.n.red == sib.red && sib.n.left == Root(sib.l) && sib.n.right == Root(sib.r)
      ensures IsBlack(sib.n.left) == !IsRed(sib.l) && IsBlack(sib.n.right) == !IsRed(sib.r)
    {
      var c' := In(Other(s), c, p, red, t);
      TurnFocus(s, c, t, p, red, sib);
      InTheTree(c', sib);
      FocusFields(L, c', sib.l, sib.n, sib.red, sib.r);
      RootFields(L, c', sib.l, sib.n, sib.red, sib.r);
      RootFields(R, c', sib.r, sib.n, sib.red, sib.l);
      hide Holds, All;
    }

    /** The part of an iteration of RB_REMOVE_COLOR below a black sibling; `done` stands for its `break`. */
    method BelowBlackSibling(parent: Node, tmp: Node, s: Side, ghost c: Context, ghost red: bool, ghost sib: Tree,
                             ghost t: Tree) returns (done: bool, ghost t': Tree)
      requires Holds(In(s, c, parent, red, sib), t) && RemoveInv(In(s, c, parent, red, sib), t) && !IsRed(t)
      requires sib.Fork? && !sib.red && sib.n == tmp
      modifies this`root, All(In(s, c, parent, red, sib), t)
      ensures !done ==> Holds(c, t') && RemoveInv(c, t') && Root(t') == parent && IsRed(t') == red
      ensures !done ==> Inorder(Plug(c, t')) == Inorder(Plug(In(s, c, parent, red, sib), t))
      ensures done ==> Holds(Top, t') && RedBlack(t') && t'.Fork?
      ensures done ==> Inorder(t') == Inorder(Plug(In(s, c, parent, red, sib), t))
    {
      SiblingFields(s, c, parent, red, sib, t);
      ghost var b, d := Sub(sib, s), Sub(sib, Other(s));
      MakeSubs(s, sib);
      hide Make, All, Holds, Painted, Inorder, Plug, RedBlack, RemoveInv;
      if IsBlack(tmp.left) && IsBlack(tmp.right) {
        TurnFocus(s, c, t, parent, red, sib);
        Paint(tmp, true, In(Other(s), c, parent, red, t), sib);
        TurnFocus(s, c, t, parent, red, Painted(sib, true));
        t' := Make(s, t, parent, red, Painted(sib, true));
        Focus(s, c, t, parent, red, Painted(sib, true));
        RootOfMake(s, t, parent, red, Painted(sib, true));
        BlackNephews(s, c, parent, red, t, sib);
        BlackNephewsOrder(s, c, parent, red, t, sib);
        done := false;
      } else if IsBlack(Child(tmp, Other(s))) {
        var near := Child(tmp, s);
        ghost var e, f := Sub(b, s), Sub(b, Other(s));
        MakeSubs(s, b);
        RaiseNephew(near, tmp, s, c, parent, red, t, e, f, d);
        NearRed(s, c, parent, red, t, e, near, f, tmp, d);
        NearRedOrder(s, c, parent, red, t, e, near, f, tmp, d);
        RootOfMake(s, f, tmp, true, d);
        t' := FarNephewRed(parent, near, s, c, red, t, e, Make(s, f, tmp, true, d));
        done := true;
      } else {
        t' := FarNephewRed(parent, tmp, s, c, red, t, b, d);
        done := true;
      }
    }

    method FarNephewRed(parent: Node, tmp: Node, s: Side, ghost c: Context, ghost red: bool, ghost t: Tree, ghost b: Tree,
                        ghost d: Tree) returns (ghost t': Tree)
      requires Holds(In(s, c, parent, red, Make(s, b, tmp, false, d)), t) && IsRed(d) && !IsRed(t)
      requires RemoveInv(In(s, c, parent, red, Make(s, b, tmp, false, d)), t)
      modifies this`root, All(In(s, c, parent, red, Make(s, b, tmp, false, d)), t)
      ensures Holds(Top, t') && RedBlack(t') && t'.Fork?
      ensures Inorder(t') == Inorder(Plug(In(s, c, parent, red, Make(s, b, tmp, false, d)), t))
    {
      hide Make, All, Holds, Painted, Inorder, Plug, RedBlack, RemoveInv;
      RaiseSibling(parent, tmp, s, c, red, t, b, d);
      FarRed(s, c, parent, red, t, b, tmp, d);
      FarRedOrder(s, c, parent, red, t, b, tmp, d);
      ghost var raised := Make(s, Make(s, t, parent, false, b), tmp, red, Painted(d, false));
      Unfocus(c, raised);
      RootOfMake(s, Make(s, t, parent, false, b), tmp, red, Painted(d, false));
      PlugFork(c, raised);
      t' := Plug(c, raised);
    }

    /** One iteration of RB_REMOVE_COLOR. */
    method RemoveStep(parent: Node, elm: Node?, ghost c: Context, ghost t: Tree)
        returns (done: bool, elm': Node?, ghost c': Context, ghost t': Tree)
      requires Holds(c, t) && RemoveInv(c, t) && !IsRed(t) && c.In? && parent == c.n && elm == Root(t)
      modifies this`root, All(c, t)
      ensures Inorder(Plug(c', t')) == Inorder(Plug(c, t)) && Holds(c', t')
      ensures !done ==> RemoveInv(c', t') && elm' == Root(t') != null
      ensures !done ==> Depth(c') < Depth(c) || (Depth(c') == Depth(c) && IsRed(t'))
      ensures done ==> c' == Top && RedBlack(t') && t'.Fork? && elm' == root
    {
      SiblingExists(c, t);
      AboveFields(c, t);
      SiblingFields(c.s, c.up, c.n, c.red, c.sib, t);
      var s := if parent.left == elm then L else R;
      var tmp := Child(parent, Other(s));
      ghost var sib := c.sib;
      hide Make, All, Holds, Painted, Inorder, RedBlack, RemoveInv;
      if tmp.red {
        ghost var b, d := Sub(sib, s), Sub(sib, Other(s));
        MakeSubs(s, sib);
        LowerSibling(parent, tmp, s, c.up, t, b, d);
        RedSibling(s, c.up, parent, t, b, tmp, d);
        RedSiblingOrder(s, c.up, parent, t, b, tmp, d);
        ghost var c1 := In(s, c.up, tmp, false, d);
        ghost var low := In(s, c1, parent, true, b);
        SameNodes(low, t, c, t);
        AboveFields(low, t);
        tmp := Child(parent, Other(s));
        done, t' := BelowBlackSibling(parent, tmp, s, c1, true, b, t);
        elm', c' := if done then root else parent, if done then Top else c1;
      } else {
        done, t' := BelowBlackSibling(parent, tmp, s, c.up, c.red, sib, t);
        elm', c' := if done then root else parent, if done then Top else c.up;
      }
    }

    /** RB_REMOVE_COLOR, with the focus where a black node is missing. */
    method RemoveColor(parent: Node?, elm: Node?, ghost c0: Context, ghost t0: Tree) returns (ghost tree: Tree)
      requires Holds(c0, t0) && RemoveInv(c0, t0) && parent == Parent(c0) && elm == Root(t0)
      modifies this`root, All(c0, t0)
      ensures Holds(Top, tree) && RedBlack(tree) && Inorder(tree) == Inorder(Plug(c0, t0))
    {
      var p, e, done := parent, elm, false;
      ghost var c, t := c0, t0;
      hide Make, All, Holds, Painted, Inorder, Plug, RedBlack, RemoveInv;
      RemoveView(c, t);
      while IsBlack(e) && e != root
        invariant Holds(c, t) && e == Root(t) && p == Parent(c)
        invariant All(c, t) == All(c0, t0) && Inorder(Plug(c, t)) == Inorder(Plug(c0, t0))
        invariant !done ==> RemoveInv(c, t)
        invariant !done ==> IsBlack(e) == !IsRed(t) && (e == root <==> c.Top?)
        invariant done ==> c == Top && RedBlack(t) && t.Fork? && e == root
        decreases Depth(c), if IsRed(t) then 0 else 1
      {
        done, e, c, t := RemoveStep(p, e, c, t);
        SameNodes(c, t, c0, t0);
        RemoveView(c, t);
        if done {
          break;
        }
        p := e.parent;
      }
      ghost var t' := Painted(t, false);
      if done {
        KeepsBlack(t);
        AtTop(t);
      } else {
        RemoveEnds(c, t);
      }
      if e != null {
        RemoveView(c, t);
        Paint(e, false, c, t);
      }
      PaintOrder(t, false);
      SameOrder(c, t, t');
      PaintLeaf(t);
      Unfocus(c, t');
      tree := Plug(c, t');
      PlugTop(t');
    }

    lemma RemoveView(c: Context, t: Tree)
      requires Holds(c, t)
      ensures IsBlack(Root(t)) == !IsRed(t)
      ensures Root(t) == root <==> c.Top?
      ensures t.Fork? ==> t.n.parent == Parent(c) && t.n in All(c, t)
    {
      if t.Fork? {
        FocusFields(L, c, t.l, t.n, t.red, t.r);
      }
      RootAtTop(c, Root(t), Root(t));
      TopRootAround(c, Root(t));
      RootIn(t);
    }

    /** The search loop of RB_INSERT and RB_FIND. */
    method Descend(key: Key) returns (tmp: Node?, parent: Node?, comp: int, ghost c: Context)
      requires Valid()
      ensures Valid()
      ensures tmp != null ==> tmp in Nodes(tree) && cmp(key, tmp.key) == 0
      ensures tmp == null ==> Holds(c, Leaf) && Plug(c, Leaf) == tree && parent == Parent(c) && Gap(c, key, cmp)
      ensures tmp == null && c.In? ==> (comp < 0 <==> c.s == L)
    {
      tmp, parent, comp, c := root, null, 0, Top;
      ghost var t := tree;
      AtTop(tree);
      PlugTop(tree);
      GapAtTop(key, cmp);
      hide Holds, Plug, Inorder, Sorted, RedBlack, Gap, All, Nodes;
      while tmp != null
        invariant Holds(c, t) && tmp == Root(t) && parent == Parent(c) && Plug(c, t) == tree
        invariant c.In? ==> (comp < 0 <==> c.s == L)
        invariant Gap(c, key, cmp) && Valid()
        decreases t
      {
        FocusFields(L, c, t.l, t.n, t.red, t.r);
        parent := tmp;
        comp := cmp(key, parent.key);
        if comp < 0 {
          tmp := tmp.left;
          GapStep(L, c, t, key, cmp);
          c, t := Down(L, c, t), t.l;
        } else if comp > 0 {
          tmp := tmp.right;
          GapStep(R, c, t, key, cmp);
          c, t := Down(R, c, t), t.r;
        } else {
          InTheTree(c, t);
          PlugNodes(c, t);
          return;
        }
      }
    }

    /** RB_INSERT: null when the key was new, otherwise the node that already has it. */
    method Insert(elm: Node) returns (clash: Node?)
      requires Valid() && elm !in Nodes(tree)
      modifies this, elm, Nodes(tree)
      ensures Valid()
      ensures clash == null <==> forall n :: n in old(Nodes(tree)) ==> cmp(elm.key, n.key) != 0
      ensures clash != null ==> clash in Nodes(tree) && cmp(elm.key, clash.key) == 0
      ensures clash != null ==> unchanged(this) && unchanged(elm)
      ensures clash == null ==> Nodes(tree) == old(Nodes(tree)) + {elm}
    {
      hide Holds, Plug, Inorder, Sorted, RedBlack, Gap, All, Nodes, InsertInv, Around;
      var tmp, parent, comp, c := Descend(elm.key);
      AllTop(tree);
      if tmp != null {
        return tmp;
      }
      GapAtLeaf(c, elm.key, cmp);
      AllInorder(tree);
      PlugNodes(c, Leaf);
      AttachNodes(c, elm);
      AttachOrder(c, elm, cmp);
      InsertStarts(c, elm);
      ParentAround(c);
      Attach(elm, parent, comp, c);
      tree := InsertColor(elm, c, Fork(Leaf, elm, true, Leaf));
      PlugTop(tree);
      SameNodes(Top, tree, c, Fork(Leaf, elm, true, Leaf));
      AllTop(tree);
      return null;
    }

    /** A node with at most one child leaves the tree. */
    method RemoveOuter(elm: Node, child: Node?, ghost s: Side, ghost c: Context, ghost a: Tree, ghost red: bool)
        returns (parent: Node?, color: bool)
      requires Holds(c, Make(s, a, elm, red, Leaf)) && child == Root(a) && RedBlack(Plug(c, Make(s, a, elm, red, Leaf)))
      modifies this`root, All(c, a)
      ensures Holds(c, a) && parent == Parent(c)
      ensures if color then RedBlack(Plug(c, a)) else RemoveInv(c, a)
      ensures Dropped(Inorder(Plug(c, Make(s, a, elm, red, Leaf))), elm, Inorder(Plug(c, a)))
    {
      FocusFields(s, c, a, elm, red, Leaf);
      hide Holds, Make, Plug, Inorder, RedBlack, All, RemoveInv, Dropped;
      parent := elm.parent;
      color := elm.red;
      Splice(elm, child, parent, s, c, a, red);
      RemoveStarts(s, c, a, elm, red);
      SpliceOrder(s, c, a, elm, red);
    }

    /** The walk to the leftmost node below the right child. */
    method Successor(was: Node, ghost base: Context, ghost r: Tree) returns (elm: Node, ghost d: Context, ghost t: Tree)
      requires Holds(base, r) && r.Fork? && was.right == r.n
      ensures Holds(Over(d, base), t) && t.Fork? && t.l == Leaf && elm == t.n
      ensures Plug(d, t) == r && Before(d) == []
      ensures elm.left == null && Inorder(r)[0] == elm
    {
      elm := was.right;
      d, t := Top, r;
      hide Holds, All, Nodes, Around;
      FocusFields(L, Over(d, base), t.l, t.n, t.red, t.r);
      var left := elm.left;
      while left != null
        invariant Holds(Over(d, base), t) && t.Fork? && elm == t.n && elm.left == left == Root(t.l)
        invariant Plug(d, t) == r && Before(d) == []
        decreases t
      {
        elm := left;
        Focus(L, Over(d, base), t.l, t.n, t.red, t.r);
        d, t := In(L, d, t.n, t.red, t.r), t.l;
        FocusFields(L, Over(d, base), t.l, t.n, t.red, t.r);
        left := elm.left;
      }
      PlugOrder(d, t);
    }

    /** The successor of a node with two children leaves its place. */
    method TakeSuccessor(was: Node, ghost c: Context, ghost l: Tree, ghost red: bool, ghost r: Tree)
        returns (elm: Node, parent: Node?, child: Node?, color: bool, ghost d: Context, ghost t: Tree)
      requires Holds(c, Fork(l, was, red, r)) && r.Fork?
      modifies this`root, All(c, Fork(l, was, red, r))
      ensures t.Fork? && t.l == Leaf && Plug(d, t) == r && Before(d) == []
      ensures Holds(c, Fork(l, was, red, Plug(d, t.r)))
      ensures All(c, Fork(l, was, red, r)) == All(c, Fork(l, was, red, Plug(d, t.r))) + {elm}
      ensures elm !in All(c, Fork(l, was, red, Plug(d, t.r)))
      ensures elm == t.n && color == t.red && child == Root(t.r) && parent == if d.Top? then elm else d.n
    {
      ghost var base := In(R, c, was, red, l);
      FocusFields(L, c, l, was, red, r);
      ForkFocus(c, l, was, red, r);
      hide Holds, Make, Plug, Inorder, RedBlack, All, RemoveInv, Dropped, Nodes, Around, Over, Before;
      elm, d, t := Successor(was, base, r);
      ghost var over := Over(d, base);
      UnfocusOver(d, base, t);
      FocusFields(L, over, t.l, t.n, t.red, t.r);
      LeftmostView(over, t);
      OverView(d, base, t);
      child := elm.right;
      parent := elm.parent;
      color := elm.red;
      Splice(elm, child, parent, R, over, t.r, t.red);
      UnfocusOver(d, base, t.r);
      ForkFocus(c, l, was, red, Plug(d, t.r));
      if elm.parent == was {
        parent := elm;
      }
    }

    /** A node with two children leaves the tree, and its successor takes its place. */
    method RemoveInner(was: Node, ghost c: Context, ghost l: Tree, ghost red: bool, ghost r: Tree)
        returns (parent: Node?, child: Node?, color: bool, ghost c': Context, ghost t': Tree)
      requires Holds(c, Fork(l, was, red, r)) && l.Fork? && r.Fork? && RedBlack(Plug(c, Fork(l, was, red, r)))
      modifies this`root, All(c, Fork(l, was, red, r))
      ensures Holds(c', t') && parent == Parent(c') && child == Root(t')
      ensures if color then RedBlack(Plug(c', t')) else RemoveInv(c', t')
      ensures Dropped(Inorder(Plug(c, Fork(l, was, red, r))), was, Inorder(Plug(c', t')))
      ensures All(c', t') <= All(c, Fork(l, was, red, r))
    {
      hide Holds, Make, Plug, Inorder, RedBlack, All, RemoveInv, Dropped, Nodes, Around, Over, Before;
      var elm, up, below, isRed, d, t := TakeSuccessor(was, c, l, red, r);
      parent, child, color := up, below, isRed;
      ghost var r' := Plug(d, t.r);
      Replace(was, elm, c, l, red, r');
      SuccessorMoves(c, l, was, red, d, t);
      ghost var base' := In(R, c, elm, red, l);
      ForkFocus(c, l, elm, red, r');
      UnfocusOver(d, base', t.r);
      c', t' := Over(d, base'), t.r;
      OverView(d, base', t.r);
      ReplacedNodes(c, l, was, elm, red, r');
    }

    lemma LeftmostView(c: Context, t: Tree)
      requires Holds(c, t) && t.Fork? && t.l == Leaf
      ensures t == Make(R, t.r, t.n, t.red, Leaf)
      ensures t.n !in All(c, t.r) && All(c, t) == All(c, t.r) + {t.n}
    {
    }

    lemma OverView(d: Context, base: Context, t: Tree)
      requires base.In? && Holds(Over(d, base), t)
      ensures Parent(Over(d, base)) == (if d.Top? then base.n else d.n) && (d.In? ==> d.n != base.n)
    {
      BaseAround(d, base, t);
    }

    lemma ForkFocus(c: Context, l: Tree, n: Node, red: bool, r: Tree)
      ensures Holds(c, Fork(l, n, red, r)) <==> Holds(In(R, c, n, red, l), r)
      ensures All(c, Fork(l, n, red, r)) == All(In(R, c, n, red, l), r)
    {
      Focus(R, c, r, n, red, l);
    }

    lemma {:induction false} UnfocusOver(d: Context, base: Context, t: Tree)
      ensures Holds(Over(d, base), t) <==> Holds(base, Plug(d, t))
      ensures All(Over(d, base), t) == All(base, Plug(d, t))
      decreases d
    {
      if d.In? {
        Focus(d.s, Over(d.up, base), t, d.n, d.red, d.sib);
        UnfocusOver(d.up, base, Make(d.s, t, d.n, d.red, d.sib));
      }
    }

    /** The part of RB_REMOVE before its colour fixup. */
    method Unlink(elm: Node, ghost c: Context, ghost t: Tree)
        returns (parent: Node?, child: Node?, color: bool, ghost c': Context, ghost t': Tree)
      requires Holds(c, t) && t.Fork? && t.n == elm && RedBlack(Plug(c, t))
      modifies this`root, All(c, t)
      ensures Holds(c', t') && parent == Parent(c') && child == Root(t')
      ensures if color then RedBlack(Plug(c', t')) else RemoveInv(c', t')
      ensures Dropped(Inorder(Plug(c, t)), elm, Inorder(Plug(c', t')))
      ensures All(c', t') <= All(c, t)
    {
      FocusFields(L, c, t.l, elm, t.red, t.r);
      hide Holds, Make, Plug, Inorder, RedBlack, All, RemoveInv, Dropped, Nodes;
      if elm.left == null {
        child := elm.right;
        MakeSubs(R, t);
        LessAround(R, c, t.r, elm, t.red);
        c', t' := c, t.r;
        parent, color := RemoveOuter(elm, child, R, c, t.r, t.red);
      } else if elm.right == null {
        child := elm.left;
        MakeSubs(L, t);
        LessAround(L, c, t.l, elm, t.red);
        c', t' := c, t.l;
        parent, color := RemoveOuter(elm, child, L, c, t.l, t.red);
      } else {
        parent, child, color, c', t' := RemoveInner(elm, c, t.l, t.red, t.r);
      }
    }

    /** RB_REMOVE. */
    method Remove(elm: Node) returns (was: Node)
      requires Valid() && elm in Nodes(tree)
      modifies this, Nodes(tree)
      ensures Valid() && was == elm
      ensures Nodes(tree) == old(Nodes(tree)) - {elm}
    {
      ghost var tree0 := tree;
      ghost var c, t := Locate(Top, tree, elm);
      AllTop(tree);
      PlugTop(tree);
      Unfocus(c, t);
      hide Holds, Plug, Inorder, Sorted, RedBlack, All, RemoveInv, Dropped, Nodes;
      was := elm;
      var parent, child, color, c', t' := Unlink(elm, c, t);
      ghost var tree1 := Plug(c', t');
      Unfocus(c', t');
      if !color {
        tree1 := RemoveColor(parent, child, c', t');
      }
      tree := tree1;
      DroppedNodes(tree0, elm, tree, cmp);
    }

    /** RB_NEXT. */
    method Next(elm: Node) returns (next: Node?)
      requires Valid() && elm in Nodes(tree)
      ensures next == null <==> forall n :: n in Nodes(tree) ==> cmp(elm.key, n.key) >= 0
      ensures next != null ==> next in Nodes(tree) && cmp(elm.key, next.key) < 0
      ensures next != null ==> forall n :: n in Nodes(tree) && cmp(elm.key, n.key) < 0 ==> cmp(next.key, n.key) <= 0
    {
      ghost var c, t := Locate(Top, tree, elm);
      ghost var f := First(Inorder(t.r) + After(c));
      AllTop(tree);
      PlugTop(tree);
      Unfocus(c, t);
      FocusFields(L, c, t.l, elm, t.red, t.r);
      FirstIsNext(c, t, cmp);
      AllInorder(tree);
      hide Holds, Inorder, Sorted, RedBlack, All, Nodes, First, After, Plug;
      if elm.right != null {
        next := LeftmostBelow(elm, c, t);
      } else {
        assert Inorder(t.r) == [] by {
          EmptyOrder(t.r);
        }
        assert [] + After(c) == After(c);
        next := FirstAncestor(elm, c, t);
      }
    }

    method LeftmostBelow(elm: Node, ghost c0: Context, ghost t0: Tree) returns (e: Node)
      requires Holds(c0, t0) && t0.Fork? && t0.n == elm && t0.r.Fork?
      ensures e == First(Inorder(t0.r) + After(c0))
    {
      ForkFocus(c0, t0.l, elm, t0.red, t0.r);
      FocusFields(L, c0, t0.l, elm, t0.red, t0.r);
      e := elm.right;
      ghost var c, t := In(R, c0, elm, t0.red, t0.l), t0.r;
      assert Following(c, t) == Inorder(t0.r) + After(c0);
      hide Holds, Inorder, All, Nodes, First, After, Following;
      FocusFields(L, c, t.l, t.n, t.red, t.r);
      while e.left != null
        invariant Holds(c, t) && t.Fork? && e == t.n && e.left == Root(t.l)
        invariant Following(c, t) == Inorder(t0.r) + After(c0)
        decreases t
      {
        e := e.left;
        FollowingDown(c, t);
        c, t := Down(L, c, t), t.l;
        FocusFields(L, c, t.l, t.n, t.red, t.r);
      }
      FollowingDown(c, t);
    }

    method FirstAncestor(elm: Node, ghost c0: Context, ghost t0: Tree) returns (next: Node?)
      requires Holds(c0, t0) && t0.Fork? && t0.n == elm
      ensures next == First(After(c0))
    {
      var e := elm;
      ghost var c, t := c0, t0;
      hide Holds, Inorder, All, Nodes, First, After, Make;
      RemoveView(c, t);
      AncestorView(c, t);
      if e.parent != null && e == e.parent.left {
        return e.parent;
      }
      while e.parent != null && e == e.parent.right
        invariant Holds(c, t) && t.Fork? && e == t.n && e.parent == Parent(c)
        invariant c.In? ==> (e == c.n.right <==> c.s == R)
        invariant First(After(c)) == First(After(c0))
        decreases c
      {
        NextAfter(c);
        Focus(c.s, c.up, t, c.n, c.red, c.sib);
        RootOfMake(c.s, t, c.n, c.red, c.sib);
        c, t := c.up, Make(c.s, t, c.n, c.red, c.sib);
        e := e.parent;
        RemoveView(c, t);
        AncestorView(c, t);
      }
      NextAfter(c);
      next := e.parent;
    }

    lemma AncestorView(c: Context, t: Tree)
      requires Holds(c, t) && t.Fork?
      ensures c.In? ==> (t.n == c.n.left <==> c.s == L) && (t.n == c.n.right <==> c.s == R)
      ensures c.In? ==> First(After(c)) == if c.s == L then c.n else First(After(c.up))
    {
      if c.In? {
        AboveFields(c, t);
        NextAfter(c);
      }
    }

    /** RB_FIND. */
    method Find(key: Key) returns (tmp: Node?)
      requires Valid()
      ensures tmp == null <==> forall n :: n in Nodes(tree) ==> cmp(key, n.key) != 0
      ensures tmp != null ==> tmp in Nodes(tree) && cmp(key, tmp.key) == 0
    {
      hide Holds, Inorder, Sorted, RedBlack, Gap, All, Nodes;
      var found, _, _, c := Descend(key);
      tmp := found;
      if tmp == null {
        GapAtLeaf(c, key, cmp);
        AllInorder(tree);
      }
    }

    /** RB_NFIND: the first node whose key is not below `key`. */
    method NFind(key: Key) returns (res: Node?)
      requires Valid()
      ensures res == null <==> forall n :: n in Nodes(tree) ==> cmp(key, n.key) > 0
      ensures res != null ==> res in Nodes(tree) && cmp(key, res.key) <= 0
      ensures res != null ==> forall n :: n in Nodes(tree) && cmp(key, n.key) <= 0 ==> cmp(res.key, n.key) <= 0
    {
      var tmp := root;
      res := null;
      ghost var c, t := Top, tree;
      AtTop(tree);
      PlugTop(tree);
      GapAtTop(key, cmp);
      NextAfter(Top);
      hide Holds, Plug, Inorder, Sorted, RedBlack, Gap, All, Nodes, First, After;
      while tmp != null
        invariant Holds(c, t) && tmp == Root(t) && Plug(c, t) == tree && Gap(c, key, cmp) && res == First(After(c))
        decreases t
      {
        FocusFields(L, c, t.l, t.n, t.red, t.r);
        var comp := cmp(key, tmp.key);
        if comp < 0 {
          res := tmp;
          tmp := tmp.left;
          GapStep(L, c, t, key, cmp);
          c, t := Down(L, c, t), t.l;
        } else if comp > 0 {
          tmp := tmp.right;
          GapStep(R, c, t, key, cmp);
          c, t := Down(R, c, t), t.r;
        } else {
          InTheTree(c, t);
          PlugNodes(c, t);
          EqualIsLeast(tree, tmp, key, cmp);
          return tmp;
        }
        NextAfter(c);
      }
      AllInorder(tree);
      FirstAbove(c, key, cmp);
    }

    /** The focus moved to a child. */
    ghost function Down(s: Side, c: Context, t: Tree): (d: Context)
      requires t.Fork?
      reads this, All(c, t)
      ensures Plug(d, Sub(t, s)) == Plug(c, t)
      ensures Holds(c, t) <==> Holds(d, Sub(t, s))
      ensures d == In(s, c, t.n, t.red, Sub(t, Other(s)))
    {
      MakeSubs(s, t);
      Focus(s, c, Sub(t, s), t.n, t.red, Sub(t, Other(s)));
      In(s, c, t.n, t.red, Sub(t, Other(s)))
    }

    lemma InsertView(c: Context, t: Tree)
      requires Holds(c, t) && InsertInv(c, t)
      ensures t.Fork? && t.n.parent == Parent(c) && (c.In? ==> c.n.red == c.red)
    {
      FocusFields(L, c, t.l, t.n, t.red, t.r);
      if c.In? {
        AboveFields(c, t);
      }
    }

    lemma AtTop(t: Tree)
      requires Holds(Top, t)
      ensures root == Root(t) && All(Top, t) == Nodes(t)
      ensures t.Fork? ==> t.n in Nodes(t)
    {
    }

    /** The same heap, seen from the root. */
    lemma {:induction false} Unfocus(c: Context, t: Tree)
      ensures Holds(c, t) <==> Holds(Top, Plug(c, t))
      ensures All(c, t) == All(Top, Plug(c, t))
      decreases c
    {
      if c.In? {
        Focus(c.s, c.up, t, c.n, c.red, c.sib);
        Unfocus(c.up, Make(c.s, t, c.n, c.red, c.sib));
      }
    }

    /** What the root of a child of the focus looks like. */
    lemma RootFields(s: Side, c: Context, a: Tree, n: Node, red: bool, b: Tree)
      requires Holds(c, Make(s, a, n, red, b))
      ensures Child(n, s) == Root(a)
      ensures a.Fork? ==> a.n.red == a.red && a.n.left == Root(a.l) && a.n.right == Root(a.r) && a.n.parent == n
    {
      FocusFields(s, c, a, n, red, b);
      Focus(s, c, a, n, red, b);
      if a.Fork? {
        FocusFields(L, In(s, c, n, red, b), a.l, a.n, a.red, a.r);
      }
    }
  }

  ghost function Depth(c: Context): nat {
    if c.Top? then 0 else 1 + Depth(c.up)
  }

  lemma RootOfMake(s: Side, a: Tree, n: Node, red: bool, b: Tree)
    ensures Make(s, a, n, red, b).Fork? && Root(Make(s, a, n, red, b)) == n
  {
  }

  /** Null nodes count as black. */
  predicate IsBlack(n: Node?)
    reads n
  {
    n == null || !n.red
  }

  lemma KeepsBlack(t: Tree)
    requires RedBlack(t)
    ensures Painted(t, false) == t
  {
  }

  lemma GapAtTop(key: Key, cmp: Compare)
    ensures Gap(Top, key, cmp)
  {
  }

  lemma AttachNodes(c: Context, n: Node)
    ensures All(c, Fork(Leaf, n, true, Leaf)) == All(c, Leaf) + {n}
    ensures Around(c) == All(c, Leaf)
  {
  }

  lemma AllInorder(t: Tree)
    ensures forall n :: n in Nodes(t) ==> n in Inorder(t)
    ensures forall n :: n in Inorder(t) ==> n in Nodes(t)
  {
    forall n | n in Nodes(t)
      ensures n in Inorder(t)
    {
      InorderNodes(t, n);
    }
    forall n | n in Inorder(t)
      ensures n in Nodes(t)
    {
      InorderNodes(t, n);
    }
  }

  lemma ReplacedNodes(c: Context, l: Tree, n: Node, m: Node, red: bool, r: Tree)
    ensures All(c, Fork(l, m, red, r)) <= All(c, Fork(l, n, red, r)) + {m}
  {
  }

  /** The place of a node in the tree. */
  lemma {:induction false} Locate(c: Context, t: Tree, n: Node) returns (c': Context, t': Tree)
    requires n in Nodes(t)
    ensures Plug(c', t') == Plug(c, t) && t'.Fork? && t'.n == n
    decreases t
  {
    if n == t.n {
      c', t' := c, t;
    } else if n in Nodes(t.l) {
      c', t' := Locate(In(L, c, t.n, t.red, t.r), t.l, n);
    } else {
      c', t' := Locate(In(R, c, t.n, t.red, t.l), t.r, n);
    }
  }

  lemma LessAround(s: Side, c: Context, a: Tree, n: Node, red: bool)
    ensures All(c, a) <= All(c, Make(s, a, n, red, Leaf))
  {
  }

  lemma EmptyOrder(t: Tree)
    ensures t.Leaf? ==> Inorder(t) == []
  {
  }

  lemma AllTop(t: Tree)
    ensures All(Top, t) == Nodes(t)
  {
  }

  /** At the end of a search the next larger node is the first one right of the hole. */
  lemma FirstAbove(c: Context, key: Key, cmp: Compare)
    requires TotalPreorder(cmp) && Gap(c, key, cmp) && Sorted(Inorder(Plug(c, Leaf)), cmp)
    ensures First(After(c)) == null <==> forall n :: n in Inorder(Plug(c, Leaf)) ==> cmp(key, n.key) > 0
    ensures First(After(c)) != null ==> First(After(c)) in Inorder(Plug(c, Leaf)) && cmp(key, First(After(c)).key) < 0
    ensures forall n :: n in Inorder(Plug(c, Leaf)) && cmp(key, n.key) <= 0 && First(After(c)) != null ==>
              cmp(First(After(c)).key, n.key) <= 0
  {
    hide Inorder, Plug, Before, After, TotalPreorder;
    GapAtLeaf(c, key, cmp);
    var b, a := Before(c), After(c);
    forall n | n in b
      ensures cmp(key, n.key) > 0
    {
      Reversed(cmp, n.key, key);
    }
    if a != [] {
      assert a[0] in a && a[0] in b + a;
      forall n | n in b + a && cmp(key, n.key) <= 0
        ensures cmp(a[0].key, n.key) <= 0
      {
        Reversed(cmp, n.key, n.key);
        var i :| 0 <= i < |a| && a[i] == n;
        assert (b + a)[|b|] == a[0] && (b + a)[|b| + i] == n;
      }
    }
  }

  /** A node that the comparison finds equal to the key is the least one that is not below it. */
  lemma EqualIsLeast(t: Tree, n: Node, key: Key, cmp: Compare)
    requires TotalPreorder(cmp) && cmp(key, n.key) == 0
    ensures forall m :: m in Nodes(t) && cmp(key, m.key) <= 0 ==> cmp(n.key, m.key) <= 0
  {
    hide TotalPreorder, Nodes;
    Reversed(cmp, key, n.key);
    forall m | m in Nodes(t) && cmp(key, m.key) <= 0
      ensures cmp(n.key, m.key) <= 0
    {
      Chained(cmp, n.key, key, m.key);
    }
  }

  lemma PaintLeaf(t: Tree)
    ensures t.Leaf? ==> Painted(t, false) == t
  {
  }

  lemma PlugTop(t: Tree)
    ensures Plug(Top, t) == t
  {
  }

  lemma TopRootAround(c: Context, h: Node?)
    ensures c.In? ==> TopRoot(c, h) in Around(c) && TopRoot(c, h) != null
  {
  }

  lemma MakeSubs(s: Side, t: Tree)
    requires t.Fork?
    ensures Make(s, Sub(t, s), t.n, t.red, Sub(t, Other(s))) == t
  {
  }

  lemma InTheTree(c: Context, t: Tree)
    ensures t.Fork? ==> t.n in All(c, t)
  {
  }

  lemma PaintMake(s: Side, a: Tree, n: Node, red: bool, b: Tree)
    ensures Make(s, a, n, red, b).Fork? && Make(s, a, n, red, b).n == n
    ensures forall x :: Painted(Make(s, a, n, red, b), x) == Make(s, a, n, x, b)
  {
  }
}
