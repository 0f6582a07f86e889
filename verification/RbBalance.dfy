/**
 * Order and colours of red-black trees (deps/libuv/include/tree.h): the invariants of the two fixup loops, each of
 * their steps, and the height bound the header states.
 */
module RbBalance {
  import opened Bytes
  import opened RbLinks

  ghost function Inorder(t: Tree): seq<Node> {
    if t.Leaf? then [] else Inorder(t.l) + [t.n] + Inorder(t.r)
  }

  ghost function Before(c: Context): seq<Node> {
    if c.Top? then [] else if c.s == L then Before(c.up) else Before(c.up) + Inorder(c.sib) + [c.n]
  }

  ghost function After(c: Context): seq<Node> {
    if c.Top? then [] else if c.s == R then After(c.up) else [c.n] + Inorder(c.sib) + After(c.up)
  }

  lemma {:induction false} PlugOrder(c: Context, t: Tree)
    ensures Inorder(Plug(c, t)) == Before(c) + Inorder(t) + After(c)
  {
    if c.In? {
      PlugOrder(c.up, Make(c.s, t, c.n, c.red, c.sib));
      PlugOrderStep(c, t);
    }
  }

  lemma PlugOrderStep(c: Context, t: Tree)
    requires c.In?
    ensures Before(c.up) + Inorder(Make(c.s, t, c.n, c.red, c.sib)) + After(c.up) == Before(c) + Inorder(t) + After(c)
  {
    MakeOrder(c.s, t, c.n, c.red, c.sib);
    if c.s == L {
      Regroup(Before(c.up), Inorder(t), [c.n], Inorder(c.sib), After(c.up));
    } else {
      Regroup(Before(c.up), Inorder(c.sib), [c.n], Inorder(t), After(c.up));
    }
  }

  lemma Reassociate(x: seq<Node>, y: seq<Node>, z: seq<Node>)
    ensures x + y + z == x + (y + z)
  {
  }

  lemma Regroup(b: seq<Node>, i: seq<Node>, x: seq<Node>, j: seq<Node>, a: seq<Node>)
    ensures b + (i + x + j) + a == b + i + (x + j + a) == (b + i + x) + j + a
  {
  }

  lemma {:induction false} PlugNodes(c: Context, t: Tree)
    ensures Nodes(Plug(c, t)) == All(c, t)
  {
    if c.In? {
      PlugNodes(c.up, Make(c.s, t, c.n, c.red, c.sib));
      MakeNodes(c.s, t, c.n, c.red, c.sib);
    }
  }

  lemma {:induction false} InorderNodes(t: Tree, n: Node)
    ensures n in Inorder(t) <==> n in Nodes(t)
  {
    if t.Fork? {
      InorderNodes(t.l, n);
      InorderNodes(t.r, n);
    }
  }

  /** A rotation or a new colour leaves the order alone, wherever in the tree it happens. */
  lemma SameOrder(c: Context, t: Tree, t': Tree)
    requires Inorder(t) == Inorder(t')
    ensures Inorder(Plug(c, t)) == Inorder(Plug(c, t'))
  {
    PlugOrder(c, t);
    PlugOrder(c, t');
  }

  lemma MakeOrder(s: Side, a: Tree, n: Node, red: bool, b: Tree)
    ensures Inorder(Make(s, a, n, red, b)) ==
            if s == L then Inorder(a) + [n] + Inorder(b) else Inorder(b) + [n] + Inorder(a)
  {
  }

  lemma PaintOrder(t: Tree, red: bool)
    ensures Inorder(Painted(t, red)) == Inorder(t)
  {
  }

  /** Trees with the same order have the same nodes. */
  lemma SameNodes(c: Context, t: Tree, c': Context, t': Tree)
    requires Inorder(Plug(c, t)) == Inorder(Plug(c', t'))
    ensures All(c, t) == All(c', t')
  {
    PlugNodes(c, t);
    PlugNodes(c', t');
    forall n | n in All(c, t) + All(c', t')
      ensures n in All(c, t) <==> n in All(c', t')
    {
      InorderNodes(Plug(c, t), n);
      InorderNodes(Plug(c', t'), n);
    }
  }

  lemma RotateOrder(s: Side, a: Tree, x: Node, cx: bool, b: Tree, y: Node, cy: bool, d: Tree, cx': bool, cy': bool)
    ensures Inorder(Make(s, Make(s, a, x, cx', b), y, cy', d)) == Inorder(Make(s, a, x, cx, Make(s, b, y, cy, d)))
  {
    MakeOrder(s, a, x, cx, Make(s, b, y, cy, d));
    MakeOrder(s, b, y, cy, d);
    MakeOrder(s, a, x, cx', b);
    MakeOrder(s, Make(s, a, x, cx', b), y, cy', d);
    hide Make, Inorder;
  }

  /** The number of black nodes on the leftmost path; the same on every path when `Balanced`. */
  ghost function BlackHeight(t: Tree): nat {
    if t.Leaf? then 0 else BlackHeight(t.l) + if t.red then 0 else 1
  }

  ghost predicate Balanced(t: Tree) {
    t.Fork? ==> Balanced(t.l) && Balanced(t.r) && BlackHeight(t.l) == BlackHeight(t.r)
  }

  ghost predicate IsRed(t: Tree) {
    t.Fork? && t.red
  }

  ghost predicate NoRedRed(t: Tree) {
    t.Fork? ==> NoRedRed(t.l) && NoRedRed(t.r) && (t.red ==> !IsRed(t.l) && !IsRed(t.r))
  }

  ghost predicate RedBlack(t: Tree) {
    Balanced(t) && NoRedRed(t) && !IsRed(t)
  }

  /** The same around the hole, for a subtree of black height `h`, red or not, in it. */
  ghost predicate BalancedAround(c: Context, h: nat) {
    c.In? ==> Balanced(c.sib) && BlackHeight(c.sib) == h && BalancedAround(c.up, h + if c.red then 0 else 1)
  }

  ghost predicate NoRedRedAround(c: Context, hole: bool) {
    c.In? ==> NoRedRed(c.sib) && (c.red ==> !hole && !IsRed(c.sib)) && NoRedRedAround(c.up, c.red)
  }

  ghost predicate TopBlack(c: Context) {
    c.In? ==> if c.up.Top? then !c.red else TopBlack(c.up)
  }

  lemma MakeColours(s: Side, a: Tree, n: Node, red: bool, b: Tree)
    ensures Balanced(Make(s, a, n, red, b)) <==> Balanced(a) && Balanced(b) && BlackHeight(a) == BlackHeight(b)
    ensures Balanced(Make(s, a, n, red, b)) ==>
              BlackHeight(Make(s, a, n, red, b)) == BlackHeight(a) + if red then 0 else 1
    ensures NoRedRed(Make(s, a, n, red, b)) <==> NoRedRed(a) && NoRedRed(b) && (red ==> !IsRed(a) && !IsRed(b))
    ensures IsRed(Make(s, a, n, red, b)) == red
    ensures forall x :: Painted(Make(s, a, n, red, b), x) == Make(s, a, n, x, b)
  {
  }

  lemma InColours(s: Side, c: Context, n: Node, red: bool, sib: Tree, h: nat)
    ensures BalancedAround(In(s, c, n, red, sib), h) <==>
            Balanced(sib) && BlackHeight(sib) == h && BalancedAround(c, h + if red then 0 else 1)
    ensures forall hole :: NoRedRedAround(In(s, c, n, red, sib), hole) <==>
                             NoRedRed(sib) && (red ==> !hole && !IsRed(sib)) && NoRedRedAround(c, red)
    ensures TopBlack(In(s, c, n, red, sib)) <==> TopBlack(c) && (c.Top? ==> !red)
  {
  }

  lemma PaintColours(t: Tree, red: bool)
    requires t.Fork?
    ensures Balanced(Painted(t, red)) <==> Balanced(t)
    ensures BlackHeight(Painted(t, red)) == BlackHeight(t.l) + if red then 0 else 1
    ensures BlackHeight(t) == BlackHeight(t.l) + if t.red then 0 else 1
    ensures NoRedRed(t) ==> NoRedRed(Painted(t, false))
    ensures NoRedRed(t) && !IsRed(t.l) && !IsRed(t.r) ==> NoRedRed(Painted(t, true))
  {
  }

  lemma {:induction false} PlugColours(c: Context, t: Tree)
    ensures Balanced(Plug(c, t)) <==> Balanced(t) && BalancedAround(c, BlackHeight(t))
    ensures NoRedRed(Plug(c, t)) <==> NoRedRed(t) && NoRedRedAround(c, IsRed(t))
    ensures !IsRed(Plug(c, t)) <==> TopBlack(c) && (c.Top? ==> !IsRed(t))
  {
    if c.In? {
      PlugColours(c.up, Make(c.s, t, c.n, c.red, c.sib));
    }
  }

  /** The loop invariant of RB_INSERT_COLOR: only the focus may be red under a red parent. */
  ghost predicate InsertInv(c: Context, t: Tree) {
    && IsRed(t) && Balanced(t) && NoRedRed(t)
    && BalancedAround(c, BlackHeight(t)) && NoRedRedAround(c, false) && TopBlack(c)
  }

  lemma InsertStarts(c: Context, n: Node)
    requires RedBlack(Plug(c, Leaf))
    ensures InsertInv(c, Fork(Leaf, n, true, Leaf))
  {
    PlugColours(c, Leaf);
  }

  /** A red parent has a parent, which is black. */
  lemma Grandparent(c: Context, t: Tree)
    requires InsertInv(c, t) && c.In? && c.red
    ensures c.up.In? && !c.up.red
  {
    assert NoRedRedAround(c.up, true);
  }

  lemma UncleRed(s: Side, s': Side, c: Context, g: Node, uncle: Tree, p: Node, sib: Tree, t: Tree)
    requires InsertInv(In(s', In(s, c, g, false, uncle), p, true, sib), t) && IsRed(uncle)
    ensures InsertInv(c, Make(s, Make(s', t, p, false, sib), g, true, Painted(uncle, false)))
  {
    InColours(s', In(s, c, g, false, uncle), p, true, sib, BlackHeight(t));
    InColours(s, c, g, false, uncle, BlackHeight(t));
    MakeColours(s', t, p, false, sib);
    PaintColours(uncle, false);
    MakeColours(s, Make(s', t, p, false, sib), g, true, Painted(uncle, false));
    hide Make, Balanced, NoRedRed, BlackHeight, BalancedAround, NoRedRedAround, TopBlack, Painted;
  }

  lemma TurnInner(s: Side, c: Context, g: Node, uncle: Tree, p: Node, sib: Tree, b: Tree, e: Node, d: Tree)
    requires InsertInv(In(Other(s), In(s, c, g, false, uncle), p, true, sib), Make(s, b, e, true, d))
    ensures InsertInv(In(s, In(s, c, g, false, uncle), e, true, d), Make(s, sib, p, true, b))
  {
    MakeColours(s, b, e, true, d);
    MakeColours(s, sib, p, true, b);
    InColours(Other(s), In(s, c, g, false, uncle), p, true, sib, BlackHeight(d));
    InColours(s, In(s, c, g, false, uncle), e, true, d, BlackHeight(d));
    hide Make, Balanced, NoRedRed, BlackHeight, BalancedAround, NoRedRedAround, TopBlack, Painted;
  }

  lemma TurnOuter(s: Side, c: Context, g: Node, uncle: Tree, p: Node, sib: Tree, t: Tree)
    requires InsertInv(In(s, In(s, c, g, false, uncle), p, true, sib), t) && !IsRed(uncle)
    ensures InsertInv(In(s, c, p, false, Make(s, sib, g, true, uncle)), t)
  {
    InColours(s, In(s, c, g, false, uncle), p, true, sib, BlackHeight(t));
    InColours(s, c, g, false, uncle, BlackHeight(t));
    MakeColours(s, sib, g, true, uncle);
    InColours(s, c, p, false, Make(s, sib, g, true, uncle), BlackHeight(t));
    WeakerHole(c);
    hide Make, Balanced, NoRedRed, BlackHeight, BalancedAround, NoRedRedAround, TopBlack, Painted;
  }

  lemma UncleRedOrder(s: Side, s': Side, c: Context, g: Node, uncle: Tree, p: Node, sib: Tree, t: Tree)
    ensures Inorder(Plug(c, Make(s, Make(s', t, p, false, sib), g, true, Painted(uncle, false)))) ==
            Inorder(Plug(In(s', In(s, c, g, false, uncle), p, true, sib), t))
  {
    var was, now := Make(s', t, p, true, sib), Make(s', t, p, false, sib);
    MakeOrder(s', t, p, true, sib);
    MakeOrder(s', t, p, false, sib);
    MakeOrder(s, was, g, false, uncle);
    MakeOrder(s, now, g, true, Painted(uncle, false));
    PaintOrder(uncle, false);
    SameOrder(c, Make(s, was, g, false, uncle), Make(s, now, g, true, Painted(uncle, false)));
    PlugTwice(s', s, c, g, false, uncle, p, true, sib, t);
  }

  lemma PlugTwice(s': Side, s: Side, c: Context, g: Node, gr: bool, uncle: Tree, p: Node, pr: bool, sib: Tree, t: Tree)
    ensures Plug(In(s', In(s, c, g, gr, uncle), p, pr, sib), t) == Plug(c, Make(s, Make(s', t, p, pr, sib), g, gr, uncle))
  {
  }

  lemma PlugOnce(s: Side, c: Context, p: Node, pr: bool, sib: Tree, t: Tree)
    ensures Plug(In(s, c, p, pr, sib), t) == Plug(c, Make(s, t, p, pr, sib))
  {
  }

  lemma TurnInnerOrder(s: Side, c: Context, p: Node, sib: Tree, b: Tree, e: Node, d: Tree)
    ensures Inorder(Plug(In(s, c, e, true, d), Make(s, sib, p, true, b))) ==
            Inorder(Plug(In(Other(s), c, p, true, sib), Make(s, b, e, true, d)))
  {
    PlugOnce(s, c, e, true, d, Make(s, sib, p, true, b));
    PlugOnce(Other(s), c, p, true, sib, Make(s, b, e, true, d));
    MakeTurned(s, sib, p, true, Make(s, b, e, true, d));
    RotateOrder(s, sib, p, true, b, e, true, d, true, true);
    SameOrder(c, Make(s, Make(s, sib, p, true, b), e, true, d), Make(s, sib, p, true, Make(s, b, e, true, d)));
  }

  lemma TurnOuterOrder(s: Side, c: Context, g: Node, uncle: Tree, p: Node, sib: Tree, t: Tree)
    ensures Inorder(Plug(In(s, c, p, false, Make(s, sib, g, true, uncle)), t)) ==
            Inorder(Plug(In(s, In(s, c, g, false, uncle), p, true, sib), t))
  {
    PlugOnce(s, c, p, false, Make(s, sib, g, true, uncle), t);
    PlugTwice(s, s, c, g, false, uncle, p, true, sib, t);
    RotateOrder(s, t, p, false, sib, g, true, uncle, true, false);
    SameOrder(c, Make(s, t, p, false, Make(s, sib, g, true, uncle)), Make(s, Make(s, t, p, true, sib), g, false, uncle));
  }

  lemma InsertEnds(c: Context, t: Tree)
    requires InsertInv(c, t) && (c.In? ==> !c.red)
    ensures Plug(c, t).Fork? && RedBlack(Painted(Plug(c, t), false))
  {
    PlugColours(c, t);
    PlugFork(c, t);
    PaintColours(Plug(c, t), false);
  }

  lemma PlugFork(c: Context, t: Tree)
    requires c.In? || t.Fork?
    ensures Plug(c, t).Fork?
  {
  }

  /** The loop invariant of RB_REMOVE_COLOR: the focus is one black node short, and may be red above red. */
  ghost predicate RemoveInv(c: Context, t: Tree) {
    && Balanced(t) && NoRedRed(Painted(t, false))
    && BalancedAround(c, BlackHeight(t) + 1) && NoRedRedAround(c, false) && TopBlack(c)
  }

  lemma RemoveStarts(s: Side, c: Context, a: Tree, n: Node, red: bool)
    requires RedBlack(Plug(c, Make(s, a, n, red, Leaf)))
    ensures if red then RedBlack(Plug(c, a)) else RemoveInv(c, a)
  {
    PlugColours(c, Make(s, a, n, red, Leaf));
    PlugColours(c, a);
    WeakerHole(c);
  }

  lemma WeakerHole(c: Context)
    ensures NoRedRedAround(c, true) ==> NoRedRedAround(c, false)
  {
  }

  /** The fixup never meets a null sibling, nor a null nephew under a red sibling. */
  lemma SiblingExists(c: Context, t: Tree)
    requires RemoveInv(c, t) && c.In?
    ensures c.sib.Fork?
    ensures IsRed(c.sib) ==> !c.red && c.sib.l.Fork? && c.sib.r.Fork?
  {
  }

  lemma RedSibling(s: Side, c: Context, p: Node, t: Tree, b: Tree, x: Node, d: Tree)
    requires RemoveInv(In(s, c, p, false, Make(s, b, x, true, d)), t)
    ensures RemoveInv(In(s, In(s, c, x, false, d), p, true, b), t)
    ensures !IsRed(b)
  {
    var h := BlackHeight(t) + 1;
    InColours(s, c, p, false, Make(s, b, x, true, d), h);
    MakeColours(s, b, x, true, d);
    InColours(s, In(s, c, x, false, d), p, true, b, h);
    InColours(s, c, x, false, d, h);
    hide Make, Balanced, NoRedRed, BlackHeight, BalancedAround, NoRedRedAround, TopBlack, Painted;
  }

  lemma BlackNephews(s: Side, c: Context, p: Node, red: bool, t: Tree, sib: Tree)
    requires RemoveInv(In(s, c, p, red, sib), t) && !IsRed(t)
    requires sib.Fork? && !sib.red && !IsRed(sib.l) && !IsRed(sib.r)
    ensures RemoveInv(c, Make(s, t, p, red, Painted(sib, true)))
  {
    var h := BlackHeight(t) + 1;
    InColours(s, c, p, red, sib, h);
    PaintColours(sib, true);
    MakeColours(s, t, p, red, Painted(sib, true));
    MakeColours(s, t, p, false, Painted(sib, true));
    WeakerHole(c);
    assert NoRedRed(t) by {
      assert t.Fork? ==> t == Painted(t, false);
    }
    hide Make, Balanced, NoRedRed, BlackHeight, BalancedAround, NoRedRedAround, TopBlack, Painted;
  }

  lemma NearRed(s: Side, c: Context, p: Node, red: bool, t: Tree, e: Tree, y: Node, f: Tree, x: Node, d: Tree)
    requires RemoveInv(In(s, c, p, red, Make(s, Make(s, e, y, true, f), x, false, d)), t) && !IsRed(d)
    ensures RemoveInv(In(s, c, p, red, Make(s, e, y, false, Make(s, f, x, true, d))), t)
  {
    var h := BlackHeight(t) + 1;
    InColours(s, c, p, red, Make(s, Make(s, e, y, true, f), x, false, d), h);
    InColours(s, c, p, red, Make(s, e, y, false, Make(s, f, x, true, d)), h);
    MakeColours(s, Make(s, e, y, true, f), x, false, d);
    MakeColours(s, e, y, true, f);
    MakeColours(s, e, y, false, Make(s, f, x, true, d));
    MakeColours(s, f, x, true, d);
    hide Make, Balanced, NoRedRed, BlackHeight, BalancedAround, NoRedRedAround, TopBlack, Painted;
  }

  lemma FarRed(s: Side, c: Context, p: Node, red: bool, t: Tree, b: Tree, x: Node, d: Tree)
    requires RemoveInv(In(s, c, p, red, Make(s, b, x, false, d)), t) && !IsRed(t) && IsRed(d)
    ensures RedBlack(Plug(c, Make(s, Make(s, t, p, false, b), x, red, Painted(d, false))))
  {
    var h := BlackHeight(t) + 1;
    InColours(s, c, p, red, Make(s, b, x, false, d), h);
    MakeColours(s, b, x, false, d);
    PaintColours(d, false);
    MakeColours(s, t, p, false, b);
    MakeColours(s, Make(s, t, p, false, b), x, red, Painted(d, false));
    PlugColours(c, Make(s, Make(s, t, p, false, b), x, red, Painted(d, false)));
    assert NoRedRed(t) by {
      assert t.Fork? ==> t == Painted(t, false);
    }
    assert !IsRed(Painted(d, false));
    hide Make, Balanced, NoRedRed, BlackHeight, BalancedAround, NoRedRedAround, TopBlack, Painted;
  }

  lemma RemoveEnds(c: Context, t: Tree)
    requires RemoveInv(c, t) && (IsRed(t) || c.Top?)
    ensures RedBlack(Plug(c, Painted(t, false)))
  {
    PlugColours(c, Painted(t, false));
  }

  lemma RedSiblingOrder(s: Side, c: Context, p: Node, t: Tree, b: Tree, x: Node, d: Tree)
    ensures Inorder(Plug(In(s, In(s, c, x, false, d), p, true, b), t)) ==
            Inorder(Plug(In(s, c, p, false, Make(s, b, x, true, d)), t))
  {
    PlugTwice(s, s, c, x, false, d, p, true, b, t);
    PlugOnce(s, c, p, false, Make(s, b, x, true, d), t);
    RotateOrder(s, t, p, false, b, x, true, d, true, false);
    SameOrder(c, Make(s, Make(s, t, p, true, b), x, false, d), Make(s, t, p, false, Make(s, b, x, true, d)));
  }

  lemma BlackNephewsOrder(s: Side, c: Context, p: Node, red: bool, t: Tree, sib: Tree)
    ensures Inorder(Plug(c, Make(s, t, p, red, Painted(sib, true)))) == Inorder(Plug(In(s, c, p, red, sib), t))
  {
    PlugOnce(s, c, p, red, sib, t);
    MakeOrder(s, t, p, red, Painted(sib, true));
    MakeOrder(s, t, p, red, sib);
    PaintOrder(sib, true);
    SameOrder(c, Make(s, t, p, red, Painted(sib, true)), Make(s, t, p, red, sib));
  }

  lemma NearRedOrder(s: Side, c: Context, p: Node, red: bool, t: Tree, e: Tree, y: Node, f: Tree, x: Node, d: Tree)
    ensures Inorder(Plug(In(s, c, p, red, Make(s, e, y, false, Make(s, f, x, true, d))), t)) ==
            Inorder(Plug(In(s, c, p, red, Make(s, Make(s, e, y, true, f), x, false, d)), t))
  {
    var was, now := Make(s, Make(s, e, y, true, f), x, false, d), Make(s, e, y, false, Make(s, f, x, true, d));
    PlugOnce(s, c, p, red, was, t);
    PlugOnce(s, c, p, red, now, t);
    RotateOrder(s, e, y, false, f, x, true, d, true, false);
    MakeOrder(s, t, p, red, was);
    MakeOrder(s, t, p, red, now);
    SameOrder(c, Make(s, t, p, red, was), Make(s, t, p, red, now));
  }

  lemma FarRedOrder(s: Side, c: Context, p: Node, red: bool, t: Tree, b: Tree, x: Node, d: Tree)
    ensures Inorder(Plug(c, Make(s, Make(s, t, p, false, b), x, red, Painted(d, false)))) ==
            Inorder(Plug(In(s, c, p, red, Make(s, b, x, false, d)), t))
  {
    var now := Make(s, Make(s, t, p, false, b), x, red, Painted(d, false));
    PlugOnce(s, c, p, red, Make(s, b, x, false, d), t);
    RotateOrder(s, t, p, red, b, x, false, d, false, red);
    MakeOrder(s, Make(s, t, p, false, b), x, red, d);
    MakeOrder(s, Make(s, t, p, false, b), x, red, Painted(d, false));
    PaintOrder(d, false);
    SameOrder(c, now, Make(s, t, p, red, Make(s, b, x, false, d)));
  }

  /** The comparison function that a tree is generated with; it may find different keys equal. */
  type Compare = (Key, Key) -> int

  ghost predicate TotalPreorder(cmp: Compare) {
    && (forall a, b :: cmp(a, b) < 0 <==> cmp(b, a) > 0)
    && (forall a, b, c :: cmp(a, b) <= 0 && cmp(b, c) <= 0 ==> cmp(a, c) <= 0)
  }

  lemma Reversed(cmp: Compare, a: Key, b: Key)
    requires TotalPreorder(cmp)
    ensures (cmp(a, b) < 0 <==> cmp(b, a) > 0) && (cmp(a, b) > 0 <==> cmp(b, a) < 0) && cmp(a, a) == 0
  {
  }

  lemma Chained(cmp: Compare, a: Key, b: Key, c: Key)
    requires TotalPreorder(cmp) && cmp(a, b) <= 0 && cmp(b, c) <= 0
    ensures cmp(a, c) <= 0 && (cmp(a, b) < 0 || cmp(b, c) < 0 ==> cmp(a, c) < 0)
  {
    if cmp(a, c) == 0 {
      assert cmp(c, a) <= 0;
      assert cmp(b, a) <= 0 && cmp(c, b) <= 0;
    }
  }

  /** Strictly ascending keys, so no key occurs twice, nor one that the comparison finds equal. */
  ghost predicate Sorted(s: seq<Node>, cmp: Compare) {
    forall i, j :: 0 <= i < j < |s| ==> cmp(s[i].key, s[j].key) < 0
  }

  /** Every node left of the hole is smaller than `key`, and every node right of it larger. */
  ghost predicate Gap(c: Context, key: Key, cmp: Compare) {
    (forall n :: n in Before(c) ==> cmp(n.key, key) < 0) && forall n :: n in After(c) ==> cmp(key, n.key) < 0
  }

  lemma SortedParts(a: seq<Node>, x: Node, b: seq<Node>, cmp: Compare)
    requires Sorted(a + [x] + b, cmp)
    ensures Sorted(a + b, cmp)
    ensures forall n :: n in a ==> cmp(n.key, x.key) < 0
    ensures forall n :: n in b ==> cmp(x.key, n.key) < 0
  {
    var s := a + [x] + b;
    assert s[|a|] == x;
    forall n | n in a
      ensures cmp(n.key, x.key) < 0
    {
      var i :| 0 <= i < |a| && a[i] == n;
      assert s[i] == n;
    }
    forall n | n in b
      ensures cmp(x.key, n.key) < 0
    {
      var i :| 0 <= i < |b| && b[i] == n;
      assert s[|a| + 1 + i] == n;
    }
    forall i, j | 0 <= i < j < |a + b|
      ensures cmp((a + b)[i].key, (a + b)[j].key) < 0
    {
      assert (a + b)[i] == s[if i < |a| then i else i + 1];
      assert (a + b)[j] == s[if j < |a| then j else j + 1];
    }
  }

  lemma SortedJoin(a: seq<Node>, x: Node, b: seq<Node>, cmp: Compare)
    requires Sorted(a + b, cmp)
    requires (forall n :: n in a ==> cmp(n.key, x.key) < 0) && (forall n :: n in b ==> cmp(x.key, n.key) < 0)
    ensures Sorted(a + [x] + b, cmp)
  {
    var s := a + [x] + b;
    forall i, j | 0 <= i < j < |s|
      ensures cmp(s[i].key, s[j].key) < 0
    {
      if i != |a| && j != |a| {
        assert s[i] == (a + b)[if i < |a| then i else i - 1];
        assert s[j] == (a + b)[if j < |a| then j else j - 1];
      }
    }
  }

  /** The focus splits the order at its root. */
  lemma SplitAt(c: Context, t: Tree)
    requires t.Fork?
    ensures Inorder(Plug(c, t)) == (Before(c) + Inorder(t.l)) + [t.n] + (Inorder(t.r) + After(c))
  {
    hide Plug, Before, After, Inorder;
    PlugOrder(c, t);
    ForkOrder(t);
    Recut(Before(c), Inorder(t.l), [t.n], Inorder(t.r), After(c));
  }

  lemma ForkOrder(t: Tree)
    requires t.Fork?
    ensures Inorder(t) == Inorder(t.l) + [t.n] + Inorder(t.r)
  {
  }

  lemma Recut(b: seq<Node>, i: seq<Node>, x: seq<Node>, j: seq<Node>, a: seq<Node>)
    ensures b + (i + x + j) + a == (b + i) + x + (j + a)
  {
  }

  /** One step of a search keeps the gap. */
  lemma GapStep(s: Side, c: Context, t: Tree, key: Key, cmp: Compare)
    requires TotalPreorder(cmp) && t.Fork? && Sorted(Inorder(Plug(c, t)), cmp) && Gap(c, key, cmp)
    requires if s == L then cmp(key, t.n.key) < 0 else cmp(key, t.n.key) > 0
    ensures Gap(In(s, c, t.n, t.red, Sub(t, Other(s))), key, cmp)
  {
    hide Inorder, Sorted, Plug, TotalPreorder;
    SplitAt(c, t);
    var a, b := Before(c) + Inorder(t.l), Inorder(t.r) + After(c);
    SortedParts(a, t.n, b, cmp);
    if s == L {
      AllAbove(b, t.n, key, cmp);
    } else {
      AllBelow(a, t.n, key, cmp);
    }
    assert forall n :: n in Inorder(t.l) ==> n in a;
    assert forall n :: n in Inorder(t.r) ==> n in b;
  }

  lemma AllAbove(b: seq<Node>, x: Node, key: Key, cmp: Compare)
    requires TotalPreorder(cmp) && cmp(key, x.key) < 0 && forall n :: n in b ==> cmp(x.key, n.key) < 0
    ensures forall n :: n in b ==> cmp(key, n.key) < 0
  {
    forall n | n in b
      ensures cmp(key, n.key) < 0
    {
      Chained(cmp, key, x.key, n.key);
    }
    hide TotalPreorder;
  }

  lemma AllBelow(a: seq<Node>, x: Node, key: Key, cmp: Compare)
    requires TotalPreorder(cmp) && cmp(key, x.key) > 0 && forall n :: n in a ==> cmp(n.key, x.key) < 0
    ensures cmp(x.key, key) < 0 && forall n :: n in a ==> cmp(n.key, key) < 0
  {
    Reversed(cmp, key, x.key);
    forall n | n in a
      ensures cmp(n.key, key) < 0
    {
      Chained(cmp, n.key, x.key, key);
    }
    hide TotalPreorder;
  }

  /** A search that ends at a leaf has found every key to be different. */
  lemma GapAtLeaf(c: Context, key: Key, cmp: Compare)
    requires TotalPreorder(cmp) && Gap(c, key, cmp)
    ensures Inorder(Plug(c, Leaf)) == Before(c) + After(c)
    ensures forall n :: n in Inorder(Plug(c, Leaf)) ==> cmp(key, n.key) != 0
  {
    hide Before, After, Inorder, Plug, TotalPreorder;
    PlugOrder(c, Leaf);
    EmptyLeaf();
    assert Before(c) + [] + After(c) == Before(c) + After(c);
    forall n | n in Inorder(Plug(c, Leaf))
      ensures cmp(key, n.key) != 0
    {
      Reversed(cmp, n.key, key);
    }
  }

  lemma EmptyLeaf()
    ensures Inorder(Leaf) == []
  {
  }

  lemma AttachOrder(c: Context, n: Node, cmp: Compare)
    requires Sorted(Inorder(Plug(c, Leaf)), cmp) && Gap(c, n.key, cmp)
    ensures Sorted(Inorder(Plug(c, Fork(Leaf, n, true, Leaf))), cmp)
    ensures Inorder(Plug(c, Fork(Leaf, n, true, Leaf))) == Before(c) + [n] + After(c)
  {
    var t := Fork(Leaf, n, true, Leaf);
    PlugOrder(c, t);
    PlugOrder(c, Leaf);
    assert Inorder(t) == [n];
    assert Before(c) + Inorder(Leaf) + After(c) == Before(c) + After(c);
    SortedJoin(Before(c), n, After(c), cmp);
    hide Inorder, Sorted, Plug;
  }

  /** The context `d` set into the context `base`. */
  ghost function Over(d: Context, base: Context): Context {
    if d.Top? then base else d.(up := Over(d.up, base))
  }

  lemma {:induction false} PlugOver(d: Context, base: Context, t: Tree)
    ensures Plug(Over(d, base), t) == Plug(base, Plug(d, t))
  {
    if d.In? {
      PlugOver(d.up, base, Make(d.s, t, d.n, d.red, d.sib));
    }
  }

  /** Colours do not depend on which node carries them. */
  lemma {:induction false} OverColours(d: Context, s: Side, c: Context, n: Node, m: Node, red: bool, sib: Tree, t: Tree)
    ensures RemoveInv(Over(d, In(s, c, n, red, sib)), t) <==> RemoveInv(Over(d, In(s, c, m, red, sib)), t)
    ensures RedBlack(Plug(Over(d, In(s, c, n, red, sib)), t)) <==> RedBlack(Plug(Over(d, In(s, c, m, red, sib)), t))
  {
    var c1, c2 := Over(d, In(s, c, n, red, sib)), Over(d, In(s, c, m, red, sib));
    PlugColours(c1, t);
    PlugColours(c2, t);
    OverAround(d, s, c, n, m, red, sib, BlackHeight(t), IsRed(t));
    OverAround(d, s, c, n, m, red, sib, BlackHeight(t) + 1, false);
  }

  lemma {:induction false} OverAround(d: Context, s: Side, c: Context, n: Node, m: Node, red: bool, sib: Tree, h: nat, hole: bool)
    ensures BalancedAround(Over(d, In(s, c, n, red, sib)), h) <==> BalancedAround(Over(d, In(s, c, m, red, sib)), h)
    ensures NoRedRedAround(Over(d, In(s, c, n, red, sib)), hole) <==> NoRedRedAround(Over(d, In(s, c, m, red, sib)), hole)
    ensures TopBlack(Over(d, In(s, c, n, red, sib))) <==> TopBlack(Over(d, In(s, c, m, red, sib)))
    ensures Over(d, In(s, c, n, red, sib)).In? && Over(d, In(s, c, m, red, sib)).In?
    decreases d
  {
    if d.In? {
      OverAround(d.up, s, c, n, m, red, sib, h + if d.red then 0 else 1, d.red);
    }
  }

  /** The leftmost node comes first. */
  lemma LeftmostFirst(d: Context, m: Node, red: bool, t: Tree)
    requires Before(d) == []
    ensures Inorder(Plug(d, Fork(Leaf, m, red, t))) == [m] + Inorder(Plug(d, t))
  {
    PlugOrder(d, t);
    SplitAt(d, Fork(Leaf, m, red, t));
    assert Inorder(Leaf) == [];
  }

  /** Taking the leftmost node `m` out of the right subtree and putting it in the place of `n` leaves out just `n`. */
  lemma SuccessorOrder(c: Context, l: Tree, n: Node, red: bool, d: Context, m: Node, mred: bool, t: Tree)
    requires Before(d) == []
    ensures Inorder(Plug(c, Fork(l, n, red, Plug(d, Fork(Leaf, m, mred, t))))) ==
            (Before(c) + Inorder(l)) + [n] + ([m] + (Inorder(Plug(d, t)) + After(c)))
    ensures Inorder(Plug(Over(d, In(R, c, m, red, l)), t)) ==
            (Before(c) + Inorder(l)) + ([m] + (Inorder(Plug(d, t)) + After(c)))
  {
    PlugOver(d, In(R, c, m, red, l), t);
    PlugOnce(R, c, m, red, l, Plug(d, t));
    SplitAt(c, Fork(l, m, red, Plug(d, t)));
    SplitAt(c, Fork(l, n, red, Plug(d, Fork(Leaf, m, mred, t))));
    LeftmostFirst(d, m, mred, t);
    Reassociate([m], Inorder(Plug(d, t)), After(c));
    Reassociate(Before(c) + Inorder(l), [m], Inorder(Plug(d, t)) + After(c));
  }

  /** `s'` is `s` without the node `n`. */
  ghost predicate Dropped(s: seq<Node>, n: Node, s': seq<Node>) {
    exists k :: 0 <= k < |s| && s[k] == n && s' == s[..k] + s[k + 1..]
  }

  lemma DropMiddle(a: seq<Node>, n: Node, b: seq<Node>)
    ensures Dropped(a + [n] + b, n, a + b)
  {
    var s, k := a + [n] + b, |a|;
    assert s[k] == n && a + b == s[..k] + s[k + 1..];
  }

  lemma DropLast(b: seq<Node>, i: seq<Node>, n: Node, d: seq<Node>)
    ensures Dropped(b + (i + [n]) + d, n, b + i + d)
  {
    DropMiddle(b + i, n, d);
    Reassociate(b, i, [n]);
  }

  lemma DropFirst(b: seq<Node>, n: Node, i: seq<Node>, d: seq<Node>)
    ensures Dropped(b + ([n] + i) + d, n, b + i + d)
  {
    DropMiddle(b, n, i + d);
    Reassociate(b, i, d);
    Reassociate(b, [n], i);
    Reassociate(b + [n], i, d);
  }

  lemma DroppedMembers(a: seq<Node>, n: Node, b: seq<Node>, m: Node, cmp: Compare)
    requires TotalPreorder(cmp) && Sorted(a + [n] + b, cmp)
    ensures m in a + b <==> m in a + [n] + b && m != n
  {
    hide Sorted, TotalPreorder;
    SortedParts(a, n, b, cmp);
    Reversed(cmp, n.key, n.key);
    assert (a + [n] + b)[|a|] == n;
  }

  lemma DroppedNodes(t: Tree, n: Node, t': Tree, cmp: Compare)
    requires TotalPreorder(cmp) && Sorted(Inorder(t), cmp) && Dropped(Inorder(t), n, Inorder(t'))
    ensures Sorted(Inorder(t'), cmp) && Nodes(t') == Nodes(t) - {n}
  {
    hide Inorder, Nodes, Sorted, Dropped, TotalPreorder;
    var a, b := DroppedParts(Inorder(t), n, Inorder(t'));
    SortedParts(a, n, b, cmp);
    DroppedSet(t, a, n, b, t', cmp);
  }

  lemma DroppedParts(s: seq<Node>, n: Node, s': seq<Node>) returns (a: seq<Node>, b: seq<Node>)
    requires Dropped(s, n, s')
    ensures s == a + [n] + b && s' == a + b
  {
    var k :| 0 <= k < |s| && s[k] == n && s' == s[..k] + s[k + 1..];
    a, b := s[..k], s[k + 1..];
  }

  lemma DroppedSet(t: Tree, a: seq<Node>, n: Node, b: seq<Node>, t': Tree, cmp: Compare)
    requires TotalPreorder(cmp) && Sorted(a + [n] + b, cmp) && Inorder(t) == a + [n] + b && Inorder(t') == a + b
    ensures Nodes(t') == Nodes(t) - {n}
  {
    hide Inorder, Nodes, Sorted, TotalPreorder;
    forall m | m in Nodes(t) + Nodes(t')
      ensures m in Nodes(t') <==> m in Nodes(t) && m != n
    {
      InorderNodes(t, m);
      InorderNodes(t', m);
      DroppedMembers(a, n, b, m, cmp);
    }
  }

  lemma SpliceOrder(s: Side, c: Context, a: Tree, n: Node, red: bool)
    ensures Dropped(Inorder(Plug(c, Make(s, a, n, red, Leaf))), n, Inorder(Plug(c, a)))
  {
    PlugOrder(c, Make(s, a, n, red, Leaf));
    PlugOrder(c, a);
    LeafOrder(s, a, n, red);
    hide Plug, Inorder, Before, After, Dropped, Make;
    if s == L {
      DropLast(Before(c), Inorder(a), n, After(c));
    } else {
      DropFirst(Before(c), n, Inorder(a), After(c));
    }
  }

  lemma LeafOrder(s: Side, a: Tree, n: Node, red: bool)
    ensures Inorder(Make(s, a, n, red, Leaf)) == if s == L then Inorder(a) + [n] else [n] + Inorder(a)
  {
    MakeOrder(s, a, n, red, Leaf);
    assert Inorder(Leaf) == [];
  }

  /** What taking the successor out and putting it in the place of `n` does to colours and order. */
  lemma SuccessorMoves(c: Context, l: Tree, n: Node, red: bool, d: Context, t: Tree)
    requires t.Fork? && t.l == Leaf && Before(d) == [] && RedBlack(Plug(c, Fork(l, n, red, Plug(d, t))))
    ensures if t.red then RedBlack(Plug(Over(d, In(R, c, t.n, red, l)), t.r))
            else RemoveInv(Over(d, In(R, c, t.n, red, l)), t.r)
    ensures Dropped(Inorder(Plug(c, Fork(l, n, red, Plug(d, t)))), n, Inorder(Plug(Over(d, In(R, c, t.n, red, l)), t.r)))
  {
    var base := In(R, c, n, red, l);
    PlugOver(d, base, t);
    PlugOnce(R, c, n, red, l, Plug(d, t));
    assert t == Make(R, t.r, t.n, t.red, Leaf);
    RemoveStarts(R, Over(d, base), t.r, t.n, t.red);
    OverColours(d, R, c, n, t.n, red, l, t.r);
    SuccessorOrder(c, l, n, red, d, t.n, t.red, t.r);
    DropMiddle(Before(c) + Inorder(l), n, [t.n] + (Inorder(Plug(d, t.r)) + After(c)));
    hide Plug, Inorder, Before, After, Dropped, RemoveInv, RedBlack, Over;
  }

  lemma BaseAround(d: Context, base: Context, t: Tree)
    requires base.In? && Apart(Over(d, base), t)
    ensures base.n in Around(Over(d, base))
    ensures Parent(Over(d, base)) == if d.Top? then base.n else d.n
    ensures d.In? ==> d.n != base.n
    decreases d
  {
    if d.In? {
      BaseAround(d.up, base, Leaf);
    }
  }

  ghost function Height(t: Tree): nat {
    if t.Leaf? then 0 else 1 + if Height(t.l) < Height(t.r) then Height(t.r) else Height(t.l)
  }

  lemma {:induction false} ManyNodes(t: Tree)
    requires Balanced(t)
    ensures Pow2(BlackHeight(t)) <= |Inorder(t)| + 1
  {
    if t.Fork? {
      ManyNodes(t.l);
      ManyNodes(t.r);
    }
  }

  lemma {:induction false} MostlyBlack(t: Tree)
    requires Balanced(t) && NoRedRed(t)
    ensures Height(t) <= 2 * BlackHeight(t) + if IsRed(t) then 1 else 0
  {
    if t.Fork? {
      MostlyBlack(t.l);
      MostlyBlack(t.r);
    }
  }

  /** A tree of n nodes is at most 2 log2(n + 1) high. */
  lemma HeightBound(t: Tree)
    requires RedBlack(t)
    ensures Pow2(Height(t)) <= (|Inorder(t)| + 1) * (|Inorder(t)| + 1)
  {
    ManyNodes(t);
    MostlyBlack(t);
    var b, n := BlackHeight(t), |Inorder(t)| + 1;
    Pow2Grows(Height(t), 2 * b);
    Pow2Sum(b, b);
    Squares(Pow2(b), n);
    hide Inorder, BlackHeight, Height, RedBlack, Pow2;
  }

  lemma Squares(a: nat, b: nat)
    requires a <= b
    ensures a * a <= b * b
  {
    assert a * a <= a * b <= b * b;
  }

  lemma {:induction false} Pow2Sum(a: nat, b: nat)
    ensures Pow2(a + b) == Pow2(a) * Pow2(b)
  {
    if b > 0 {
      Pow2Sum(a, b - 1);
    }
  }

  ghost function First(s: seq<Node>): Node? {
    if s == [] then null else s[0]
  }

  /** Every node that comes after the focus. */
  ghost function Following(c: Context, t: Tree): seq<Node> {
    Inorder(t) + After(c)
  }

  lemma FollowingDown(c: Context, t: Tree)
    requires t.Fork?
    ensures t.l.Leaf? ==> First(Following(c, t)) == t.n
    ensures Following(In(L, c, t.n, t.red, t.r), t.l) == Following(c, t)
  {
    var i, j, a := Inorder(t.l), Inorder(t.r), After(c);
    assert Inorder(t) == i + [t.n] + j && After(In(L, c, t.n, t.red, t.r)) == [t.n] + j + a;
    assert t.l.Leaf? ==> i == [];
    Regroup([], i, [t.n], j, a);
    assert [] + (i + [t.n] + j) + a == i + [t.n] + j + a && [] + i == i;
  }

  lemma NextAfter(c: Context)
    ensures First(After(c)) == if c.Top? then null else if c.s == L then c.n else First(After(c.up))
  {
  }

  /** `f` is the first of the nodes of `s` with a larger key than `key`, or null when there is none. */
  ghost predicate NextAbove(s: seq<Node>, key: Key, f: Node?, cmp: Compare) {
    && (f == null <==> forall m :: m in s ==> cmp(key, m.key) >= 0)
    && (f != null ==> f in s && cmp(key, f.key) < 0 && forall m :: m in s && cmp(key, m.key) < 0 ==> cmp(f.key, m.key) <= 0)
  }

  /** The first node after `n` is the one with the next larger key. */
  lemma FirstIsNext(c: Context, t: Tree, cmp: Compare)
    requires TotalPreorder(cmp) && t.Fork? && Sorted(Inorder(Plug(c, t)), cmp)
    ensures NextAbove(Inorder(Plug(c, t)), t.n.key, First(Inorder(t.r) + After(c)), cmp)
  {
    hide Inorder, Plug, Sorted, TotalPreorder, NextAbove, First;
    SplitAt(c, t);
    var a, b := Before(c) + Inorder(t.l), Inorder(t.r) + After(c);
    FirstOfRest(a, t.n, b, cmp);
  }

  lemma FirstOfRest(a: seq<Node>, n: Node, b: seq<Node>, cmp: Compare)
    requires TotalPreorder(cmp) && Sorted(a + [n] + b, cmp)
    ensures NextAbove(a + [n] + b, n.key, First(b), cmp)
  {
    hide TotalPreorder;
    SortedParts(a, n, b, cmp);
    var s := a + [n] + b;
    forall m | m in s && cmp(n.key, m.key) < 0
      ensures m in b
    {
      Reversed(cmp, m.key, n.key);
      Reversed(cmp, n.key, n.key);
    }
    if b != [] {
      assert b[0] in b && b[0] in s;
      forall m | m in b
        ensures cmp(b[0].key, m.key) <= 0
      {
        FirstIsLeast(a, n, b, m, cmp);
      }
    }
    hide Sorted;
  }

  lemma FirstIsLeast(a: seq<Node>, n: Node, b: seq<Node>, m: Node, cmp: Compare)
    requires TotalPreorder(cmp) && Sorted(a + [n] + b, cmp) && m in b
    ensures cmp(b[0].key, m.key) <= 0
  {
    hide TotalPreorder;
    var s := a + [n] + b;
    Reversed(cmp, m.key, m.key);
    var i :| 0 <= i < |b| && b[i] == m;
    assert s[|a| + 1] == b[0] && s[|a| + 1 + i] == m;
  }
}
