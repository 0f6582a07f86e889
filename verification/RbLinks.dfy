/**
 * Red-black trees as linked nodes (deps/libuv/include/tree.h): the shape of a tree with one of its subtrees in focus,
 * the fields each node has in it, and what rotating, painting, unlinking and replacing do to them. The source writes
 * every fixup twice, once for each side; here the side is a variable, and `Child(n, L)` is RB_LEFT, `Child(n, R)`
 * RB_RIGHT.
 */
module RbLinks {
  datatype Side = L | R

  function Other(s: Side): Side {
    if s == L then R else L
  }

  /** Whatever the comparison function looks at: any type of values. */
  type Key(!new)

  class Node {
    var left: Node?
    var right: Node?
    var parent: Node?
    var red: bool
    const key: Key

    constructor (key: Key)
      ensures this.key == key
    {
      this.key := key;
      left, right, parent, red := null, null, null, false;
    }
  }

  function Child(n: Node, s: Side): Node?
    reads n
  {
    if s == L then n.left else n.right
  }

  datatype Fields = Fields(left: Node?, right: Node?, parent: Node?, red: bool)

  ghost function FieldsOf(n: Node): Fields
    reads n
  {
    Fields(n.left, n.right, n.parent, n.red)
  }

  function Get(f: Fields, s: Side): Node? {
    if s == L then f.left else f.right
  }

  function Set(f: Fields, s: Side, x: Node?): Fields {
    if s == L then f.(left := x) else f.(right := x)
  }

  /** The shape of a subtree, and of the rest of the tree around it: a zipper. */
  datatype Tree = Leaf | Fork(l: Tree, n: Node, red: bool, r: Tree)

  /** `In(s, up, n, red, sib)`: the hole is the child on side `s` of `n`, `sib` its other child. */
  datatype Context = Top | In(s: Side, up: Context, n: Node, red: bool, sib: Tree)

  /** The fork with `a` on side `s` and `b` on the other. */
  function Make(s: Side, a: Tree, n: Node, red: bool, b: Tree): Tree {
    if s == L then Fork(a, n, red, b) else Fork(b, n, red, a)
  }

  function Sub(t: Tree, s: Side): Tree
    requires t.Fork?
  {
    if s == L then t.l else t.r
  }

  ghost function Root(t: Tree): Node? {
    if t.Leaf? then null else t.n
  }

  ghost function Parent(c: Context): Node? {
    if c.Top? then null else c.n
  }

  ghost function Nodes(t: Tree): set<Node> {
    if t.Leaf? then {} else Nodes(t.l) + {t.n} + Nodes(t.r)
  }

  ghost function Around(c: Context): set<Node> {
    if c.Top? then {} else Around(c.up) + {c.n} + Nodes(c.sib)
  }

  /** No node occurs twice. */
  ghost predicate Proper(t: Tree) {
    t.Fork? ==> Proper(t.l) && Proper(t.r) && t.n !in Nodes(t.l) && t.n !in Nodes(t.r) && Nodes(t.l) !! Nodes(t.r)
  }

  ghost predicate ProperAround(c: Context) {
    c.In? ==> ProperAround(c.up) && Proper(c.sib) && c.n !in Nodes(c.sib) && c.n !in Around(c.up) && Nodes(c.sib) !! Around(c.up)
  }

  /** The fields a node of `t` has when the root of `t` has parent `p`. */
  ghost function InTree(t: Tree, p: Node?, n: Node): Fields
    requires n in Nodes(t)
  {
    if n == t.n then Fields(Root(t.l), Root(t.r), p, t.red)
    else if n in Nodes(t.l) then InTree(t.l, t.n, n)
    else InTree(t.r, t.n, n)
  }

  /** The fields a node around the hole has when `h` is at the hole. */
  ghost function InContext(c: Context, h: Node?, n: Node): Fields
    requires n in Around(c)
  {
    if n == c.n then Set(Set(Fields(null, null, Parent(c.up), c.red), c.s, h), Other(c.s), Root(c.sib))
    else if n in Nodes(c.sib) then InTree(c.sib, c.n, n)
    else InContext(c.up, c.n, n)
  }

  /** The root pointer of the tree when `h` is at the hole. */
  ghost function TopRoot(c: Context, h: Node?): Node? {
    if c.Top? then h else TopRoot(c.up, c.n)
  }

  ghost function Plug(c: Context, t: Tree): Tree {
    if c.Top? then t else Plug(c.up, Make(c.s, t, c.n, c.red, c.sib))
  }

  ghost predicate Apart(c: Context, t: Tree) {
    Proper(t) && ProperAround(c) && Nodes(t) !! Around(c)
  }

  ghost function All(c: Context, t: Tree): set<Node> {
    Nodes(t) + Around(c)
  }

  /** The fields of any node of the whole tree. */
  ghost function Expected(c: Context, t: Tree, n: Node): Fields
    requires n in All(c, t)
  {
    if n in Nodes(t) then InTree(t, Parent(c), n) else InContext(c, Root(t), n)
  }

  /** The definitions above for a fork written with `Make`, whichever its side. */
  lemma MakeNodes(s: Side, a: Tree, n: Node, red: bool, b: Tree)
    ensures Root(Make(s, a, n, red, b)) == n
    ensures Nodes(Make(s, a, n, red, b)) == Nodes(a) + {n} + Nodes(b)
    ensures Proper(Make(s, a, n, red, b)) <==>
            Proper(a) && Proper(b) && n !in Nodes(a) && n !in Nodes(b) && Nodes(a) !! Nodes(b)
  {
  }

  lemma MakeFields(s: Side, a: Tree, n: Node, red: bool, b: Tree, p: Node?, x: Node)
    requires Proper(Make(s, a, n, red, b)) && x in Nodes(Make(s, a, n, red, b))
    ensures x != n && x !in Nodes(a) ==> x in Nodes(b)
    ensures InTree(Make(s, a, n, red, b), p, x) ==
            if x == n then Set(Set(Fields(null, null, p, red), s, Root(a)), Other(s), Root(b))
            else if x in Nodes(a) then InTree(a, n, x)
            else InTree(b, n, x)
  {
  }

  lemma InFields(s: Side, c: Context, n: Node, red: bool, b: Tree, h: Node?, x: Node)
    requires x in Around(In(s, c, n, red, b))
    ensures x != n && x !in Nodes(b) ==> x in Around(c)
    ensures InContext(In(s, c, n, red, b), h, x) ==
            if x == n then Set(Set(Fields(null, null, Parent(c), red), s, h), Other(s), Root(b))
            else if x in Nodes(b) then InTree(b, n, x)
            else InContext(c, n, x)
  {
  }

  /** Moving the focus to a child changes neither the nodes nor their fields. */
  lemma RefocusShape(s: Side, c: Context, a: Tree, n: Node, red: bool, b: Tree)
    ensures Apart(c, Make(s, a, n, red, b)) <==> Apart(In(s, c, n, red, b), a)
    ensures All(c, Make(s, a, n, red, b)) == All(In(s, c, n, red, b), a)
    ensures TopRoot(c, Root(Make(s, a, n, red, b))) == TopRoot(In(s, c, n, red, b), Root(a))
  {
    MakeNodes(s, a, n, red, b);
    hide Nodes, Make, Proper;
  }

  lemma Refocus(s: Side, c: Context, a: Tree, n: Node, red: bool, b: Tree, x: Node)
    requires Apart(c, Make(s, a, n, red, b)) && x in All(c, Make(s, a, n, red, b))
    ensures x in All(In(s, c, n, red, b), a)
    ensures Expected(c, Make(s, a, n, red, b), x) == Expected(In(s, c, n, red, b), a, x)
  {
    RefocusShape(s, c, a, n, red, b);
    MakeNodes(s, a, n, red, b);
    if x in Nodes(Make(s, a, n, red, b)) {
      MakeFields(s, a, n, red, b, Parent(c), x);
    }
    if x in Around(In(s, c, n, red, b)) {
      InFields(s, c, n, red, b, Root(a), x);
    }
    hide Make, InTree, InContext, Proper, ProperAround, Nodes, TopRoot, Set;
  }

  ghost function Rotated(n: Node, f: Fields, s: Side, elm: Node, tmp: Node, b: Node?, p: Node?): Fields {
    if n == elm then Set(f, Other(s), b).(parent := tmp)
    else if n == tmp then Set(f, s, elm).(parent := p)
    else if n == b then f.(parent := elm)
    else if n == p then Set(f, if f.left == elm then L else R, tmp)
    else f
  }

  ghost function Painted(t: Tree, red: bool): Tree {
    if t.Leaf? then Leaf else t.(red := red)
  }

  /** What hanging `h` into the hole instead of another subtree does to the fields around it. */
  lemma {:induction false} Rehang(c: Context, h: Node?, h': Node?, n: Node)
    requires ProperAround(c) && n in Around(c)
    ensures InContext(c, h', n) == if n == c.n then Set(InContext(c, h, n), c.s, h') else InContext(c, h, n)
  {
  }

  /** The node above the hole finds the side of the hole by comparing its left child with the subtree's root. */
  lemma HoleSide(c: Context, t: Tree)
    requires Apart(c, t) && c.In?
    ensures Get(InContext(c, Root(t), c.n), c.s) == Root(t)
    ensures Get(InContext(c, Root(t), c.n), Other(c.s)) == Root(c.sib)
    ensures Root(t) != null ==> Root(t) != Root(c.sib)
    ensures Root(t) != null || Root(c.sib) != null ==> (InContext(c, Root(t), c.n).left == Root(t) <==> c.s == L)
    ensures c.n !in Nodes(t)
  {
    hide InContext;
    assert InContext(c, Root(t), c.n) ==
           Set(Set(Fields(null, null, Parent(c.up), c.red), c.s, Root(t)), Other(c.s), Root(c.sib)) by {
      AboveHole(c, Root(t));
    }
  }

  lemma AboveHole(c: Context, h: Node?)
    requires c.In?
    ensures InContext(c, h, c.n) ==
            Set(Set(Fields(null, null, Parent(c.up), c.red), c.s, h), Other(c.s), Root(c.sib))
  {
  }

  lemma Reparent(t: Tree, p: Node?, p': Node?, n: Node)
    requires Proper(t) && n in Nodes(t)
    ensures t.Fork?
    ensures InTree(t, p', n) == if n == t.n then InTree(t, p, n).(parent := p') else InTree(t, p, n)
  {
  }

  /** Both trees of a rotation have the same nodes, and its effect on each is `Rotated`. */
  lemma RotateShape(s: Side, a: Tree, x: Node, cx: bool, b: Tree, y: Node, cy: bool, d: Tree)
    ensures Nodes(Make(s, Make(s, a, x, cx, b), y, cy, d)) == Nodes(Make(s, a, x, cx, Make(s, b, y, cy, d)))
    ensures Proper(Make(s, Make(s, a, x, cx, b), y, cy, d)) <==> Proper(Make(s, a, x, cx, Make(s, b, y, cy, d)))
  {
    MakeNodes(s, Make(s, a, x, cx, b), y, cy, d);
    MakeNodes(s, a, x, cx, b);
    MakeNodes(s, a, x, cx, Make(s, b, y, cy, d));
    MakeNodes(s, b, y, cy, d);
    hide Make, Nodes, Proper;
  }

  lemma RotateInTree(s: Side, a: Tree, x: Node, cx: bool, b: Tree, y: Node, cy: bool, d: Tree, p: Node?, n: Node)
    requires Proper(Make(s, a, x, cx, Make(s, b, y, cy, d))) && n in Nodes(Make(s, a, x, cx, Make(s, b, y, cy, d)))
    requires n != p
    ensures n in Nodes(Make(s, Make(s, a, x, cx, b), y, cy, d))
    ensures InTree(Make(s, Make(s, a, x, cx, b), y, cy, d), p, n) ==
            Rotated(n, InTree(Make(s, a, x, cx, Make(s, b, y, cy, d)), p, n), s, x, y, Root(b), p)
  {
    hide Make, Nodes, Proper, InTree;
    RotateShape(s, a, x, cx, b, y, cy, d);
    MakeNodes(s, Make(s, a, x, cx, b), y, cy, d);
    MakeNodes(s, a, x, cx, b);
    MakeNodes(s, a, x, cx, Make(s, b, y, cy, d));
    MakeNodes(s, b, y, cy, d);
    MakeFields(s, Make(s, a, x, cx, b), y, cy, d, p, n);
    MakeFields(s, a, x, cx, Make(s, b, y, cy, d), p, n);
    if n in Nodes(Make(s, a, x, cx, b)) {
      MakeFields(s, a, x, cx, b, y, n);
    }
    if n in Nodes(Make(s, b, y, cy, d)) {
      MakeFields(s, b, y, cy, d, x, n);
    }
    if n in Nodes(b) {
      Reparent(b, y, x, n);
    }
    RootIn(b);
  }

  lemma RootIn(t: Tree)
    ensures Root(t) != null ==> Root(t) in Nodes(t)
  {
  }

  /** Hanging another subtree into the hole, as far as the nodes around it can tell. */
  ghost function Rehung(n: Node, f: Fields, was: Node?, h: Node?, p: Node?): Fields {
    if n == p then Set(f, if f.left == was then L else R, h) else f
  }

  lemma RehungAround(c: Context, t: Tree, h: Node?, n: Node)
    requires Apart(c, t) && n in Around(c)
    requires t.Fork? || (c.In? && c.sib.Fork?)
    ensures InContext(c, h, n) == Rehung(n, InContext(c, Root(t), n), Root(t), h, Parent(c))
  {
    HoleSide(c, t);
    Rehang(c, Root(t), h, n);
    hide InContext, Apart, Around;
  }

  lemma RootAtTop(c: Context, h: Node?, h': Node?)
    ensures TopRoot(c, h') == if c.Top? then h' else TopRoot(c, h)
  {
  }

  lemma RotateAll(s: Side, c: Context, a: Tree, x: Node, cx: bool, b: Tree, y: Node, cy: bool, d: Tree, n: Node)
    requires Apart(c, Make(s, a, x, cx, Make(s, b, y, cy, d))) && n in All(c, Make(s, a, x, cx, Make(s, b, y, cy, d)))
    ensures n in All(c, Make(s, Make(s, a, x, cx, b), y, cy, d))
    ensures Expected(c, Make(s, Make(s, a, x, cx, b), y, cy, d), n) ==
            Rotated(n, Expected(c, Make(s, a, x, cx, Make(s, b, y, cy, d)), n), s, x, y, Root(b), Parent(c))
  {
    var t, t' := Make(s, a, x, cx, Make(s, b, y, cy, d)), Make(s, Make(s, a, x, cx, b), y, cy, d);
    RotateShape(s, a, x, cx, b, y, cy, d);
    ParentAround(c);
    RotateNames(s, a, x, cx, b, y, cy, d);
    if n in Nodes(t) {
      RotateInTree(s, a, x, cx, b, y, cy, d, Parent(c), n);
    } else {
      assert Root(t) == x && Root(t') == y;
      RehungAround(c, t, y, n);
    }
    hide Make, Nodes, Proper, InTree, InContext, Around, ProperAround;
  }

  lemma RotateNames(s: Side, a: Tree, x: Node, cx: bool, b: Tree, y: Node, cy: bool, d: Tree)
    requires Proper(Make(s, a, x, cx, Make(s, b, y, cy, d)))
    ensures Root(Make(s, a, x, cx, Make(s, b, y, cy, d))) == x
    ensures Root(Make(s, Make(s, a, x, cx, b), y, cy, d)) == y
    ensures {x, y} + Nodes(b) <= Nodes(Make(s, a, x, cx, Make(s, b, y, cy, d)))
    ensures x != y && Root(b) != x && Root(b) != y
    ensures Root(b) != null ==> Root(b) in Nodes(b)
  {
    MakeNodes(s, a, x, cx, Make(s, b, y, cy, d));
    MakeNodes(s, b, y, cy, d);
    RootIn(b);
  }

  lemma ParentAround(c: Context)
    ensures Parent(c) != null ==> Parent(c) in Around(c)
  {
  }

  lemma PaintAll(c: Context, t: Tree, red: bool, n: Node)
    requires Apart(c, t) && t.Fork? && n in All(c, t)
    ensures n in All(c, Painted(t, red))
    ensures Expected(c, Painted(t, red), n) ==
            if n == t.n then Expected(c, t, n).(red := red) else Expected(c, t, n)
  {
  }

  /** `n`, which has no child but `a`, taken out of the tree. */
  ghost function Spliced(x: Node, f: Fields, n: Node, a: Node?, p: Node?): Fields {
    if x == a then f.(parent := p) else Rehung(x, f, n, a, p)
  }

  lemma SpliceAll(s: Side, c: Context, a: Tree, n: Node, red: bool, x: Node)
    requires Apart(c, Make(s, a, n, red, Leaf)) && x in All(c, a)
    ensures x in All(c, Make(s, a, n, red, Leaf))
    ensures Expected(c, a, x) == Spliced(x, Expected(c, Make(s, a, n, red, Leaf), x), n, Root(a), Parent(c))
  {
    var t := Make(s, a, n, red, Leaf);
    MakeNodes(s, a, n, red, Leaf);
    ParentAround(c);
    RootIn(a);
    if x in Nodes(a) {
      MakeFields(s, a, n, red, Leaf, Parent(c), x);
      Reparent(a, n, Parent(c), x);
    } else {
      RehungAround(c, t, Root(a), x);
    }
    hide Make, Proper, InTree, InContext, Around, ProperAround, Nodes;
  }

  /** `m` takes the place of `n`. */
  ghost function Replaced(x: Node, f: Fields, n: Node, m: Node, p: Node?, l: Node?, r: Node?): Fields {
    if x == l || x == r then f.(parent := m) else Rehung(x, f, n, m, p)
  }

  lemma ReplaceAll(c: Context, l: Tree, n: Node, red: bool, r: Tree, m: Node, x: Node)
    requires Apart(c, Fork(l, n, red, r)) && m !in All(c, Fork(l, n, red, r)) && x in All(c, Fork(l, m, red, r))
    ensures x != m ==> x in All(c, Fork(l, n, red, r))
    ensures Expected(c, Fork(l, m, red, r), x) ==
            if x == m then Expected(c, Fork(l, n, red, r), n)
            else Replaced(x, Expected(c, Fork(l, n, red, r), x), n, m, Parent(c), Root(l), Root(r))
  {
    ParentAround(c);
    RootIn(l);
    RootIn(r);
    if x in Nodes(l) {
      Reparent(l, n, m, x);
    } else if x in Nodes(r) {
      Reparent(r, n, m, x);
    } else if x in Around(c) {
      RehungAround(c, Fork(l, n, red, r), m, x);
    }
    hide InContext, Around, ProperAround;
  }

  lemma AttachAll(c: Context, m: Node, x: Node)
    requires Apart(c, Leaf) && m !in Around(c) && x in Around(c)
    ensures Expected(c, Fork(Leaf, m, true, Leaf), x) ==
            if x == Parent(c) then Set(Expected(c, Leaf, x), c.s, m) else Expected(c, Leaf, x)
  {
    Rehang(c, null, m, x);
    hide InContext;
  }

  lemma MakeTurned(s: Side, a: Tree, n: Node, red: bool, b: Tree)
    ensures Make(Other(s), b, n, red, a) == Make(s, a, n, red, b)
  {
  }
}
