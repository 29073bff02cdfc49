/** RB_INSERT and RB_INSERT_COLOR of tree.h. */
module RbInsert {
  import opened RbShape
  import opened RbLinks

  // The three rearrangements of the fix-up loop, on the heap.

  /** The red uncle case: parent and uncle become black, the grandparent red. */
  method Recolor(head: Head, parent: Node, gparent: Node, uncle: Node, ghost d1: Side, ghost d2: Side,
                 ghost s1: Tree, ghost ul: Tree, ghost ur: Tree, ghost up: Path, ghost t: Tree)
    requires head.Zip(Step(d1, parent, Red, s1, Step(d2, gparent, Black, Fork(ul, uncle, Red, ur), up)), t)
    modifies head.nodes
    ensures head.Zip(up, Mk(d2, Mk(d1, t, parent, Black, s1), gparent, Red, Fork(ul, uncle, Black, ur)))
  {
    hide Mk, head.Zip;
    ghost var u, v := Fork(ul, uncle, Red, ur), Fork(ul, uncle, Black, ur);
    head.Up(Step(d2, gparent, Black, u, up), d1, t, parent, Red, s1);
    head.Up(up, d2, Mk(d1, t, parent, Red, s1), gparent, Black, u);
    Mirror(d2, Mk(d1, t, parent, Red, s1), gparent, Black, u);
    head.PaintChild(uncle, Black, up, Other(d2), ul, Red, ur, gparent, Black, Mk(d1, t, parent, Red, s1));
    Mirror(d2, Mk(d1, t, parent, Red, s1), gparent, Black, v);
    BlackRed(head, parent, gparent, d1, d2, s1, v, up, t);
  }

  /** RB_SET_BLACKRED(parent, gparent). */
  method BlackRed(head: Head, parent: Node, gparent: Node, ghost d1: Side, ghost d2: Side,
                  ghost s1: Tree, ghost s2: Tree, ghost up: Path, ghost t: Tree)
    requires head.Zip(up, Mk(d2, Mk(d1, t, parent, Red, s1), gparent, Black, s2))
    modifies head.nodes
    ensures head.Zip(up, Mk(d2, Mk(d1, t, parent, Black, s1), gparent, Red, s2))
  {
    hide head.Zip;
    head.PaintChild(parent, Black, up, d2, Mk(d1, t, parent, Red, s1).left, Red, Mk(d1, t, parent, Red, s1).right,
                    gparent, Black, s2);
    ghost var g := Mk(d2, Mk(d1, t, parent, Black, s1), gparent, Black, s2);
    head.Paint(gparent, Red, up, g.left, Black, g.right);
  }

  /** The inner case: a rotation at parent brings elm above it. */
  method TurnOut(head: Head, d: Side, elm: Node, parent: Node, ghost a: Tree, ghost b: Tree, ghost s1: Tree,
                 ghost up: Path)
    requires head.Zip(Step(Other(d), parent, Red, s1, up), Mk(d, a, elm, Red, b))
    modifies head`root, head.nodes
    ensures head.Zip(Step(d, elm, Red, b, up), Mk(d, s1, parent, Red, a))
  {
    hide Mk, head.Zip;
    head.Up(up, Other(d), Mk(d, a, elm, Red, b), parent, Red, s1);
    Mirror(d, s1, parent, Red, Mk(d, a, elm, Red, b));
    var tmp := head.Rotate(d, parent, up, s1, Red, a, elm, Red, b);
    head.Down(up, d, Mk(d, s1, parent, Red, a), elm, Red, b);
  }

  /** The outer case: a rotation at gparent brings parent above it, black over red. */
  method TurnUp(head: Head, d: Side, parent: Node, gparent: Node, ghost s1: Tree, ghost s2: Tree, ghost up: Path,
                ghost t: Tree)
    requires head.Zip(Step(d, parent, Red, s1, Step(d, gparent, Black, s2, up)), t)
    modifies head`root, head.nodes
    ensures head.Zip(Step(d, parent, Black, Mk(d, s1, gparent, Red, s2), up), t)
  {
    hide Mk, head.Zip;
    head.Up(Step(d, gparent, Black, s2, up), d, t, parent, Red, s1);
    head.Up(up, d, Mk(d, t, parent, Red, s1), gparent, Black, s2);
    BlackRed(head, parent, gparent, d, d, s1, s2, up, t);
    ghost var o := Other(d);
    Mirror(d, Mk(d, t, parent, Black, s1), gparent, Red, s2);
    Mirror(d, t, parent, Black, s1);
    var tmp := head.Rotate(Other(d), gparent, up, s2, Red, s1, parent, Black, t);
    Mirror(d, t, parent, Black, Mk(d, s1, gparent, Red, s2));
    Mirror(d, s1, gparent, Red, s2);
    head.Down(up, d, t, parent, Black, Mk(d, s1, gparent, Red, s2));
  }

  // What they keep, on values.

  /** A red tree that fits in its place except that a red node may be above it. */
  ghost predicate RedSpot(p: Path, t: Tree, h: nat) {
    IsRed(t) && Balanced(t, h) && NoRedRed(t) && PathOk(p, h)
  }

  lemma RecolorKeeps(d1: Side, d2: Side, parent: Node, gparent: Node, s1: Tree, u: Tree, v: Tree, up: Path, t: Tree,
                     h: nat)
    requires RedSpot(Step(d1, parent, Red, s1, Step(d2, gparent, Black, u, up)), t, h)
    requires u.Fork? && u.color == Red && v == u.(color := Black)
    ensures RedSpot(up, Mk(d2, Mk(d1, t, parent, Black, s1), gparent, Red, v), h + 1)
  {
    assert PathOk(Step(d2, gparent, Black, u, up), h);
    assert Balanced(v, h + 1);
    assert Balanced(Mk(d1, t, parent, Black, s1), h + 1);
  }

  lemma TurnOutKeeps(d: Side, parent: Node, elm: Node, a: Tree, b: Tree, s1: Tree, up: Path, h: nat)
    requires RedSpot(Step(Other(d), parent, Red, s1, up), Mk(d, a, elm, Red, b), h)
    ensures RedSpot(Step(d, elm, Red, b, up), Mk(d, s1, parent, Red, a), h)
  {}

  lemma TurnUpKeeps(d: Side, parent: Node, gparent: Node, s1: Tree, s2: Tree, up: Path, t: Tree, h: nat)
    requires RedSpot(Step(d, parent, Red, s1, Step(d, gparent, Black, s2, up)), t, h)
    requires !IsRed(s2)
    ensures RedSpot(Step(d, parent, Black, Mk(d, s1, gparent, Red, s2), up), t, h)
  {
    assert PathOk(Step(d, gparent, Black, s2, up), h);
  }

  // The order of the elements is the same before and after.

  lemma RecolorOrder(d1: Side, d2: Side, parent: Node, gparent: Node, s1: Tree, u: Tree, v: Tree, up: Path, t: Tree)
    requires u.Fork? && v == u.(color := Black)
    ensures InOrder(Plug(up, Mk(d2, Mk(d1, t, parent, Black, s1), gparent, Red, v))) ==
      InOrder(Plug(Step(d1, parent, Red, s1, Step(d2, gparent, Black, u, up)), t))
  {
    SameOrder(up, Mk(d2, Mk(d1, t, parent, Black, s1), gparent, Red, v),
      Mk(d2, Mk(d1, t, parent, Red, s1), gparent, Black, u));
  }

  lemma TurnOutOrder(d: Side, parent: Node, elm: Node, a: Tree, b: Tree, s1: Tree, up: Path)
    ensures InOrder(Plug(Step(d, elm, Red, b, up), Mk(d, s1, parent, Red, a))) ==
      InOrder(Plug(Step(Other(d), parent, Red, s1, up), Mk(d, a, elm, Red, b)))
  {
    Mirror(d, s1, parent, Red, Mk(d, a, elm, Red, b));
    RotateOrder(d, s1, parent, Red, a, elm, Red, b);
    SameOrder(up, Mk(d, Mk(d, s1, parent, Red, a), elm, Red, b), Mk(d, s1, parent, Red, Mk(d, a, elm, Red, b)));
  }

  lemma TurnUpOrder(d: Side, parent: Node, gparent: Node, s1: Tree, s2: Tree, up: Path, t: Tree)
    ensures InOrder(Plug(Step(d, parent, Black, Mk(d, s1, gparent, Red, s2), up), t)) ==
      InOrder(Plug(Step(d, parent, Red, s1, Step(d, gparent, Black, s2, up)), t))
  {
    RotateOrder(d, t, parent, Black, s1, gparent, Red, s2);
    SameOrder(up, Mk(d, t, parent, Black, Mk(d, s1, gparent, Red, s2)),
      Mk(d, Mk(d, t, parent, Red, s1), gparent, Black, s2));
  }

  // The fix-up loop.

  ghost function Length(p: Path): nat {
    if p.Top? then 0 else 1 + Length(p.up)
  }

  /** Which side of the parent the focus hangs on, told by the left link. */
  lemma SideOf(head: Head, p: Path, t: Tree)
    requires head.Zip(p, t) && p.Step? && t.Fork?
    ensures t.n.parent == p.n && p.n.color == p.color && (p.n.left == t.n <==> p.d == Left)
    ensures p.n.Child(Other(p.d)) == TopOf(p.sib)
    ensures p.n.parent == Owner(p.up)
  {}

  lemma ShapeOfRedSpot(p: Path, t: Tree, h: nat)
    requires RedSpot(p, t, h) && p.Step? && p.color == Red
    ensures p.up.Step? && p.up.color == Black
  {}

  /** One turn of the loop with a red uncle. */
  method UncleRed(head: Head, parent: Node, gparent: Node, uncle: Node, ghost p: Path, ghost t: Tree, ghost h: nat)
      returns (elm: Node, ghost q: Path, ghost u: Tree)
    requires head.Zip(p, t) && RedSpot(p, t, h)
    requires p.Step? && p.color == Red && p.up.Step? && p.n == parent && p.up.n == gparent
    requires IsRed(p.up.sib) && p.up.sib.n == uncle
    modifies head.nodes
    ensures head.Zip(q, u) && RedSpot(q, u, h + 1) && Length(q) < Length(p) && elm == TopOf(u)
    ensures InOrder(Plug(q, u)) == InOrder(Plug(p, t))
  {
    ghost var s2 := p.up.sib;
    Recolor(head, parent, gparent, uncle, p.d, p.up.d, p.sib, s2.left, s2.right, p.up.up, t);
    elm := gparent;
    q := p.up.up;
    u := Mk(p.up.d, Mk(p.d, t, parent, Black, p.sib), gparent, Red, s2.(color := Black));
    RecolorKeeps(p.d, p.up.d, parent, gparent, p.sib, s2, s2.(color := Black), q, t, h);
    RecolorOrder(p.d, p.up.d, parent, gparent, p.sib, s2, s2.(color := Black), q, t);
  }

  /** One turn of the loop with a black uncle or none, d the side parent is on. */
  method UncleBlack(head: Head, d: Side, elm0: Node, parent0: Node, gparent: Node, ghost p: Path, ghost t: Tree,
                    ghost h: nat)
      returns (elm: Node, ghost q: Path, ghost u: Tree)
    requires head.Zip(p, t) && RedSpot(p, t, h) && t.n == elm0
    requires p.Step? && p.color == Red && p.up.Step? && p.up.color == Black
    requires p.n == parent0 && p.up.n == gparent && d == p.up.d && !IsRed(p.up.sib)
    modifies head`root, head.nodes
    ensures head.Zip(q, u) && RedSpot(q, u, h) && Length(q) < Length(p) && elm == TopOf(u)
    ensures InOrder(Plug(q, u)) == InOrder(Plug(p, t))
  {
    elm := elm0;
    var parent := parent0;
    q, u := p, t;
    SideOf(head, p, t);
    if parent.Child(Other(d)) == elm {
      ghost var near, far := if d == Left then t.left else t.right, if d == Left then t.right else t.left;
      ghost var sib := p.sib;
      TurnOut(head, d, elm, parent, near, far, sib, p.up);
      TurnOutKeeps(d, parent, elm, near, far, sib, p.up, h);
      TurnOutOrder(d, parent, elm, near, far, sib, p.up);
      q, u := Step(d, elm, Red, far, p.up), Mk(d, sib, parent, Red, near);
      elm, parent := parent, elm;
    }
    assert q.up == p.up && q.d == d && q.n == parent && q.color == Red;
    TurnUp(head, d, parent, gparent, q.sib, p.up.sib, p.up.up, u);
    TurnUpKeeps(d, parent, gparent, q.sib, p.up.sib, p.up.up, u, h);
    TurnUpOrder(d, parent, gparent, q.sib, p.up.sib, p.up.up, u);
    q := Step(d, parent, Black, Mk(d, q.sib, gparent, Red, p.up.sib), p.up.up);
  }

  /** RB_INSERT_COLOR: moves the red-red conflict up until there is none. */
  method InsertColor(head: Head, elm0: Node, ghost p0: Path, ghost t0: Tree, ghost h0: nat)
      returns (ghost t: Tree)
    requires head.Zip(p0, t0) && RedSpot(p0, t0, h0) && t0.n == elm0
    modifies head`root, head.nodes
    ensures head.Zip(Top, t) && RedBlack(t)
    ensures InOrder(t) == InOrder(Plug(p0, t0))
  {
    hide Balanced, NoRedRed, PathOk, InOrder, Plug, Apart, PathApart;
    var elm, parent := elm0, elm0.parent;
    ghost var p, h := p0, h0;
    t := t0;
    while parent != null && parent.color == Red
      invariant head.Zip(p, t) && RedSpot(p, t, h) && TopOf(t) == elm && parent == Owner(p)
      invariant InOrder(Plug(p, t)) == InOrder(Plug(p0, t0))
      decreases Length(p)
    {
      SideOf(head, p, t);
      ShapeOfRedSpot(p, t, h);
      var gparent := parent.parent;
      ParentSide(head, p, t);
      var d := if parent == gparent.left then Left else Right;
      var tmp := gparent.Child(Other(d));
      if tmp != null && tmp.color == Red {
        elm, p, t := UncleRed(head, parent, gparent, tmp, p, t, h);
        h := h + 1;
      } else {
        elm, p, t := UncleBlack(head, d, elm, parent, gparent, p, t, h);
      }
      parent := elm.parent;
    }
    t := BlackRoot(head, p, t, h);
  }

  /** What the loop reads around the grandparent. */
  lemma ParentSide(head: Head, p: Path, t: Tree)
    requires head.Zip(p, t) && p.Step? && p.up.Step?
    ensures p.up.n.left == p.n <==> p.up.d == Left
    ensures p.up.n.Child(Other(p.up.d)) == TopOf(p.up.sib)
    ensures p.up.sib.Fork? ==> p.up.sib.n.color == p.up.sib.color
  {
    head.Up(p.up, p.d, t, p.n, p.color, p.sib);
    SideOf(head, p.up, Mk(p.d, t, p.n, p.color, p.sib));
  }

  /** RB_COLOR(rbh_root) = RB_BLACK ends the fix-up. */
  method BlackRoot(head: Head, ghost p: Path, ghost t: Tree, ghost h: nat) returns (ghost u: Tree)
    requires head.Zip(p, t) && RedSpot(p, t, h) && (p.Step? ==> p.n.color == Black)
    modifies head.nodes
    ensures head.Zip(Top, u) && RedBlack(u)
    ensures InOrder(u) == InOrder(Plug(p, t))
  {
    RootOfPlug(p, t);
    OntoTop(p);
    head.ZoomOut(p, Top, t);
    ghost var w := Plug(p, t);
    head.Paint(head.root, Black, Top, w.left, w.color, w.right);
    u := w.(color := Black);
    if p.Top? {
      assert Balanced(u, h + 1);
    } else {
      PlugRedBlack(p, t, h);
    }
  }

  // Insertion.

  /** The place where key belongs: everything before it is smaller, after it greater. */
  ghost predicate Between(p: Path, key: int) {
    && (forall i :: 0 <= i < |Before(p)| ==> Before(p)[i].key < key)
    && (forall i :: 0 <= i < |After(p)| ==> key < After(p)[i].key)
  }

  lemma BetweenDown(p: Path, d: Side, near: Tree, n: Node, c: Color, far: Tree, key: int)
    requires Between(p, key) && Sorted(Before(p) + InOrder(Mk(d, near, n, c, far)) + After(p))
    requires if d == Left then key < n.key else n.key < key
    ensures Between(Step(d, n, c, far, p), key)
  {
    var x := Step(d, n, c, far, p);
    StepOrder(x, near);
    Bounds(Before(x), InOrder(near), After(x), key);
    assert d == Left ==> After(x)[0] == n;
    assert d == Right ==> Before(x)[|Before(x)| - 1] == n;
  }

  /** One step down from a node, to side d. */
  lemma StepDown(head: Head, p: Path, t: Tree, d: Side, key: int) returns (q: Path, u: Tree)
    requires head.Valid() && Plug(p, t) == head.tree && head.Zip(p, t) && Between(p, key)
    requires t.Fork? && if d == Left then key < t.n.key else t.n.key < key
    ensures q == Step(d, t.n, t.color, if d == Left then t.right else t.left, p)
    ensures u == if d == Left then t.left else t.right
    ensures t.n.Child(d) == TopOf(u)
    ensures Plug(q, u) == head.tree && head.Zip(q, u) && Between(q, key)
  {
    u := if d == Left then t.left else t.right;
    var far := if d == Left then t.right else t.left;
    q := Step(d, t.n, t.color, far, p);
    PlugOrder(p, t);
    BetweenDown(p, d, u, t.n, t.color, far, key);
    head.Down(p, d, u, t.n, t.color, far);
  }

  lemma StartDown(head: Head, key: int)
    requires head.Valid()
    ensures Plug(Top, head.tree) == head.tree && head.Zip(Top, head.tree) && Between(Top, key)
    ensures head.root == TopOf(head.tree)
  {}

  /** The descent of RB_INSERT and RB_FIND: to the element with this key, or
      to the empty place where it belongs. */
  method Descend(head: Head, key: int) returns (tmp: Node?, parent: Node?, left: bool, ghost p: Path, ghost t: Tree)
    requires head.Valid()
    ensures Plug(p, t) == head.tree && head.Zip(p, t) && Between(p, key)
    ensures tmp == TopOf(t) && parent == Owner(p) && (p.Step? ==> left == (p.d == Left))
    ensures tmp != null ==> tmp.key == key
  {
    hide Between, Plug, RepPath, PathApart;
    tmp, parent, left := head.root, null, false;
    p, t := Top, head.tree;
    StartDown(head, key);
    while tmp != null && tmp.key != key
      invariant Plug(p, t) == head.tree && head.Zip(p, t) && Between(p, key)
      invariant tmp == TopOf(t) && parent == Owner(p) && (p.Step? ==> left == (p.d == Left))
      decreases t
    {
      parent := tmp;
      left := key < tmp.key;
      p, t := StepDown(head, p, t, if left then Left else Right, key);
      tmp := if left then parent.left else parent.right;
    }
  }

  /** RB_INSERT: null when elm went in, the element that already has its key otherwise. */
  method Insert(head: Head, elm: Node) returns (found: Node?)
    requires head.Valid() && elm !in head.nodes
    modifies head, head.nodes, elm
    ensures head.Valid()
    ensures found == null <==> (forall n | n in old(head.nodes) :: n.key != elm.key)
    ensures found == null ==> head.nodes == old(head.nodes) + {elm}
    ensures found != null ==> head.nodes == old(head.nodes) && found in head.nodes && found.key == elm.key
    ensures found != null ==> unchanged(head, head.nodes, elm)
  {
    hide Between, Plug, RepPath, PathApart, RedBlack, Rep, RootOf, InOrder;
    var tmp, parent, left, p, t := Descend(head, elm.key);
    if tmp != null {
      assert tmp in Nodes(t);
      return tmp;
    }
    NoneHere(head, p, elm.key);
    GrowAt(head, elm, parent, left, p);
    return null;
  }

  /** The second half of RB_INSERT: elm goes to the empty place at the end of p. */
  method GrowAt(head: Head, elm: Node, parent: Node?, left: bool, ghost p: Path)
    requires head.Valid() && elm !in head.nodes
    requires Plug(p, Leaf) == head.tree && head.Zip(p, Leaf) && Between(p, elm.key)
    requires parent == Owner(p) && (p.Step? ==> left == (p.d == Left))
    modifies head, head.nodes, elm
    ensures head.Valid() && head.nodes == old(head.nodes) + {elm}
  {
    hide Between, Plug, RepPath, PathApart, RedBlack, Rep, RootOf, InOrder;
    ghost var u := Fork(Leaf, elm, Red, Leaf);
    ghost var h := EmptySpot(head, p);
    GrowSorted(head.tree, p, elm);
    head.Link(elm, parent, left, p);
    ghost var t := InsertColor(head, elm, p, u, h);
    head.tree := t;
  }

  lemma GrowSorted(t: Tree, p: Path, elm: Node)
    requires Sorted(InOrder(t)) && Plug(p, Leaf) == t && Between(p, elm.key)
    ensures Sorted(InOrder(Plug(p, Fork(Leaf, elm, Red, Leaf))))
  {
    hide InOrder, Plug, Before, After, Sorted;
    var u := Fork(Leaf, elm, Red, Leaf);
    PlugOrder(p, u);
    PlugOrder(p, Leaf);
    SmallOrders(elm);
    assert Before(p) + [] + After(p) == Before(p) + After(p);
    PlaceSorted(Before(p), elm, After(p));
  }

  lemma SmallOrders(elm: Node)
    ensures InOrder(Leaf) == [] && InOrder(Fork(Leaf, elm, Red, Leaf)) == [elm]
  {}

  lemma EmptySpot(head: Head, p: Path) returns (h: nat)
    requires head.Valid() && Plug(p, Leaf) == head.tree
    ensures forall n: Node :: RedSpot(p, Fork(Leaf, n, Red, Leaf), h)
  {
    h := PathOfRedBlack(p, Leaf);
    assert Balanced(Leaf, h);
  }

  lemma NoneHere(head: Head, p: Path, key: int)
    requires head.Valid() && Plug(p, Leaf) == head.tree && Between(p, key)
    ensures forall n | n in head.nodes :: n.key != key
  {
    PlugOrder(p, Leaf);
    forall n | n in head.nodes
      ensures n.key != key
    {
      NodesAreInOrder(head.tree, n);
    }
  }
}
