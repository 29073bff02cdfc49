/** The linked nodes of a red-black tree of tree.h: what it means for the heap to hold a tree
    at the end of a path, and the elementary changes (paint, rotate, cut out). */
module RbLinks {
  import opened Powers
  import opened RbShape

  /** The nodes of t carry t's links and colors, and parent above its root. */
  ghost predicate Rep(t: Tree, parent: Node?)
    reads Nodes(t)
  {
    match t
    case Leaf => true
    case Fork(l, n, c, r) =>
      && n.parent == parent && n.color == c && n.left == TopOf(l) && n.right == TopOf(r)
      && Rep(l, n) && Rep(r, n)
  }

  /** The nodes above a place carry the path's links and colors, and focus below. */
  ghost predicate RepPath(p: Path, focus: Node?)
    reads PathNodes(p)
  {
    match p
    case Top => true
    case Step(d, n, c, sib, up) =>
      && n.parent == Owner(up) && n.color == c && n.Child(d) == focus && n.Child(Other(d)) == TopOf(sib)
      && Rep(sib, n) && RepPath(up, n)
  }

  /** No node is in two places. */
  ghost predicate Disjoint(p: Path, t: Tree) {
    Apart(t) && PathApart(p) && Nodes(t) !! PathNodes(p)
  }

  lemma {:induction false} SizeIsCount(t: Tree)
    requires Apart(t)
    ensures Size(t) == |Nodes(t)|
  {
    if t.Fork? {
      SizeIsCount(t.left);
      SizeIsCount(t.right);
      assert Nodes(t) == (Nodes(t.left) + Nodes(t.right)) + {t.n};
    }
  }

  lemma MkRep(d: Side, near: Tree, n: Node, c: Color, far: Tree, parent: Node?)
    ensures Rep(Mk(d, near, n, c, far), parent) <==>
      && n.parent == parent && n.color == c && n.Child(d) == TopOf(near) && n.Child(Other(d)) == TopOf(far)
      && Rep(near, n) && Rep(far, n)
    ensures TopOf(Mk(d, near, n, c, far)) == n
  {}

  lemma DisjointStep(p: Path, d: Side, near: Tree, n: Node, c: Color, far: Tree)
    ensures Disjoint(p, Mk(d, near, n, c, far)) <==> Disjoint(Step(d, n, c, far, p), near)
    ensures Nodes(Mk(d, near, n, c, far)) + PathNodes(p) == Nodes(near) + PathNodes(Step(d, n, c, far, p))
  {}

  /** The node whose links lead to the place a path ends in. */
  ghost function OwnerSet(p: Path): (s: set<Node>)
    ensures s <= PathNodes(p)
  {
    if p.Top? then {} else {p.n}
  }

  ghost function TopSet(t: Tree): (s: set<Node>)
    ensures s <= Nodes(t)
    ensures t.Fork? ==> s == {t.n}
  {
    if t.Leaf? then {} else {t.n}
  }

  /** if (child) RB_PARENT(child) = parent. */
  method SetParent(child: Node?, parent: Node?, ghost t: Tree, ghost was: Node?)
    requires child == TopOf(t) && Apart(t) && Rep(t, was)
    modifies TopSet(t)
    ensures Rep(t, parent)
  {
    if child != null { child.parent := parent; }
  }

  /** struct name: RB_HEAD. */
  class Head {
    var root: Node?
    ghost var nodes: set<Node>
    ghost var tree: Tree

    constructor ()
      ensures root == null && nodes == {} && tree == Leaf
      ensures Valid()
    {
      root, nodes, tree := null, {}, Leaf;
      assert Balanced(Leaf, 0);
    }

    /** The heap holds t at the end of path p, and nothing else hangs on the root. */
    ghost predicate Zip(p: Path, t: Tree)
      reads this, PathNodes(p), Nodes(t)
    {
      && root == RootOf(p, TopOf(t))
      && Rep(t, Owner(p)) && RepPath(p, TopOf(t))
      && Disjoint(p, t) && PathNodes(p) + Nodes(t) == nodes
    }

    /** A search tree in the red-black form is linked below the root. */
    ghost predicate Valid()
      reads this, Nodes(tree)
    {
      Zip(Top, tree) && RedBlack(tree) && Sorted(InOrder(tree))
    }

    /** The height promised for RB_INSERT and RB_REMOVE: at most 2 lg(n + 1) for n elements. */
    lemma HeightOfTree()
      requires Valid()
      ensures Pow2(Height(tree)) <= (|nodes| + 1) * (|nodes| + 1)
    {
      SizeIsCount(tree);
      assert nodes == Nodes(tree);
      HeightIsLogarithmic(tree);
    }

    lemma Down(p: Path, d: Side, near: Tree, n: Node, c: Color, far: Tree)
      requires Zip(p, Mk(d, near, n, c, far))
      ensures Zip(Step(d, n, c, far, p), near)
    {
      DisjointStep(p, d, near, n, c, far);
    }

    lemma Up(p: Path, d: Side, near: Tree, n: Node, c: Color, far: Tree)
      requires Zip(Step(d, n, c, far, p), near)
      ensures Zip(p, Mk(d, near, n, c, far))
    {
      DisjointStep(p, d, near, n, c, far);
    }

    /** RB_COLOR(n) = c. */
    method Paint(n: Node, c: Color, ghost p: Path, ghost l: Tree, ghost c0: Color, ghost r: Tree)
      requires Zip(p, Fork(l, n, c0, r))
      modifies nodes
      ensures Zip(p, Fork(l, n, c, r))
    {
      assert n in nodes;
      n.color := c;
    }

    /** What pointed to elm from above now points to n: the parent's child, or the root. */
    method Redirect(elm: Node, n: Node?, parent: Node?, ghost p: Path)
      requires RepPath(p, elm) && root == RootOf(p, elm) && PathApart(p) && parent == Owner(p)
      requires elm !in PathNodes(p)
      modifies this`root, OwnerSet(p)
      ensures RepPath(p, n) && root == RootOf(p, n)
      ensures forall m | m in OwnerSet(p) :: m.color == old(m.color) && m.parent == old(m.parent)
    {
      if parent != null {
        if parent.left == elm { parent.left := n; } else { parent.right := n; }
        assert p.up.Step? ==> p.n !in Nodes(p.up.sib);
      } else {
        root := n;
      }
    }

    /** The pieces of a rotation: two linked nodes, three subtrees and the path above. */
    ghost predicate Pieces(p: Path, a: Tree, elm: Node, b: Tree, mid: Node, g: Tree)
      reads this`nodes
    {
      && Apart(a) && Apart(b) && Apart(g) && PathApart(p) && elm != mid
      && elm !in Nodes(a) + Nodes(b) + Nodes(g) + PathNodes(p)
      && mid !in Nodes(a) + Nodes(b) + Nodes(g) + PathNodes(p)
      && Nodes(a) !! Nodes(b) && Nodes(a) !! Nodes(g) && Nodes(b) !! Nodes(g)
      && PathNodes(p) !! Nodes(a) + Nodes(b) + Nodes(g)
      && PathNodes(p) + Nodes(a) + Nodes(b) + Nodes(g) + {elm, mid} == nodes
    }

    method Swing(d: Side, elm: Node, tmp: Node, ghost p: Path, ghost a: Tree, ghost b: Tree, ghost g: Tree)
      requires Pieces(p, a, elm, b, tmp, g)
      requires elm.Child(d) == TopOf(a) && elm.Child(Other(d)) == tmp
      requires tmp.Child(d) == TopOf(b) && tmp.Child(Other(d)) == TopOf(g)
      requires Rep(a, elm) && Rep(b, tmp) && Rep(g, tmp) && RepPath(p, elm)
      modifies elm, TopSet(b)
      ensures elm.Child(d) == TopOf(a) && elm.Child(Other(d)) == TopOf(b)
      ensures elm.color == old(elm.color) && elm.parent == old(elm.parent)
      ensures Rep(a, elm) && Rep(b, elm) && Rep(g, tmp) && RepPath(p, elm)
    {
      hide Rep, RepPath, Nodes, PathNodes, Apart, PathApart;
      var inner := tmp.Child(d);
      elm.SetChild(Other(d), inner);
      assert Rep(b, tmp);
      assert elm !in TopSet(b) && TopSet(b) !! Nodes(a) && TopSet(b) !! Nodes(g) && TopSet(b) !! PathNodes(p);
      SetParent(inner, elm, b, tmp);
    }

    /** The second half of a rotation: tmp takes elm's place above, elm goes below it. */
    method Hoist(d: Side, elm: Node, tmp: Node, ghost p: Path, ghost a: Tree, ghost b: Tree, ghost g: Tree)
      requires Pieces(p, a, elm, b, tmp, g)
      requires elm.parent == Owner(p) && tmp.Child(Other(d)) == TopOf(g) && root == RootOf(p, elm)
      requires Rep(a, elm) && Rep(b, elm) && Rep(g, tmp) && RepPath(p, elm)
      modifies this`root, OwnerSet(p), elm, tmp
      ensures elm.parent == tmp && tmp.parent == Owner(p) && root == RootOf(p, tmp)
      ensures elm.Child(d) == old(elm.Child(d)) && elm.Child(Other(d)) == old(elm.Child(Other(d)))
      ensures tmp.Child(d) == elm && tmp.Child(Other(d)) == TopOf(g)
      ensures elm.color == old(elm.color) && tmp.color == old(tmp.color)
      ensures Rep(a, elm) && Rep(b, elm) && Rep(g, tmp) && RepPath(p, tmp)
    {
      hide Rep, RepPath, Nodes, PathNodes, Apart, PathApart, RootOf;
      tmp.parent := elm.parent;
      assert OwnerSet(p) !! Nodes(a) && OwnerSet(p) !! Nodes(b) && OwnerSet(p) !! Nodes(g);
      assert elm !in OwnerSet(p) && tmp !in OwnerSet(p);
      Redirect(elm, tmp, elm.parent, p);
      elm.parent := tmp;
      tmp.SetChild(d, elm);
    }

    /** The rotated tree is made of the same pieces. */
    lemma RotatePieces(d: Side, elm: Node, p: Path, a: Tree, c1: Color, b: Tree, mid: Node, c2: Color, g: Tree)
      requires Disjoint(p, Mk(d, a, elm, c1, Mk(d, b, mid, c2, g)))
      requires PathNodes(p) + Nodes(Mk(d, a, elm, c1, Mk(d, b, mid, c2, g))) == nodes
      ensures Pieces(p, a, elm, b, mid, g)
      ensures Disjoint(p, Mk(d, Mk(d, a, elm, c1, b), mid, c2, g))
      ensures PathNodes(p) + Nodes(Mk(d, Mk(d, a, elm, c1, b), mid, c2, g)) == nodes
    {
      hide Mk, Apart, PathApart, Nodes, PathNodes;
      MkApart(d, a, elm, c1, Mk(d, b, mid, c2, g));
      MkApart(d, b, mid, c2, g);
      MkApart(d, Mk(d, a, elm, c1, b), mid, c2, g);
      MkApart(d, a, elm, c1, b);
    }

    /** RB_ROTATE_LEFT(elm) when d is Left, RB_ROTATE_RIGHT when it is Right. */
    method Rotate(d: Side, elm: Node, ghost p: Path, ghost a: Tree, ghost c1: Color,
                  ghost b: Tree, ghost mid: Node, ghost c2: Color, ghost g: Tree) returns (tmp: Node)
      requires Zip(p, Mk(d, a, elm, c1, Mk(d, b, mid, c2, g)))
      modifies this`root, nodes
      ensures tmp == mid
      ensures Zip(p, Mk(d, Mk(d, a, elm, c1, b), mid, c2, g))
    {
      hide Mk, Rep, RepPath, Disjoint, Apart, PathApart, Nodes, PathNodes;
      MkRep(d, a, elm, c1, Mk(d, b, mid, c2, g), Owner(p));
      MkRep(d, b, mid, c2, g, elm);
      RotatePieces(d, elm, p, a, c1, b, mid, c2, g);
      tmp := elm.Child(Other(d));
      Swing(d, elm, tmp, p, a, b, g);
      Hoist(d, elm, tmp, p, a, b, g);
      MkRep(d, a, elm, c1, b, mid);
      MkRep(d, Mk(d, a, elm, c1, b), mid, c2, g, Owner(p));
    }

    /** RB_COLOR(n) = c where n is a child of the focus. */
    method PaintChild(n: Node, c: Color, ghost p: Path, ghost d: Side, ghost l: Tree, ghost c0: Color, ghost r: Tree,
                      ghost m: Node, ghost cm: Color, ghost far: Tree)
      requires Zip(p, Mk(d, Fork(l, n, c0, r), m, cm, far))
      modifies nodes
      ensures Zip(p, Mk(d, Fork(l, n, c, r), m, cm, far))
    {
      hide Mk, Zip;
      Down(p, d, Fork(l, n, c0, r), m, cm, far);
      Paint(n, c, Step(d, m, cm, far, p), l, c0, r);
      Up(p, d, Fork(l, n, c, r), m, cm, far);
    }

    /** A new red leaf below parent, or at the root: RB_SET and the link down. */
    method Link(elm: Node, parent: Node?, left: bool, ghost p: Path)
      requires Zip(p, Leaf) && elm !in nodes
      requires parent == Owner(p) && (p.Step? ==> left == (p.d == Left))
      modifies this`root, this`nodes, nodes, elm
      ensures nodes == old(nodes) + {elm}
      ensures Zip(p, Fork(Leaf, elm, Red, Leaf))
    {
      elm.parent, elm.left, elm.right, elm.color := parent, null, null, Red;
      assert RepPath(p, null);
      if parent != null {
        LinkBelow(elm, parent, left, p);
      } else {
        root := elm;
      }
      nodes := nodes + {elm};
    }

    method LinkBelow(elm: Node, parent: Node, left: bool, ghost p: Path)
      requires p.Step? && RepPath(p, null) && PathApart(p) && p.n == parent && left == (p.d == Left)
      requires elm !in PathNodes(p)
      modifies parent
      ensures RepPath(p, elm)
    {
      assert p.up.Step? ==> p.n !in Nodes(p.up.sib);
      if left { parent.left := elm; } else { parent.right := elm; }
    }

    /** elm leaves the tree; its only subtree t (perhaps none) moves up. */
    method CutOut(elm: Node, child: Node?, ghost p: Path, ghost c: Color, ghost d: Side, ghost t: Tree)
      requires Zip(p, Mk(d, Leaf, elm, c, t)) && child == TopOf(t)
      modifies this`root, this`nodes, nodes - {elm}
      ensures nodes == old(nodes) - {elm}
      ensures Zip(p, t)
    {
      hide Mk, Rep, RepPath, Nodes, PathNodes, Apart, PathApart;
      MkRep(d, Leaf, elm, c, t, Owner(p));
      MkApart(d, Leaf, elm, c, t);
      assert TopSet(t) !! PathNodes(p) && OwnerSet(p) !! Nodes(t) && elm !in TopSet(t) && elm !in OwnerSet(p);
      var parent := elm.parent;
      SetParent(child, parent, t, elm);
      Redirect(elm, child, parent, p);
      nodes := nodes - {elm};
    }

    /** elm takes over old's links and color, and everything around it points to elm. */
    method TakePlace(was: Node, elm: Node, ghost p: Path, ghost l: Tree, ghost c: Color, ghost r: Tree)
      requires Zip(p, Fork(l, was, c, r)) && elm !in nodes && l.Fork?
      modifies this`root, this`nodes, nodes - {was}, elm
      ensures nodes == old(nodes) - {was} + {elm}
      ensures Zip(p, Fork(l, elm, c, r))
    {
      hide RepPath, Nodes, PathNodes, Apart, PathApart, Rep;
      MkRep(Left, l, was, c, r, Owner(p));
      MkApart(Left, l, was, c, r);
      MkApart(Left, l, elm, c, r);
      AroundFocus(p, l, r);
      elm.parent, elm.left, elm.right, elm.color := was.parent, was.left, was.right, was.color;
      Redirect(was, elm, elm.parent, p);
      Adopt(was, elm, p, l, r);
      nodes := nodes - {was} + {elm};
      MkRep(Left, l, elm, c, r, Owner(p));
    }

    /** Both children of elm get elm as their parent. */
    method Adopt(was: Node, elm: Node, ghost p: Path, ghost l: Tree, ghost r: Tree)
      requires Nodes(l) !! Nodes(r) && PathNodes(p) !! Nodes(l) + Nodes(r) && Apart(l) && Apart(r)
      requires elm !in Nodes(l) && elm !in Nodes(r) && Nodes(l) + Nodes(r) + PathNodes(p) <= nodes
      requires elm.left == TopOf(l) && elm.right == TopOf(r) && Rep(l, was) && Rep(r, was) && RepPath(p, elm)
      modifies TopSet(l), TopSet(r)
      ensures Rep(l, elm) && Rep(r, elm) && RepPath(p, elm)
    {
      hide RepPath, Nodes, PathNodes, Apart, PathApart, Rep;
      AroundFocus(p, l, r);
      SetParent(elm.left, elm, l, was);
      SetParent(elm.right, elm, r, was);
    }

    lemma AroundFocus(p: Path, l: Tree, r: Tree)
      requires Nodes(l) !! Nodes(r) && PathNodes(p) !! Nodes(l) + Nodes(r)
      ensures TopSet(l) !! TopSet(r)
      ensures TopSet(l) + TopSet(r) !! PathNodes(p) && TopSet(l) !! Nodes(r) && TopSet(r) !! Nodes(l)
      ensures OwnerSet(p) !! Nodes(l) + Nodes(r)
    {}

    /** The whole tree is linked when a part of it is linked at the end of its path. */
    lemma {:induction false} ZoomOut(q: Path, base: Path, t: Tree)
      requires Zip(Onto(q, base), t)
      ensures Zip(base, Plug(q, t))
    {
      if q.Step? {
        Up(Onto(q.up, base), q.d, t, q.n, q.color, q.sib);
        ZoomOut(q.up, base, Mk(q.d, t, q.n, q.color, q.sib));
      }
    }

    lemma {:induction false} ZoomIn(q: Path, base: Path, t: Tree)
      requires Zip(base, Plug(q, t))
      ensures Zip(Onto(q, base), t)
    {
      if q.Step? {
        ZoomIn(q.up, base, Mk(q.d, t, q.n, q.color, q.sib));
        Down(Onto(q.up, base), q.d, t, q.n, q.color, q.sib);
      }
    }
  }
}
