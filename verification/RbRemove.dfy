/** RB_REMOVE and RB_REMOVE_COLOR of tree.h. */
module RbRemove {
  import opened RbShape
  import opened RbLinks
  import opened RbInsert

  // The rearrangements of the fix-up loop, on the heap.

  /** The focus moves across to the other child of the node above. */
  lemma Across(head: Head, d: Side, parent: Node, c: Color, sib: Tree, up: Path, t: Tree)
    requires head.Zip(Step(d, parent, c, sib, up), t)
    ensures head.Zip(Step(Other(d), parent, c, t, up), sib)
  {
    hide Mk, head.Zip;
    head.Up(up, d, t, parent, c, sib);
    Mirror(d, t, parent, c, sib);
    head.Down(up, Other(d), sib, parent, c, t);
  }

  /** The red sibling case: a rotation gives the focus a black sibling. */
  method TurnSibling(head: Head, d: Side, parent: Node, sib: Node, ghost x: Tree, ghost y: Tree, ghost up: Path,
                     ghost t: Tree)
    requires head.Zip(Step(d, parent, Black, Mk(d, x, sib, Red, y), up), t)
    modifies head`root, head.nodes
    ensures head.Zip(Step(d, parent, Red, x, Step(d, sib, Black, y, up)), t)
  {
    hide Mk, head.Zip;
    head.Up(up, d, t, parent, Black, Mk(d, x, sib, Red, y));
    Mirror(d, t, parent, Black, Mk(d, x, sib, Red, y));
    BlackRed(head, sib, parent, d, Other(d), y, t, up, x);
    Mirror(d, t, parent, Red, Mk(d, x, sib, Black, y));
    var tmp := head.Rotate(d, parent, up, t, Red, x, sib, Black, y);
    head.Down(up, d, Mk(d, t, parent, Red, x), sib, Black, y);
    head.Down(Step(d, sib, Black, y, up), d, t, parent, Red, x);
  }

  /** The case of two black nephews: the sibling becomes red. */
  method RedSibling(head: Head, d: Side, parent: Node, tmp: Node, ghost c: Color, ghost x: Tree, ghost y: Tree,
                    ghost up: Path, ghost t: Tree)
    requires head.Zip(Step(d, parent, c, Fork(x, tmp, Black, y), up), t)
    modifies head.nodes
    ensures head.Zip(up, Mk(d, t, parent, c, Fork(x, tmp, Red, y)))
  {
    hide Mk, head.Zip;
    head.Up(up, d, t, parent, c, Fork(x, tmp, Black, y));
    Mirror(d, t, parent, c, Fork(x, tmp, Black, y));
    head.PaintChild(tmp, Red, up, Other(d), x, Black, y, parent, c, t);
    Mirror(d, t, parent, c, Fork(x, tmp, Red, y));
  }

  /** The red inner nephew rises above the sibling; p is the way to the sibling. */
  method TurnNephew(head: Head, d: Side, tmp: Node, nephew: Node, ghost a: Tree, ghost b: Tree, ghost y: Tree,
                    ghost p: Path)
    requires head.Zip(p, Mk(d, Mk(d, a, nephew, Red, b), tmp, Black, y))
    modifies head`root, head.nodes
    ensures head.Zip(p, Mk(d, a, nephew, Black, Mk(d, b, tmp, Red, y)))
  {
    hide Mk, head.Zip;
    BlackRed(head, nephew, tmp, d, d, b, y, p, a);
    Mirror(d, Mk(d, a, nephew, Black, b), tmp, Red, y);
    Mirror(d, a, nephew, Black, b);
    var top := head.Rotate(Other(d), tmp, p, y, Red, b, nephew, Black, a);
    Mirror(d, a, nephew, Black, Mk(d, b, tmp, Red, y));
    Mirror(d, b, tmp, Red, y);
  }

  /** The last rotation: the sibling takes parent's place and color over two blacks. */
  method TurnLast(head: Head, d: Side, parent: Node, tmp: Node, outer: Node, ghost c: Color, ghost x: Tree,
                  ghost y: Tree, ghost up: Path, ghost t: Tree)
    requires y.Fork? && y.n == outer
    requires head.Zip(Step(Other(d), parent, c, t, up), Mk(d, x, tmp, Black, y))
    requires parent.color == c
    modifies head`root, head.nodes
    ensures head.Zip(up, Mk(d, Mk(d, t, parent, Black, x), tmp, c, y.(color := Black)))
  {
    hide Mk, head.Zip;
    ghost var p, z := Step(Other(d), parent, c, t, up), y.(color := Black);
    PaintTop(head, tmp, parent.color, p, d, x, Black, y);
    Mirror(d, x, tmp, c, y);
    head.PaintChild(outer, Black, p, Other(d), y.left, y.color, y.right, tmp, c, x);
    Mirror(d, x, tmp, c, z);
    head.Up(up, Other(d), Mk(d, x, tmp, c, z), parent, c, t);
    Mirror(d, t, parent, c, Mk(d, x, tmp, c, z));
    PaintTop(head, parent, Black, up, d, t, c, Mk(d, x, tmp, c, z));
    var top := head.Rotate(d, parent, up, t, Black, x, tmp, c, z);
  }

  method PaintTop(head: Head, n: Node, c: Color, ghost p: Path, ghost d: Side, ghost near: Tree, ghost c0: Color,
                  ghost far: Tree)
    requires head.Zip(p, Mk(d, near, n, c0, far))
    modifies head.nodes
    ensures head.Zip(p, Mk(d, near, n, c, far))
  {
    hide head.Zip;
    ghost var g := Mk(d, near, n, c0, far);
    head.Paint(n, c, p, g.left, c0, g.right);
  }

  // What they keep, on values.

  /** A tree one black node short of its place; only its root may be red below red. */
  ghost predicate Deficit(p: Path, t: Tree, h: nat) {
    && Balanced(t, h) && PathOk(p, h + 1)
    && (t.Fork? ==> NoRedRed(t.left) && NoRedRed(t.right) && (t.color == Black ==> NoRedRed(t)))
  }

  lemma SiblingExists(p: Path, t: Tree, h: nat)
    requires Deficit(p, t, h) && p.Step?
    ensures p.sib.Fork? && (p.sib.color == Red ==> p.color == Black)
  {}

  lemma TurnSiblingKeeps(d: Side, parent: Node, sib: Node, x: Tree, y: Tree, up: Path, t: Tree, h: nat)
    requires Deficit(Step(d, parent, Black, Mk(d, x, sib, Red, y), up), t, h)
    ensures Deficit(Step(d, parent, Red, x, Step(d, sib, Black, y, up)), t, h)
    ensures x.Fork? && x.color == Black
  {
    assert Balanced(x, h + 1) && Balanced(y, h + 1);
    assert PathOk(Step(d, sib, Black, y, up), h + 1);
  }

  lemma RedSiblingKeeps(d: Side, parent: Node, tmp: Node, c: Color, x: Tree, y: Tree, up: Path, t: Tree, h: nat)
    requires Deficit(Step(d, parent, c, Fork(x, tmp, Black, y), up), t, h)
    requires !IsRed(t) && !IsRed(x) && !IsRed(y)
    ensures Deficit(up, Mk(d, t, parent, c, Fork(x, tmp, Red, y)), if c == Red then h else h + 1)
  {
    assert Balanced(x, h) && Balanced(y, h);
    assert NoRedRed(Fork(x, tmp, Red, y));
  }

  lemma TurnNephewKeeps(d: Side, tmp: Node, nephew: Node, a: Tree, b: Tree, y: Tree, h: nat)
    requires Balanced(Mk(d, Mk(d, a, nephew, Red, b), tmp, Black, y), h)
    requires NoRedRed(Mk(d, Mk(d, a, nephew, Red, b), tmp, Black, y)) && !IsRed(y)
    ensures Balanced(Mk(d, a, nephew, Black, Mk(d, b, tmp, Red, y)), h)
    ensures NoRedRed(Mk(d, a, nephew, Black, Mk(d, b, tmp, Red, y)))
  {
    assert Balanced(a, h - 1) && Balanced(b, h - 1);
    assert NoRedRed(Mk(d, b, tmp, Red, y));
  }

  lemma TurnLastKeeps(d: Side, parent: Node, tmp: Node, c: Color, x: Tree, y: Tree, up: Path, t: Tree, h: nat)
    requires Deficit(Step(d, parent, c, Mk(d, x, tmp, Black, y), up), t, h)
    requires !IsRed(t) && IsRed(y)
    ensures RedBlack(Plug(up, Mk(d, Mk(d, t, parent, Black, x), tmp, c, y.(color := Black))))
  {
    assert Balanced(x, h) && Balanced(y, h);
    var top := Mk(d, Mk(d, t, parent, Black, x), tmp, c, y.(color := Black));
    assert Balanced(Mk(d, t, parent, Black, x), h + 1);
    assert NoRedRed(x) && NoRedRed(y) && NoRedRed(Mk(d, t, parent, Black, x));
    PlugRedBlack(up, top, if c == Red then h + 1 else h + 2);
  }

  lemma PaintedBlack(p: Path, t: Tree, h: nat)
    requires Deficit(p, t, h) && (IsRed(t) || p.Top?)
    ensures RedBlack(Plug(p, if t.Fork? then t.(color := Black) else t))
  {
    var u := if t.Fork? then t.(color := Black) else t;
    PlugRedBlack(p, u, if IsRed(t) then h + 1 else h);
  }

  // The order of the elements.

  lemma TurnSiblingOrder(d: Side, parent: Node, sib: Node, x: Tree, y: Tree, up: Path, t: Tree)
    ensures InOrder(Plug(Step(d, parent, Red, x, Step(d, sib, Black, y, up)), t)) ==
      InOrder(Plug(Step(d, parent, Black, Mk(d, x, sib, Red, y), up), t))
  {
    RotateOrder(d, t, parent, Red, x, sib, Black, y);
    SameOrder(up, Mk(d, Mk(d, t, parent, Red, x), sib, Black, y), Mk(d, t, parent, Black, Mk(d, x, sib, Red, y)));
  }

  lemma RedSiblingOrder(d: Side, parent: Node, tmp: Node, c: Color, x: Tree, y: Tree, up: Path, t: Tree)
    ensures InOrder(Plug(up, Mk(d, t, parent, c, Fork(x, tmp, Red, y)))) ==
      InOrder(Plug(Step(d, parent, c, Fork(x, tmp, Black, y), up), t))
  {
    SameOrder(up, Mk(d, t, parent, c, Fork(x, tmp, Red, y)), Mk(d, t, parent, c, Fork(x, tmp, Black, y)));
  }

  lemma TurnNephewOrder(d: Side, tmp: Node, nephew: Node, a: Tree, b: Tree, y: Tree)
    ensures InOrder(Mk(d, a, nephew, Black, Mk(d, b, tmp, Red, y))) ==
      InOrder(Mk(d, Mk(d, a, nephew, Red, b), tmp, Black, y))
  {
    RotateOrder(d, a, nephew, Black, b, tmp, Red, y);
  }

  lemma TurnLastOrder(d: Side, parent: Node, tmp: Node, c: Color, x: Tree, y: Tree, up: Path, t: Tree)
    requires y.Fork?
    ensures InOrder(Plug(up, Mk(d, Mk(d, t, parent, Black, x), tmp, c, y.(color := Black)))) ==
      InOrder(Plug(Step(d, parent, c, Mk(d, x, tmp, Black, y), up), t))
  {
    RotateOrder(d, t, parent, Black, x, tmp, c, y.(color := Black));
    assert InOrder(Mk(d, x, tmp, c, y.(color := Black))) == InOrder(Mk(d, x, tmp, Black, y));
    SameOrder(up, Mk(d, Mk(d, t, parent, Black, x), tmp, c, y.(color := Black)),
      Mk(d, t, parent, c, Mk(d, x, tmp, Black, y)));
  }

  // The fix-up loop.

  /** The links the loop reads at the node above the gap. */
  lemma AtGap(head: Head, p: Path, t: Tree)
    requires head.Zip(p, t) && p.Step? && p.sib.Fork?
    ensures p.n.left == TopOf(t) <==> p.d == Left
    ensures p.n.Child(Other(p.d)) == p.sib.n && p.n.color == p.color && p.n.parent == Owner(p.up)
    ensures p.sib.n.color == p.sib.color && p.sib.n.left == TopOf(p.sib.left) && p.sib.n.right == TopOf(p.sib.right)
    ensures p.sib.left.Fork? ==> p.sib.left.n.color == p.sib.left.color
    ensures p.sib.right.Fork? ==> p.sib.right.n.color == p.sib.right.color
    ensures t.Fork? ==> t.n.color == t.color
  {
    assert Rep(p.sib, p.n);
    assert Rep(p.sib.left, p.sib.n) && Rep(p.sib.right, p.sib.n);
  }

  /** Entering a turn: a red sibling is rotated away. */
  method MakeSiblingBlack(head: Head, d: Side, parent: Node, ghost p: Path, ghost t: Tree, ghost h: nat)
      returns (tmp: Node, ghost q: Path)
    requires head.Zip(p, t) && Deficit(p, t, h) && p.Step? && p.n == parent && p.d == d
    modifies head`root, head.nodes
    ensures head.Zip(q, t) && Deficit(q, t, h) && q.Step? && q.n == parent && q.d == d
    ensures q.sib.Fork? && q.sib.color == Black && q.sib.n == tmp
    ensures Length(q) == Length(p) || (Length(q) == Length(p) + 1 && q.color == Red)
    ensures InOrder(Plug(q, t)) == InOrder(Plug(p, t))
  {
    SiblingExists(p, t, h);
    AtGap(head, p, t);
    tmp := parent.Child(Other(d));
    q := p;
    if tmp.color == Red {
      ghost var s := p.sib;
      ghost var x, y := if d == Left then s.left else s.right, if d == Left then s.right else s.left;
      TurnSiblingKeeps(d, parent, tmp, x, y, p.up, t, h);
      TurnSiblingOrder(d, parent, tmp, x, y, p.up, t);
      TurnSibling(head, d, parent, tmp, x, y, p.up, t);
      q := Step(d, parent, Red, x, Step(d, tmp, Black, y, p.up));
      AtGap(head, q, t);
      tmp := parent.Child(Other(d));
    }
  }

  /** The turn when both nephews are black: the gap moves up. */
  method MoveUp(head: Head, d: Side, parent: Node, tmp: Node, ghost p: Path, ghost t: Tree, ghost h: nat)
      returns (elm: Node, above: Node?, ghost u: Tree, ghost k: nat)
    requires head.Zip(p, t) && Deficit(p, t, h) && p.Step? && p.n == parent && p.d == d
    requires p.sib.Fork? && p.sib.color == Black && p.sib.n == tmp
    requires !IsRed(t) && !IsRed(p.sib.left) && !IsRed(p.sib.right)
    modifies head.nodes
    ensures head.Zip(p.up, u) && Deficit(p.up, u, k) && elm == TopOf(u) && above == Owner(p.up)
    ensures u.Fork? && u.color == p.color && InOrder(Plug(p.up, u)) == InOrder(Plug(p, t))
  {
    ghost var x, y := p.sib.left, p.sib.right;
    u := Mk(d, t, parent, p.color, Fork(x, tmp, Red, y));
    k := if p.color == Red then h else h + 1;
    RedSiblingKeeps(d, parent, tmp, p.color, x, y, p.up, t, h);
    RedSiblingOrder(d, parent, tmp, p.color, x, y, p.up, t);
    RedSibling(head, d, parent, tmp, p.color, x, y, p.up, t);
    elm := parent;
    above := elm.parent;
  }

  /** The turn with a red nephew on side d of the sibling only: it takes the sibling's place. */
  method TurnIn(head: Head, d: Side, parent: Node, sib: Node, ghost p: Path, ghost t: Tree, ghost h: nat)
      returns (tmp: Node, ghost q: Path)
    requires head.Zip(p, t) && Deficit(p, t, h) && p.Step? && p.n == parent && p.d == d
    requires p.sib.Fork? && p.sib.color == Black && p.sib.n == sib
    requires IsRed(Toward(d, p.sib)) && !IsRed(Toward(Other(d), p.sib))
    modifies head`root, head.nodes
    ensures head.Zip(q, t) && Deficit(q, t, h) && q == p.(sib := q.sib)
    ensures q.sib.Fork? && q.sib.color == Black && q.sib.n == tmp && IsRed(Toward(Other(d), q.sib))
    ensures InOrder(Plug(q, t)) == InOrder(Plug(p, t))
  {
    ghost var x, y := Toward(d, p.sib), Toward(Other(d), p.sib);
    ghost var a, b := Toward(d, x), Toward(Other(d), x);
    ghost var s := Mk(d, a, x.n, Black, Mk(d, b, sib, Red, y));
    q := p.(sib := s);
    Across(head, d, parent, p.color, p.sib, p.up, t);
    NephewColor(head, p, t);
    TurnInKeeps(p, t, h, sib, x.n, a, b, y);
    var nephew := sib.Child(d);
    TurnNephew(head, d, sib, nephew, a, b, y, Step(Other(d), parent, p.color, t, p.up));
    Across(head, Other(d), parent, p.color, t, p.up, s);
    AtGap(head, q, t);
    tmp := parent.Child(Other(d));
  }

  lemma NephewColor(head: Head, p: Path, t: Tree)
    requires head.Zip(p, t) && p.Step? && p.sib.Fork?
    ensures p.sib.n.Child(p.d) == TopOf(Toward(p.d, p.sib))
    ensures p.sib.n.Child(Other(p.d)) == TopOf(Toward(Other(p.d), p.sib))
  {}

  lemma TurnInKeeps(p: Path, t: Tree, h: nat, sib: Node, nephew: Node, a: Tree, b: Tree, y: Tree)
    requires p.Step? && p.sib == Mk(p.d, Mk(p.d, a, nephew, Red, b), sib, Black, y) && !IsRed(y)
    requires Deficit(p, t, h)
    ensures Deficit(p.(sib := Mk(p.d, a, nephew, Black, Mk(p.d, b, sib, Red, y))), t, h)
    ensures InOrder(Plug(p.(sib := Mk(p.d, a, nephew, Black, Mk(p.d, b, sib, Red, y))), t)) == InOrder(Plug(p, t))
  {
    TurnNephewKeeps(p.d, sib, nephew, a, b, y, h + 1);
    TurnNephewOrder(p.d, sib, nephew, a, b, y);
    var s := Mk(p.d, a, nephew, Black, Mk(p.d, b, sib, Red, y));
    SameOrder(p.up, Mk(p.d, t, p.n, p.color, s), Mk(p.d, t, p.n, p.color, p.sib));
  }

  /** The last turn: the outer nephew is red and one rotation fills the gap. */
  method FillGap(head: Head, d: Side, parent: Node, tmp: Node, ghost p: Path, ghost t: Tree, ghost h: nat)
      returns (ghost u: Tree)
    requires head.Zip(p, t) && Deficit(p, t, h) && p.Step? && p.n == parent && p.d == d && !IsRed(t)
    requires p.sib.Fork? && p.sib.color == Black && p.sib.n == tmp && IsRed(Toward(Other(d), p.sib))
    modifies head`root, head.nodes
    ensures head.Zip(Top, u) && RedBlack(u) && InOrder(u) == InOrder(Plug(p, t))
  {
    ghost var x, y := Toward(d, p.sib), Toward(Other(d), p.sib);
    u := Mk(d, Mk(d, t, parent, Black, x), tmp, p.color, y.(color := Black));
    TurnLastKeeps(d, parent, tmp, p.color, x, y, p.up, t, h);
    TurnLastOrder(d, parent, tmp, p.color, x, y, p.up, t);
    AtGap(head, p, t);
    NephewColor(head, p, t);
    Across(head, d, parent, p.color, p.sib, p.up, t);
    var outer := tmp.Child(Other(d));
    TurnLast(head, d, parent, tmp, outer, p.color, x, y, p.up, t);
    OntoTop(p.up);
    head.ZoomOut(p.up, Top, u);
    u := Plug(p.up, u);
  }

  predicate IsBlack(n: Node?)
    reads n
  {
    n == null || n.color == Black
  }

  /** RB_REMOVE_COLOR: the place at the end of p0 lacks one black node. */
  method RemoveColor(head: Head, parent0: Node?, elm0: Node?, ghost p0: Path, ghost t0: Tree, ghost h0: nat)
      returns (ghost t: Tree)
    requires head.Zip(p0, t0) && Deficit(p0, t0, h0) && parent0 == Owner(p0) && elm0 == TopOf(t0)
    modifies head`root, head.nodes
    ensures head.Zip(Top, t) && RedBlack(t) && InOrder(t) == InOrder(Plug(p0, t0))
  {
    hide Balanced, NoRedRed, PathOk, InOrder, Plug, Apart, PathApart, RepPath, Rep, Deficit, RedBlack, head.Zip;
    var elm, parent := elm0, parent0;
    ghost var p, h, filled := p0, h0, false;
    t := t0;
    EmptyOrRoot(head, p, t);
    while IsBlack(elm) && elm != head.root
      invariant InOrder(Plug(p, t)) == InOrder(Plug(p0, t0))
      invariant head.Zip(p, t) && elm == TopOf(t) && (!filled ==> Deficit(p, t, h) && parent == Owner(p))
      invariant filled ==> p == Top && RedBlack(t)
      invariant elm == head.root <==> p.Top?
      invariant elm != null ==> elm.color == t.color
      decreases Length(p), if IsRed(t) then 0 else 1
    {
      SiblingExists(p, t, h);
      AtGap(head, p, t);
      var d := if parent.left == elm then Left else Right;
      var tmp;
      tmp, p := MakeSiblingBlack(head, d, parent, p, t, h);
      AtGap(head, p, t);
      if IsBlack(tmp.left) && IsBlack(tmp.right) {
        elm, parent, t, h := MoveUp(head, d, parent, tmp, p, t, h);
        p := p.up;
      } else {
        t := TurnAndFill(head, d, parent, tmp, p, t, h);
        elm, p, filled := head.root, Top, true;
      }
      EmptyOrRoot(head, p, t);
    }
    t := Finish(head, elm, p, t, h, filled);
  }

  /** The two rotations of a gap whose sibling has a red child. */
  method TurnAndFill(head: Head, d: Side, parent: Node, sib: Node, ghost p: Path, ghost t: Tree, ghost h: nat)
      returns (ghost u: Tree)
    requires head.Zip(p, t) && Deficit(p, t, h) && p.Step? && p.n == parent && p.d == d && !IsRed(t)
    requires p.sib.Fork? && p.sib.color == Black && p.sib.n == sib && (IsRed(p.sib.left) || IsRed(p.sib.right))
    modifies head`root, head.nodes
    ensures head.Zip(Top, u) && RedBlack(u) && InOrder(u) == InOrder(Plug(p, t))
  {
    hide Balanced, NoRedRed, PathOk, InOrder, Plug, Apart, PathApart, RepPath, Rep, Deficit, RedBlack, head.Zip;
    AtGap(head, p, t);
    NephewColor(head, p, t);
    var tmp := sib;
    ghost var q := p;
    if IsBlack(tmp.Child(Other(d))) {
      tmp, q := TurnIn(head, d, parent, tmp, p, t, h);
    }
    u := FillGap(head, d, parent, tmp, q, t, h);
  }

  /** The end of RB_REMOVE_COLOR: the focus, if any, becomes black. */
  method Finish(head: Head, elm: Node?, ghost p: Path, ghost t: Tree, ghost h: nat, ghost filled: bool)
    returns (ghost u: Tree)
    requires head.Zip(p, t) && elm == TopOf(t)
    requires if filled then p == Top && RedBlack(t) else Deficit(p, t, h) && (IsRed(t) || p.Top?)
    modifies head.nodes
    ensures head.Zip(Top, u) && RedBlack(u) && InOrder(u) == InOrder(Plug(p, t))
  {
    hide Balanced, NoRedRed, PathOk, Plug, Apart, PathApart, RepPath, Rep, Deficit, RedBlack, head.Zip;
    ghost var b := if t.Fork? then t.(color := Black) else t;
    if filled { FilledIsBlack(p, t); } else { PaintedBlack(p, t, h); }
    if elm != null {
      head.Paint(elm, Black, p, t.left, t.color, t.right);
    }
    SameOrder(p, b, t);
    OntoTop(p);
    head.ZoomOut(p, Top, b);
    u := Plug(p, b);
  }

  lemma FilledIsBlack(p: Path, t: Tree)
    requires p == Top && RedBlack(t)
    ensures RedBlack(Plug(p, if t.Fork? then t.(color := Black) else t))
  {}

  lemma EmptyOrRoot(head: Head, p: Path, t: Tree)
    requires head.Zip(p, t)
    ensures TopOf(t) == head.root <==> p.Top?
    ensures t.Fork? ==> t.n.color == t.color
    ensures p == Top ==> head.root == TopOf(t) && Plug(p, t) == t
  {
    if p.Step? { RootAbove(p, TopOf(t)); }
  }

  lemma {:induction false} RootAbove(p: Path, focus: Node?)
    requires p.Step?
    ensures RootOf(p, focus) in PathNodes(p)
  {
    if p.up.Step? { RootAbove(p.up, p.n); }
  }

  // Removal.

  /** A tree that obeys the rules in its place. */
  ghost predicate Fits(p: Path, t: Tree, h: nat) {
    && PathOk(p, h) && Balanced(t, h) && NoRedRed(t)
    && (IsRed(t) ==> p.Step? && p.color == Black)
  }

  lemma CutKeeps(p: Path, d: Side, elm: Node, c: Color, t: Tree, h: nat)
    requires Fits(p, Mk(d, Leaf, elm, c, t), h)
    ensures c == Black ==> h > 0 && Deficit(p, t, h - 1)
    ensures c == Red ==> RedBlack(Plug(p, t))
  {
    assert NoRedRed(t);
    if c == Red { PlugRedBlack(p, t, h); }
  }

  /** The rules do not care which nodes are on the path. */
  lemma {:induction false} Renamed(q: Path, d: Side, n: Node, m: Node, c: Color, sib: Tree, base: Path, h: nat)
    ensures PathOk(Onto(q, Step(d, n, c, sib, base)), h) <==> PathOk(Onto(q, Step(d, m, c, sib, base)), h)
  {
    if q.Step? { Renamed(q.up, d, n, m, c, sib, base, if q.color == Red then h else h + 1); }
  }

  /** The place of an element in the tree. */
  lemma {:induction false} Locate(head: Head, p: Path, t: Tree, n: Node) returns (q: Path, s: Tree)
    requires head.Zip(p, t) && n in Nodes(t)
    ensures head.Zip(q, s) && s.Fork? && s.n == n && Plug(q, s) == Plug(p, t)
    decreases t
  {
    if t.n == n {
      q, s := p, t;
    } else {
      var d := if n in Nodes(t.left) then Left else Right;
      var near, far := Toward(d, t), Toward(Other(d), t);
      head.Down(p, d, near, t.n, t.color, far);
      q, s := Locate(head, Step(d, t.n, t.color, far, p), near, n);
    }
  }

  /** The tail of RB_REMOVE: the fix-up runs when a black node has gone. */
  method Mend(head: Head, parent: Node?, child: Node?, color: Color, ghost p: Path, ghost t: Tree, ghost d: Side,
              ghost elm: Node, ghost h: nat)
      returns (ghost u: Tree)
    requires head.Zip(p, t) && Fits(p, Mk(d, Leaf, elm, color, t), h)
    requires parent == Owner(p) && child == TopOf(t)
    modifies head`root, head.nodes
    ensures head.Zip(Top, u) && RedBlack(u) && InOrder(u) == InOrder(Plug(p, t))
  {
    hide head.Zip, RedBlack, Fits, Deficit, Mk, PathOk, Balanced, NoRedRed;
    CutKeeps(p, d, elm, color, t, h);
    if color == Black {
      u := RemoveColor(head, parent, child, p, t, h - 1);
    } else {
      OntoTop(p);
      head.ZoomOut(p, Top, t);
      u := Plug(p, t);
    }
  }

  /** elm has at most one child, which takes its place. */
  method RemoveThin(head: Head, elm: Node, child: Node?, ghost p: Path, ghost c: Color, ghost d: Side, ghost t: Tree,
                    ghost h: nat)
      returns (ghost u: Tree)
    requires head.Zip(p, Mk(d, Leaf, elm, c, t)) && Fits(p, Mk(d, Leaf, elm, c, t), h) && child == TopOf(t)
    modifies head, head.nodes
    ensures head.nodes == old(head.nodes) - {elm}
    ensures head.Zip(Top, u) && RedBlack(u) && InOrder(u) == InOrder(Plug(p, t))
  {
    hide RedBlack, Fits, InOrder, PathOk, Balanced, NoRedRed, Apart, PathApart, RepPath, Plug;
    var parent, color := elm.parent, elm.color;
    head.CutOut(elm, child, p, c, d, t);
    u := Mend(head, parent, child, color, p, t, d, elm, h);
  }

  /** The leftmost node below elm. */
  method LeftMost(head: Head, start: Node, ghost base: Path, ghost r: Tree)
    returns (elm: Node, ghost q: Path, ghost t: Tree)
    requires head.Zip(base, r) && TopOf(r) == start
    ensures head.Zip(Onto(q, base), t) && Plug(q, t) == r && Before(q) == []
    ensures t.Fork? && t.left == Leaf && t.n == elm
  {
    elm := start;
    q, t := Top, r;
    while elm.left != null
      invariant head.Zip(Onto(q, base), t) && Plug(q, t) == r && Before(q) == []
      invariant t.Fork? && t.n == elm
      decreases t
    {
      head.Down(Onto(q, base), Left, t.left, t.n, t.color, t.right);
      elm := elm.left;
      q, t := Step(Left, t.n, t.color, t.right, q), t.left;
    }
  }

  /** elm, the leftmost node below was's right child, leaves its place and takes was's:
      base is the way below was, q goes on to elm, and t is elm's right subtree. */
  method Succeed(head: Head, was: Node, elm: Node, ghost p: Path, ghost l: Tree, ghost c: Color,
                 ghost q: Path, ghost ce: Color, ghost t: Tree) returns (parent: Node?, child: Node?, color: Color)
    requires l.Fork? && head.Zip(Onto(q, Step(Right, was, c, l, p)), Fork(Leaf, elm, ce, t))
    modifies head, head.nodes
    ensures head.nodes == old(head.nodes) - {was}
    ensures head.Zip(Onto(q, Step(Right, elm, c, l, p)), t)
    ensures parent == Owner(Onto(q, Step(Right, elm, c, l, p))) && child == TopOf(t) && color == ce
  {
    hide Onto, Plug, Apart, PathApart, RepPath, head.Zip;
    ghost var base, above := Step(Right, was, c, l, p), Step(Right, elm, c, l, p);
    InTree(head, q, was, c, l, p, elm, ce, t);
    child := elm.right;
    parent := elm.parent;
    color := elm.color;
    head.CutOut(elm, child, Onto(q, base), ce, Left, t);
    if elm.parent == was { parent := elm; }
    head.ZoomOut(q, base, t);
    head.Up(p, Right, Plug(q, t), was, c, l);
    head.TakePlace(was, elm, p, l, c, Plug(q, t));
    head.Down(p, Right, Plug(q, t), elm, c, l);
    head.ZoomIn(q, above, t);
  }

  /** Where was and elm stand before the exchange. */
  lemma InTree(head: Head, q: Path, was: Node, c: Color, l: Tree, p: Path, elm: Node, ce: Color, t: Tree)
    requires head.Zip(Onto(q, Step(Right, was, c, l, p)), Fork(Leaf, elm, ce, t))
    ensures was in head.nodes && elm in head.nodes && was != elm
    ensures elm.right == TopOf(t) && elm.color == ce && elm.parent == Owner(Onto(q, Step(Right, was, c, l, p)))
    ensures Owner(Onto(q, Step(Right, elm, c, l, p))) == if elm.parent == was then elm else elm.parent
  {
    OwnerOnto(q, Step(Right, was, c, l, p));
  }

  lemma {:induction false} OwnerOnto(q: Path, base: Path)
    ensures PathNodes(Onto(q, base)) == PathNodes(q) + PathNodes(base)
    ensures PathApart(Onto(q, base)) ==> PathNodes(q) !! PathNodes(base)
  {
    if q.Step? { OwnerOnto(q.up, base); }
  }

  /** was has two children: the leftmost node on its right takes its place. */
  method RemoveFat(head: Head, was: Node, ghost p: Path, ghost l: Tree, ghost c: Color, ghost r: Tree, ghost h: nat)
      returns (ghost u: Tree)
    requires head.Zip(p, Fork(l, was, c, r)) && Fits(p, Fork(l, was, c, r), h) && l.Fork? && r.Fork?
    modifies head, head.nodes
    ensures head.nodes == old(head.nodes) - {was}
    ensures head.Zip(Top, u) && RedBlack(u) && InOrder(u) == Before(p) + InOrder(l) + (InOrder(r) + After(p))
  {
    hide Onto, Plug, Apart, PathApart, RepPath, Fits, PathOk, Balanced, NoRedRed, InOrder, RedBlack, head.Zip;
    ghost var base := Step(Right, was, c, l, p);
    head.Down(p, Right, r, was, c, l);
    RightTop(head, p, l, was, c, r);
    var elm, q, t := LeftMost(head, was.right, base, r);
    ghost var ce, tr := t.color, t.right;
    ghost var k := SuccessorFits(q, p, l, was, c, r, elm, ce, tr, h);
    SuccessorOrder(q, p, l, c, r, elm, ce, tr);
    var parent, child, color := Succeed(head, was, elm, p, l, c, q, ce, tr);
    u := Mend(head, parent, child, color, Onto(q, Step(Right, elm, c, l, p)), tr, Left, elm, k);
  }

  lemma RightTop(head: Head, p: Path, l: Tree, n: Node, c: Color, r: Tree)
    requires head.Zip(p, Fork(l, n, c, r))
    ensures n.left == TopOf(l) && n.right == TopOf(r)
  {}

  /** The successor's place obeys the rules, before and after was is renamed above it. */
  lemma SuccessorFits(q: Path, p: Path, l: Tree, was: Node, c: Color, r: Tree, elm: Node, ce: Color, t: Tree, h: nat)
      returns (k: nat)
    requires Fits(p, Fork(l, was, c, r), h) && Plug(q, Fork(Leaf, elm, ce, t)) == r
    ensures Fits(Onto(q, Step(Right, elm, c, l, p)), Fork(Leaf, elm, ce, t), k)
  {
    var base := Step(Right, was, c, l, p);
    var s := Fork(Leaf, elm, ce, t);
    PlugRedBlack(p, Fork(l, was, c, r), h);
    PlugOnto(q, base, s);
    k := PathOfRedBlack(Onto(q, base), s);
    Renamed(q, Right, was, elm, c, l, p, k);
    assert Onto(q, base).Step? && Onto(q, base).color == Onto(q, Step(Right, elm, c, l, p)).color;
  }

  /** The order afterwards is the old one without was. */
  lemma SuccessorOrder(q: Path, p: Path, l: Tree, c: Color, r: Tree, elm: Node, ce: Color, t: Tree)
    requires Plug(q, Fork(Leaf, elm, ce, t)) == r && Before(q) == []
    ensures InOrder(Plug(Onto(q, Step(Right, elm, c, l, p)), t)) == Before(p) + InOrder(l) + (InOrder(r) + After(p))
  {
    var above := Step(Right, elm, c, l, p);
    PlugOnto(q, above, t);
    PlugOrder(above, Plug(q, t));
    PlugOrder(q, t);
    PlugOrder(q, Fork(Leaf, elm, ce, t));
    Swapped(Before(p), InOrder(l), elm, InOrder(t), After(q), After(p));
  }

  lemma Swapped(a: seq<Node>, l: seq<Node>, elm: Node, t: seq<Node>, b: seq<Node>, z: seq<Node>)
    ensures (a + l + [elm]) + ([] + t + b) + z == a + l + (([] + ([] + [elm] + t) + b) + z)
  {}

  /** RB_REMOVE: elm goes, everything else stays. */
  method Remove(head: Head, elm: Node) returns (removed: Node)
    requires head.Valid() && elm in head.nodes
    modifies head, head.nodes
    ensures head.Valid() && head.nodes == old(head.nodes) - {elm}
    ensures removed == elm
  {
    hide Onto, Apart, PathApart, RepPath, Fits, PathOk, Balanced, NoRedRed, InOrder, RedBlack;
    ghost var p, s := Locate(head, Top, head.tree, elm);
    ghost var h := PlaceFits(p, s, head.tree);
    RightTop(head, p, s.left, elm, s.color, s.right);
    WithoutElement(p, s, head.tree);
    ghost var t;
    if elm.left == null {
      t := RemoveThin(head, elm, elm.right, p, s.color, Left, s.right, h);
    } else if elm.right == null {
      t := RemoveThin(head, elm, elm.left, p, s.color, Right, s.left, h);
    } else {
      t := RemoveFat(head, elm, p, s.left, s.color, s.right, h);
    }
    head.tree := t;
    return elm;
  }

  lemma PlaceFits(p: Path, s: Tree, t: Tree) returns (h: nat)
    requires Plug(p, s) == t && RedBlack(t)
    ensures Fits(p, s, h)
  {
    h := PathOfRedBlack(p, s);
  }

  lemma WithoutElement(p: Path, s: Tree, t: Tree)
    requires Plug(p, s) == t && Sorted(InOrder(t)) && s.Fork?
    ensures Sorted(Before(p) + InOrder(s.left) + (InOrder(s.right) + After(p)))
    ensures s.left == Leaf ==> InOrder(Plug(p, s.right)) == Before(p) + InOrder(s.left) + (InOrder(s.right) + After(p))
    ensures s.right == Leaf ==> InOrder(Plug(p, s.left)) == Before(p) + InOrder(s.left) + (InOrder(s.right) + After(p))
  {
    PlugOrder(p, s);
    PlugOrder(p, s.right);
    PlugOrder(p, s.left);
    Ungroup(Before(p), InOrder(s.left), s.n, InOrder(s.right), After(p));
    OneOut(Before(p) + InOrder(s.left), s.n, InOrder(s.right) + After(p));
  }

  lemma Ungroup(a: seq<Node>, l: seq<Node>, n: Node, r: seq<Node>, z: seq<Node>)
    ensures a + (l + [n] + r) + z == (a + l) + [n] + (r + z)
    ensures l == [] ==> a + r + z == (a + l) + (r + z)
    ensures r == [] ==> a + l + z == (a + l) + (r + z)
  {}
}
