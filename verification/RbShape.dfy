/** The trees of tree.h as values: the tree of the linked nodes, the path from a place
    in it up to the root, key order, and the rules of red-black trees. The macros come in
    mirrored halves; here a side says which half is meant. */
module RbShape {
  import opened Powers

  datatype Color = Red | Black
  datatype Side = Left | Right

  function Other(d: Side): Side { if d == Left then Right else Left }

  /** An element with its RB_ENTRY fields; the key is what cmp compares. A splay tree
      uses the child links only. */
  class Node {
    const key: int
    var left: Node?
    var right: Node?
    var parent: Node?
    var color: Color

    constructor (key: int)
      ensures this.key == key
    {
      this.key, left, right, parent, color := key, null, null, null, Red;
    }

    function Child(d: Side): Node?
      reads this
    {
      if d == Left then left else right
    }

    method SetChild(d: Side, n: Node?)
      modifies this
      ensures Child(d) == n && Child(Other(d)) == old(Child(Other(d)))
      ensures parent == old(parent) && color == old(color)
    {
      if d == Left { left := n; } else { right := n; }
    }
  }

  datatype Tree = Leaf | Fork(left: Tree, n: Node, color: Color, right: Tree)

  /** A fork seen from side d: the subtree on that side, the node, the other one. */
  function Mk(d: Side, near: Tree, n: Node, c: Color, far: Tree): Tree {
    if d == Left then Fork(near, n, c, far) else Fork(far, n, c, near)
  }

  /** The subtree on side d. */
  ghost function Toward(d: Side, t: Tree): Tree
    requires t.Fork?
  {
    if d == Left then t.left else t.right
  }

  /** The way from a place up to the root; each step remembers the side we are on,
      the node above and the subtree on its other side. */
  datatype Path = Top | Step(d: Side, n: Node, color: Color, sib: Tree, up: Path)

  function Plug(p: Path, t: Tree): Tree {
    match p
    case Top => t
    case Step(d, n, c, sib, up) => Plug(up, Mk(d, t, n, c, sib))
  }

  /** The path q continued by the path base. */
  function Onto(q: Path, base: Path): Path {
    if q.Top? then base else Step(q.d, q.n, q.color, q.sib, Onto(q.up, base))
  }

  lemma {:induction false} OntoTop(q: Path)
    ensures Onto(q, Top) == q
  {
    if q.Step? { OntoTop(q.up); }
  }

  lemma {:induction false} PlugOnto(q: Path, base: Path, t: Tree)
    ensures Plug(Onto(q, base), t) == Plug(base, Plug(q, t))
  {
    if q.Step? { PlugOnto(q.up, base, Mk(q.d, t, q.n, q.color, q.sib)); }
  }

  /** The two halves of every macro are mirror images. */
  lemma Mirror(d: Side, near: Tree, n: Node, c: Color, far: Tree)
    ensures Mk(d, near, n, c, far) == Mk(Other(d), far, n, c, near)
    ensures Other(Other(d)) == d
  {}

  function TopOf(t: Tree): Node? {
    if t.Leaf? then null else t.n
  }

  function Owner(p: Path): Node? {
    if p.Top? then null else p.n
  }

  function RootOf(p: Path, focus: Node?): Node? {
    match p
    case Top => focus
    case Step(_, n, _, _, up) => RootOf(up, n)
  }

  lemma {:induction false} RootOfPlug(p: Path, t: Tree)
    ensures TopOf(Plug(p, t)) == RootOf(p, TopOf(t))
  {
    if p.Step? { RootOfPlug(p.up, Mk(p.d, t, p.n, p.color, p.sib)); }
  }

  function Nodes(t: Tree): set<Node> {
    match t
    case Leaf => {}
    case Fork(l, n, _, r) => Nodes(l) + {n} + Nodes(r)
  }

  function PathNodes(p: Path): set<Node> {
    match p
    case Top => {}
    case Step(_, n, _, sib, up) => {n} + Nodes(sib) + PathNodes(up)
  }

  // The elements in key order.

  function InOrder(t: Tree): seq<Node> {
    match t
    case Leaf => []
    case Fork(l, n, _, r) => InOrder(l) + [n] + InOrder(r)
  }

  /** The elements before, and after, the place a path leads to. */
  function Before(p: Path): seq<Node> {
    match p
    case Top => []
    case Step(d, n, _, sib, up) => if d == Right then Before(up) + InOrder(sib) + [n] else Before(up)
  }

  function After(p: Path): seq<Node> {
    match p
    case Top => []
    case Step(d, n, _, sib, up) => if d == Left then [n] + InOrder(sib) + After(up) else After(up)
  }

  lemma {:induction false} PlugOrder(p: Path, t: Tree)
    ensures InOrder(Plug(p, t)) == Before(p) + InOrder(t) + After(p)
  {
    if p.Step? {
      PlugOrder(p.up, Mk(p.d, t, p.n, p.color, p.sib));
      StepOrder(p, t);
    }
  }

  lemma SameOrder(p: Path, t: Tree, u: Tree)
    requires InOrder(t) == InOrder(u)
    ensures InOrder(Plug(p, t)) == InOrder(Plug(p, u))
  {
    PlugOrder(p, t);
    PlugOrder(p, u);
  }

  lemma RotateOrder(d: Side, a: Tree, n: Node, c: Color, b: Tree, m: Node, e: Color, g: Tree)
    ensures InOrder(Mk(d, a, n, c, Mk(d, b, m, e, g))) == InOrder(Mk(d, Mk(d, a, n, c, b), m, e, g))
  {
    Associate(InOrder(a), [n], InOrder(b), [m], InOrder(g));
    Associate(InOrder(g), [m], InOrder(b), [n], InOrder(a));
  }

  lemma Associate<T>(a: seq<T>, n: seq<T>, b: seq<T>, m: seq<T>, g: seq<T>)
    ensures a + n + (b + m + g) == (a + n + b) + m + g
  {}

  /** Moving the focus up one step leaves the order as it is. */
  lemma StepOrder(p: Path, t: Tree)
    requires p.Step?
    ensures Before(p.up) + InOrder(Mk(p.d, t, p.n, p.color, p.sib)) + After(p.up) == Before(p) + InOrder(t) + After(p)
  {
    Regroup(Before(p.up), InOrder(t), [p.n], InOrder(p.sib), After(p.up));
    Regroup(Before(p.up), InOrder(p.sib), [p.n], InOrder(t), After(p.up));
  }

  lemma Regroup<T>(a: seq<T>, b: seq<T>, c: seq<T>, d: seq<T>, e: seq<T>)
    ensures a + (b + c + d) + e == a + b + (c + d + e)
    ensures a + (b + c + d) + e == (a + b + c) + d + e
  {}

  lemma {:induction false} NodesAreInOrder(t: Tree, n: Node)
    ensures n in Nodes(t) <==> n in InOrder(t)
  {
    match t {
      case Leaf =>
      case Fork(l, _, _, r) =>
        NodesAreInOrder(l, n);
        NodesAreInOrder(r, n);
    }
  }

  ghost predicate Sorted(s: seq<Node>) {
    forall i, j :: 0 <= i < j < |s| ==> s[i].key < s[j].key
  }

  /** In key order a bound on the nearest element before or after a gap bounds all. */
  lemma Bounds(a: seq<Node>, m: seq<Node>, b: seq<Node>, key: int)
    requires Sorted(a + m + b)
    ensures a != [] && a[|a| - 1].key < key ==> forall i :: 0 <= i < |a| ==> a[i].key < key
    ensures b != [] && key < b[0].key ==> forall i :: 0 <= i < |b| ==> key < b[i].key
  {
    var s := a + m + b;
    assert forall i :: 0 <= i < |a| ==> a[i] == s[i];
    assert forall i :: 0 <= i < |b| ==> b[i] == s[|a| + |m| + i];
  }

  /** A new element in its place keeps the order. */
  lemma PlaceSorted(a: seq<Node>, n: Node, b: seq<Node>)
    requires Sorted(a + b)
    requires forall i :: 0 <= i < |a| ==> a[i].key < n.key
    requires forall i :: 0 <= i < |b| ==> n.key < b[i].key
    ensures Sorted(a + [n] + b)
  {
    var s := a + [n] + b;
    forall i, j | 0 <= i < j < |s|
      ensures s[i].key < s[j].key
    {
      var i', j' := if i < |a| then i else i - 1, if j < |a| then j else j - 1;
      assert i != |a| ==> s[i] == (a + b)[i'];
      assert j != |a| ==> s[j] == (a + b)[j'];
    }
  }

  lemma OneOut(a: seq<Node>, n: Node, b: seq<Node>)
    requires Sorted(a + [n] + b)
    ensures Sorted(a + b)
  {
    var s, u := a + [n] + b, a + b;
    forall i, j | 0 <= i < j < |u|
      ensures u[i].key < u[j].key
    {
      assert u[i] == s[if i < |a| then i else i + 1];
      assert u[j] == s[if j < |a| then j else j + 1];
    }
  }

  // No node occurs twice.

  ghost predicate Apart(t: Tree) {
    match t
    case Leaf => true
    case Fork(l, n, _, r) => n !in Nodes(l) && n !in Nodes(r) && Nodes(l) !! Nodes(r) && Apart(l) && Apart(r)
  }

  lemma MkApart(d: Side, near: Tree, n: Node, c: Color, far: Tree)
    ensures Apart(Mk(d, near, n, c, far)) <==>
      n !in Nodes(near) && n !in Nodes(far) && Nodes(near) !! Nodes(far) && Apart(near) && Apart(far)
    ensures Nodes(Mk(d, near, n, c, far)) == Nodes(near) + {n} + Nodes(far)
    ensures Nodes(Leaf) == {}
  {}

  ghost predicate PathApart(p: Path) {
    match p
    case Top => true
    case Step(_, n, _, sib, up) =>
      n !in Nodes(sib) && n !in PathNodes(up) && Nodes(sib) !! PathNodes(up) && Apart(sib) && PathApart(up)
  }

  // The red-black rules.

  predicate IsRed(t: Tree) {
    t.Fork? && t.color == Red
  }

  /** Every way down from the root of t meets h black nodes. */
  ghost predicate Balanced(t: Tree, h: nat) {
    match t
    case Leaf => h == 0
    case Fork(l, _, c, r) =>
      if c == Red then Balanced(l, h) && Balanced(r, h)
      else h > 0 && Balanced(l, h - 1) && Balanced(r, h - 1)
  }

  ghost predicate NoRedRed(t: Tree) {
    match t
    case Leaf => true
    case Fork(l, _, c, r) => NoRedRed(l) && NoRedRed(r) && (c == Red ==> !IsRed(l) && !IsRed(r))
  }

  ghost predicate RedBlack(t: Tree) {
    && !IsRed(t) && NoRedRed(t)
    && exists h: nat :: Balanced(t, h)
  }

  /** A path that accepts a tree of black height h in its place. */
  ghost predicate PathOk(p: Path, h: nat) {
    match p
    case Top => true
    case Step(_, _, c, sib, up) =>
      && Balanced(sib, h) && NoRedRed(sib)
      && (if c == Red then !IsRed(sib) && up.Step? && up.color == Black && PathOk(up, h) else PathOk(up, h + 1))
  }

  lemma {:induction false} PlugRedBlack(p: Path, t: Tree, h: nat)
    requires PathOk(p, h) && Balanced(t, h) && NoRedRed(t)
    requires IsRed(t) ==> p.Step? && p.color == Black
    ensures RedBlack(Plug(p, t))
  {
    if p.Step? {
      PlugRedBlack(p.up, Mk(p.d, t, p.n, p.color, p.sib), if p.color == Red then h else h + 1);
    }
  }

  /** Every place in a red-black tree has such a path. */
  lemma {:induction false} PathOfRedBlack(p: Path, t: Tree) returns (h: nat)
    requires RedBlack(Plug(p, t))
    ensures PathOk(p, h) && Balanced(t, h) && NoRedRed(t)
    ensures IsRed(t) ==> p.Step? && p.color == Black
  {
    if p.Top? {
      h :| Balanced(t, h);
    } else {
      h := PathOfRedBlack(p.up, Mk(p.d, t, p.n, p.color, p.sib));
      if p.color == Black { h := h - 1; }
    }
  }

  // Height.

  function Size(t: Tree): nat {
    match t
    case Leaf => 0
    case Fork(l, _, _, r) => Size(l) + 1 + Size(r)
  }

  function Height(t: Tree): nat {
    match t
    case Leaf => 0
    case Fork(l, _, _, r) => 1 + if Height(l) > Height(r) then Height(l) else Height(r)
  }

  lemma {:induction false} SizeBound(t: Tree, h: nat)
    requires Balanced(t, h)
    ensures Size(t) + 1 >= Pow2(h)
  {
    if t.Fork? {
      var k := if t.color == Red then h else h - 1;
      SizeBound(t.left, k);
      SizeBound(t.right, k);
    }
  }

  lemma {:induction false} HeightBound(t: Tree, h: nat)
    requires Balanced(t, h) && NoRedRed(t)
    ensures Height(t) <= 2 * h + if IsRed(t) then 1 else 0
  {
    if t.Fork? {
      var k := if t.color == Red then h else h - 1;
      HeightBound(t.left, k);
      HeightBound(t.right, k);
    }
  }

  lemma {:induction false} Pow2Double(a: nat, b: nat)
    requires a <= 2 * b
    ensures Pow2(a) <= Pow2(b) * Pow2(b)
  {
    if b > 0 {
      SquareStep(b);
      if a < 2 {
        Pow2Double(0, b - 1);
        assert Pow2(a) <= 2;
      } else {
        Pow2Double(a - 2, b - 1);
        assert Pow2(a) == 4 * Pow2(a - 2);
      }
    }
  }

  lemma SquareStep(b: nat)
    requires b > 0
    ensures Pow2(b) * Pow2(b) == 4 * (Pow2(b - 1) * Pow2(b - 1))
  {
    var p := Pow2(b - 1);
    assert (2 * p) * (2 * p) == 4 * (p * p);
  }

  /** The height is at most 2 lg(n + 1), said without logarithms. */
  lemma HeightIsLogarithmic(t: Tree)
    requires RedBlack(t)
    ensures Pow2(Height(t)) <= (Size(t) + 1) * (Size(t) + 1)
  {
    var h: nat :| Balanced(t, h);
    SizeBound(t, h);
    HeightBound(t, h);
    Pow2Double(Height(t), h);
    Squares(Pow2(h), Size(t) + 1);
  }

  lemma Squares(a: nat, b: nat)
    requires a <= b
    ensures a * a <= b * b
  {}
}
