/** RB_FIND, RB_NFIND, RB_NEXT and RB_PREV of tree.h against the key order. */
module RbQuery {
  import opened RbShape
  import opened RbLinks
  import opened RbInsert
  import opened RbRemove

  /** RB_FIND: the element with this key, when there is one. */
  method Find(head: Head, key: int) returns (found: Node?)
    requires head.Valid()
    ensures found != null ==> found in head.nodes && found.key == key
    ensures found == null ==> forall n | n in head.nodes :: n.key != key
  {
    hide Between, Plug, RepPath, PathApart, RedBlack, Rep, RootOf, InOrder;
    var tmp, _, _, p, t := Descend(head, key);
    if tmp == null { NoneHere(head, p, key); }
    return tmp;
  }

  /** The first of s when d is Right, the last when it is Left. */
  function Edge(d: Side, s: seq<Node>): Node? {
    if s == [] then null else if d == Right then s[0] else s[|s| - 1]
  }

  /** What lies on side d of the place a path leads to. */
  function Beyond(d: Side, p: Path): seq<Node> {
    if d == Right then After(p) else Before(p)
  }

  lemma Climb(d: Side, p: Path)
    ensures Edge(d, Beyond(d, p)) ==
      if p.Top? then null else if p.d == d then Edge(d, Beyond(d, p.up)) else p.n
  {}

  lemma Dive(d: Side, t: Tree)
    requires t.Fork?
    ensures Edge(d, InOrder(t)) == if Toward(Other(d), t).Leaf? then t.n else Edge(d, InOrder(Toward(Other(d), t)))
  {
    if Toward(Other(d), t).Fork? {
      assert InOrder(Toward(Other(d), t)) != [];
    }
  }

  /** RB_NFIND: the least element whose key is not below the given one. */
  method NFind(head: Head, key: int) returns (res: Node?)
    requires head.Valid()
    ensures res != null ==> res in head.nodes && key <= res.key
    ensures res != null ==> forall n | n in head.nodes && key <= n.key :: res.key <= n.key
    ensures res == null ==> forall n | n in head.nodes :: n.key < key
  {
    hide Between, Plug, RepPath, PathApart, Edge, Beyond, Rep, InOrder, RedBlack, Sorted;
    var tmp := head.root;
    res := null;
    ghost var p, t := Top, head.tree;
    StartDown(head, key);
    Climb(Right, p);
    while tmp != null
      invariant Plug(p, t) == head.tree && head.Zip(p, t) && Between(p, key)
      invariant tmp == TopOf(t) && res == Edge(Right, Beyond(Right, p))
      decreases t
    {
      if key == tmp.key {
        EqualIsLeast(head, p, t, key);
        return tmp;
      }
      var d := if key < tmp.key then Left else Right;
      if key < tmp.key { res := tmp; }
      tmp := tmp.Child(d);
      p, t := StepDown(head, p, t, d, key);
      Climb(Right, p);
    }
    LeastBeyond(head, p, key, res);
  }

  lemma EqualIsLeast(head: Head, p: Path, t: Tree, key: int)
    requires head.Valid() && head.Zip(p, t) && t.Fork? && t.n.key == key
    ensures t.n in head.nodes
  {}

  lemma LeastBeyond(head: Head, p: Path, key: int, res: Node?)
    requires head.Valid() && Plug(p, Leaf) == head.tree && Between(p, key) && res == Edge(Right, Beyond(Right, p))
    ensures res == null ==> forall n | n in head.nodes :: n.key < key
    ensures res != null ==> res in head.nodes && key < res.key
    ensures res != null ==> forall n | n in head.nodes && key <= n.key :: res.key <= n.key
  {
    PlugOrder(p, Leaf);
    var s := InOrder(head.tree);
    assert s == Before(p) + After(p);
    forall n | n in head.nodes
      ensures n in Before(p) || n in After(p)
    {
      NodesAreInOrder(head.tree, n);
    }
    if After(p) != [] {
      assert s[|Before(p)|] == After(p)[0];
      NodesAreInOrder(head.tree, After(p)[0]);
      forall i | 0 < i < |After(p)|
        ensures After(p)[0].key < After(p)[i].key
      {
        assert s[|Before(p)| + i] == After(p)[i];
      }
    }
  }

  /** RB_NEXT when d is Right, RB_PREV when it is Left: the neighbor in key order. */
  method Neighbor(head: Head, d: Side, elm0: Node) returns (elm: Node?)
    requires head.Valid() && elm0 in head.nodes
    ensures Beside(d, InOrder(head.tree), elm0, elm)
  {
    hide RepPath, PathApart, Edge, Beyond, Rep, InOrder, RedBlack, Sorted;
    ghost var p, t := Locate(head, Top, head.tree, elm0);
    NeighborIs(head.tree, p, t, d);
    Links(head, p, t);
    if elm0.Child(d) != null {
      elm := Extreme(head, d, p, t, elm0);
    } else {
      elm := Ascend(head, d, p, t, elm0);
    }
  }

  function At(s: seq<Node>, i: int): Node? {
    if 0 <= i < |s| then s[i] else null
  }

  /** r stands next to n in s on side d, or is null when n is at that end. */
  ghost predicate Beside(d: Side, s: seq<Node>, n: Node, r: Node?) {
    exists i :: 0 <= i < |s| && s[i] == n && r == At(s, if d == Right then i + 1 else i - 1)
  }

  lemma NeighborIs(all: Tree, p: Path, t: Tree, d: Side)
    requires Plug(p, t) == all && t.Fork?
    ensures Beside(d, InOrder(all), t.n,
      if Toward(d, t).Fork? then Edge(d, InOrder(Toward(d, t))) else Edge(d, Beyond(d, p)))
  {
    PlugOrder(p, t);
    var i := |Before(p)| + |InOrder(t.left)|;
    var s := InOrder(all);
    Around(Before(p), InOrder(t.left), t.n, InOrder(t.right), After(p));
    assert t.left.Fork? ==> InOrder(t.left) != [];
    assert t.right.Fork? ==> InOrder(t.right) != [];
    assert s[i] == t.n;
  }

  lemma Around(a: seq<Node>, l: seq<Node>, n: Node, r: seq<Node>, z: seq<Node>)
    ensures var s, i := a + (l + [n] + r) + z, |a| + |l|;
      s[i] == n && At(s, i + 1) == (if r != [] then Edge(Right, r) else Edge(Right, z)) &&
      At(s, i - 1) == (if l != [] then Edge(Left, l) else Edge(Left, a))
  {}

  lemma Links(head: Head, p: Path, t: Tree)
    requires head.Zip(p, t) && t.Fork?
    ensures t.n.parent == Owner(p) && t.n.left == TopOf(t.left) && t.n.right == TopOf(t.right)
  {}

  /** Down to the child on side d, then to the other side as far as there is one. */
  method Extreme(head: Head, d: Side, ghost p: Path, ghost t: Tree, elm0: Node) returns (elm: Node)
    requires head.Zip(p, t) && t.Fork? && t.n == elm0 && Toward(d, t).Fork?
    ensures elm == Edge(d, InOrder(Toward(d, t)))
  {
    hide RepPath, PathApart, Edge, Rep, InOrder;
    Links(head, p, t);
    elm := elm0.Child(d);
    ghost var q, u := GoDown(head, d, p, t);
    Links(head, q, u);
    Dive(d, u);
    while elm.Child(Other(d)) != null
      invariant head.Zip(q, u) && u.Fork? && u.n == elm
      invariant Edge(d, InOrder(u)) == Edge(d, InOrder(Toward(d, t)))
      invariant elm.Child(Other(d)) == TopOf(Toward(Other(d), u))
      invariant Toward(Other(d), u).Leaf? ==> Edge(d, InOrder(u)) == elm
      decreases u
    {
      elm := elm.Child(Other(d));
      Dive(d, u);
      q, u := GoDown(head, Other(d), q, u);
      Links(head, q, u);
      Dive(d, u);
    }
  }

  lemma GoDown(head: Head, d: Side, p: Path, t: Tree) returns (q: Path, u: Tree)
    requires head.Zip(p, t) && t.Fork?
    ensures head.Zip(q, u) && u == Toward(d, t)
    ensures q == Step(d, t.n, t.color, Toward(Other(d), t), p)
  {
    u := Toward(d, t);
    q := Step(d, t.n, t.color, Toward(Other(d), t), p);
    head.Down(p, d, u, t.n, t.color, Toward(Other(d), t));
  }

  lemma GoUp(head: Head, p: Path, t: Tree) returns (u: Tree)
    requires head.Zip(p, t) && p.Step? && t.Fork?
    ensures u == Mk(p.d, t, p.n, p.color, p.sib) && head.Zip(p.up, u)
    ensures t.n == p.n.Child(p.d) && (t.n == p.n.right <==> p.d == Right) && (t.n == p.n.left <==> p.d == Left)
    ensures p.n.parent == Owner(p.up)
  {
    head.Up(p.up, p.d, t, p.n, p.color, p.sib);
    u := Mk(p.d, t, p.n, p.color, p.sib);
  }

  /** Up while the element is its parent's child on side d, then one step more. */
  method Ascend(head: Head, d: Side, ghost p0: Path, ghost t0: Tree, elm0: Node) returns (elm: Node?)
    requires head.Zip(p0, t0) && t0.Fork? && t0.n == elm0
    ensures elm == Edge(d, Beyond(d, p0))
  {
    hide RepPath, PathApart, Edge, Rep, InOrder, Beyond;
    ghost var p, t := p0, t0;
    var at := elm0;
    Links(head, p, t);
    Climb(d, p);
    while at.parent != null && at == at.parent.Child(d)
      invariant head.Zip(p, t) && t.Fork? && t.n == at && at.parent == Owner(p)
      invariant Edge(d, Beyond(d, p)) == Edge(d, Beyond(d, p0))
      decreases Length(p)
    {
      Climb(d, p);
      t := GoUp(head, p, t);
      p := p.up;
      at := at.parent;
    }
    Climb(d, p);
    if p.Step? { ghost var u := GoUp(head, p, t); }
    return at.parent;
  }
}
