/** The splay trees of tree.h. They share the shape of trees and paths with the red-black
    trees; of a node only the key and the two child links are used. */
module Splay {
  import opened RbShape

  /** The nodes of t carry t's links. */
  ghost predicate Rep(t: Tree)
    reads Nodes(t)
  {
    match t
    case Leaf => true
    case Fork(l, n, _, r) => n.left == TopOf(l) && n.right == TopOf(r) && Rep(l) && Rep(r)
  }

  /** The last node of a chain, the header if it is empty. */
  ghost function Holder(p: Path, header: Node): (n: Node)
    ensures n in PathNodes(p) + {header}
  {
    if p.Top? then header else p.n
  }

  /** A chain grown on side d: each node hangs on side d of the one before, the first is
      the one the header has there, and the other subtree of each is complete; the link
      of the last is still open. */
  ghost predicate Chain(p: Path, d: Side, first: Node?)
    reads PathNodes(p)
  {
    match p
    case Top => true
    case Step(e, n, _, sib, up) =>
      && e == d && n.Child(Other(d)) == TopOf(sib) && Rep(sib)
      && (if up.Top? then first == n else Holder(up, n).Child(d) == n) && Chain(up, d, first)
  }

  lemma MkRep(d: Side, near: Tree, n: Node, c: Color, far: Tree)
    ensures Rep(Mk(d, near, n, c, far)) <==>
      n.Child(d) == TopOf(near) && n.Child(Other(d)) == TopOf(far) && Rep(near) && Rep(far)
    ensures TopOf(Mk(d, near, n, c, far)) == n
  {}

  /** struct name: SPLAY_HEAD. */
  class SplayHead {
    var root: Node?
    ghost var nodes: set<Node>
    ghost var tree: Tree

    constructor ()
      ensures root == null && nodes == {} && Valid()
    {
      root, nodes, tree := null, {}, Leaf;
    }

    ghost predicate Valid()
      reads this, Nodes(tree)
    {
      root == TopOf(tree) && Rep(tree) && Apart(tree) && Nodes(tree) == nodes && Sorted(InOrder(tree))
    }

    /** In the middle of a splay: the tree still to be searched below the root, a chain of
        passed nodes on each side, p the one on side d. */
    ghost predicate Held(header: Node, d: Side, p: Path, o: Path, t: Tree)
      reads this, header, Nodes(t), PathNodes(p), PathNodes(o)
    {
      && root == TopOf(t) && Rep(t) && Chain(p, d, header.Child(d)) && Chain(o, Other(d), header.Child(Other(d)))
      && Parts(header, p, o, t)
    }

    ghost predicate Parts(header: Node, p: Path, o: Path, t: Tree)
      reads this`nodes
    {
      && Apart(t) && PathApart(p) && PathApart(o)
      && Nodes(t) !! PathNodes(p) && Nodes(t) !! PathNodes(o) && PathNodes(p) !! PathNodes(o)
      && header !in nodes && Nodes(t) + PathNodes(p) + PathNodes(o) == nodes
    }

    lemma OtherSide(header: Node, d: Side, p: Path, o: Path, t: Tree)
      requires Held(header, d, p, o, t)
      ensures Held(header, Other(d), o, p, t)
    {}

    /** The two nodes of a rotation and what hangs on and above them. */
    ghost predicate Pieces(header: Node, p: Path, o: Path, a: Tree, tmp: Node, b: Tree, n: Node, g: Tree)
      reads this`nodes
    {
      && Apart(a) && Apart(b) && Apart(g) && PathApart(p) && PathApart(o) && tmp != n
      && tmp !in Nodes(a) + Nodes(b) + Nodes(g) + PathNodes(p) + PathNodes(o)
      && n !in Nodes(a) + Nodes(b) + Nodes(g) + PathNodes(p) + PathNodes(o)
      && Nodes(a) !! Nodes(b) && Nodes(a) !! Nodes(g) && Nodes(b) !! Nodes(g) && PathNodes(p) !! PathNodes(o)
      && Nodes(a) + Nodes(b) + Nodes(g) !! PathNodes(p) + PathNodes(o)
      && header !in nodes && PathNodes(p) + PathNodes(o) + Nodes(a) + Nodes(b) + Nodes(g) + {tmp, n} == nodes
    }

    lemma RotatePieces(header: Node, d: Side, p: Path, o: Path, a: Tree, tmp: Node, c1: Color, b: Tree, n: Node,
                       c2: Color, g: Tree)
      requires Parts(header, p, o, Mk(d, Mk(d, a, tmp, c1, b), n, c2, g))
      ensures Pieces(header, p, o, a, tmp, b, n, g)
      ensures Parts(header, p, o, Mk(d, a, tmp, c1, Mk(d, b, n, c2, g)))
    {
      hide Mk, Apart, PathApart, Nodes, PathNodes;
      MkApart(d, Mk(d, a, tmp, c1, b), n, c2, g);
      MkApart(d, a, tmp, c1, b);
      MkApart(d, a, tmp, c1, Mk(d, b, n, c2, g));
      MkApart(d, b, n, c2, g);
    }

    method Swing(d: Side, tmp: Node, n: Node, ghost header: Node, ghost p: Path, ghost o: Path, ghost a: Tree,
                 ghost b: Tree, ghost g: Tree)
      requires Pieces(header, p, o, a, tmp, b, n, g)
      requires n.Child(Other(d)) == TopOf(g) && tmp.Child(d) == TopOf(a) && tmp.Child(Other(d)) == TopOf(b)
      requires Rep(a) && Rep(b) && Rep(g) && Chain(p, d, header.Child(d)) && Chain(o, Other(d), header.Child(Other(d)))
      modifies tmp, n
      ensures n.Child(d) == TopOf(b) && n.Child(Other(d)) == TopOf(g)
      ensures tmp.Child(d) == TopOf(a) && tmp.Child(Other(d)) == n
      ensures Rep(a) && Rep(b) && Rep(g) && Chain(p, d, header.Child(d)) && Chain(o, Other(d), header.Child(Other(d)))
    {
      hide Rep, Apart, PathApart, Nodes, PathNodes, Chain;
      n.SetChild(d, tmp.Child(Other(d)));
      tmp.SetChild(Other(d), n);
    }

    /** SPLAY_ROTATE_RIGHT when tmp is on side d = Left, SPLAY_ROTATE_LEFT when on Right. */
    method RotateRoot(d: Side, tmp: Node, ghost header: Node, ghost p: Path, ghost o: Path,
                      ghost a: Tree, ghost c1: Color, ghost b: Tree, ghost n: Node, ghost c2: Color, ghost g: Tree)
      requires Held(header, d, p, o, Mk(d, Mk(d, a, tmp, c1, b), n, c2, g))
      modifies this`root, nodes
      ensures Held(header, d, p, o, Mk(d, a, tmp, c1, Mk(d, b, n, c2, g)))
    {
      hide Mk, Rep, Chain, Parts;
      MkRep(d, Mk(d, a, tmp, c1, b), n, c2, g);
      MkRep(d, a, tmp, c1, b);
      RotatePieces(header, d, p, o, a, tmp, c1, b, n, c2, g);
      Swing(d, tmp, root, header, p, o, a, b, g);
      root := tmp;
      MkRep(d, b, n, c2, g);
      MkRep(d, a, tmp, c1, Mk(d, b, n, c2, g));
    }

    /** SPLAY_LINKLEFT when d is Left, SPLAY_LINKRIGHT when it is Right: the root joins
        the chain of side d, its own child on that side is the new root. */
    method LinkRoot(d: Side, last: Node, header: Node, ghost p: Path, ghost o: Path, ghost a: Tree, ghost n: Node,
                    ghost c: Color, ghost g: Tree)
        returns (tmp: Node)
      requires Held(header, d, p, o, Mk(d, a, n, c, g)) && last == Holder(p, header)
      modifies this`root, nodes, header
      ensures tmp == n && Held(header, d, Step(d, n, c, g, p), o, a)
    {
      hide Rep, Apart, PathApart, Nodes, PathNodes, Mk, Chain;
      MkRep(d, a, n, c, g);
      LinkParts(header, d, p, o, a, n, c, g);
      Hang(d, last, root, header, p, o, a, g);
      tmp := root;
      root := root.Child(d);
      Longer(p, d, header, n, c, g);
    }

    /** The open link of the chain on side d now leads to n. */
    method Hang(d: Side, last: Node, n: Node?, header: Node, ghost p: Path, ghost o: Path, ghost a: Tree, ghost g: Tree)
      requires Chain(p, d, header.Child(d)) && Chain(o, Other(d), header.Child(Other(d))) && Rep(a) && Rep(g)
      requires last == Holder(p, header)
      requires PathApart(p) && PathNodes(p) !! PathNodes(o) && PathNodes(p) + {header} !! Nodes(a) + Nodes(g)
      requires header !in PathNodes(p) + PathNodes(o) && PathNodes(p) + PathNodes(o) + Nodes(a) + Nodes(g) <= nodes
      requires n != null ==> n !in PathNodes(p) + {header}
      modifies last
      ensures Chain(p, d, header.Child(d)) && Chain(o, Other(d), header.Child(Other(d))) && Rep(a) && Rep(g)
      ensures last.Child(d) == n && header.Child(Other(d)) == old(header.Child(Other(d)))
      ensures n != null ==> n.left == old(n.left) && n.right == old(n.right)
    {
      hide Rep, Nodes, Apart;
      assert last in PathNodes(p) + {header};
      if p.Step? { LastApart(p); }
      last.SetChild(d, n);
    }

    lemma LinkParts(header: Node, d: Side, p: Path, o: Path, a: Tree, n: Node, c: Color, g: Tree)
      requires Parts(header, p, o, Mk(d, a, n, c, g))
      ensures Parts(header, Step(d, n, c, g, p), o, a)
      ensures PathNodes(Step(d, n, c, g, p)) == {n} + Nodes(g) + PathNodes(p)
      ensures n !in PathNodes(p) + PathNodes(o) + Nodes(a) + Nodes(g)
      ensures PathNodes(p) !! Nodes(g) + Nodes(a) + PathNodes(o)
      ensures PathApart(p)
    {
      hide Mk;
      MkApart(d, a, n, c, g);
    }

    lemma LastApart(p: Path)
      requires p.Step? && PathApart(p)
      ensures p.n !in PathNodes(p.up) && p.n !in Nodes(p.sib)
    {}

    lemma Longer(p: Path, d: Side, header: Node, n: Node, c: Color, g: Tree)
      requires Chain(p, d, header.Child(d)) && Holder(p, header).Child(d) == n
      requires n.Child(Other(d)) == TopOf(g) && Rep(g)
      ensures Chain(Step(d, n, c, g, p), d, header.Child(d))
    {}

    /** One turn of the loop of SPLAY towards side d: zig-zig rotates first; the root is
        then linked away, or the search ends there. */
    method Turn(d: Side, key: int, last: Node, header: Node, ghost p: Path, ghost o: Path, ghost t: Tree)
        returns (stop: bool, last': Node, ghost p': Path, ghost t': Tree)
      requires Held(header, d, p, o, t) && last == Holder(p, header) && t.Fork? && Ahead(d, key, t.n)
      modifies this`root, nodes, header
      ensures Held(header, d, p', o, t') && last' == Holder(p', header) && t'.Fork?
      ensures stop ==> p' == p && Ahead(d, key, t'.n) && Toward(d, t') == Leaf && InOrder(t') == InOrder(t)
      ensures !stop ==> p'.Step? && p'.d == d && p'.up == p && Ahead(d, key, p'.n) && Size(t') < Size(t)
      ensures !stop ==> InOrder(Mk(d, t', p'.n, p'.color, p'.sib)) == InOrder(t)
    {
      hide Parts, Rep, Chain;
      p', t', last' := p, t, last;
      RootLinks(header, d, p, o, t);
      var tmp := root.Child(d);
      if tmp == null {
        return true, last', p', t';
      }
      if Ahead(d, key, tmp) {
        ghost var s := Toward(d, t);
        ghost var a, b, g := Toward(d, s), Toward(Other(d), s), Toward(Other(d), t);
        ZigZig(d, a, tmp, s.color, b, t.n, t.color, g);
        RotateRoot(d, tmp, header, p, o, a, s.color, b, t.n, t.color, g);
        t' := Mk(d, a, tmp, s.color, Mk(d, b, t.n, t.color, g));
        RootLinks(header, d, p, o, t');
        if root.Child(d) == null {
          return true, last', p', t';
        }
      }
      ghost var w := t';
      last' := LinkRoot(d, last, header, p, o, Toward(d, w), w.n, w.color, Toward(Other(d), w));
      stop, p', t' := false, Step(d, w.n, w.color, Toward(Other(d), w), p), Toward(d, w);
    }

    lemma RootLinks(header: Node, d: Side, p: Path, o: Path, t: Tree)
      requires Held(header, d, p, o, t) && t.Fork?
      ensures root == t.n && root.Child(d) == TopOf(Toward(d, t))
    {}

    /** SPLAY_ASSEMBLE: the chains are closed with the root's subtrees and hung below it. */
    method Assemble(header: Node, left: Node, right: Node, ghost p: Path, ghost o: Path, ghost t: Tree)
      requires Held(header, Right, p, o, t) && t.Fork?
      requires left == Holder(p, header) && right == Holder(o, header)
      modifies nodes, header
      ensures root == t.n && Rep(Joined(p, t, o)) && Apart(Joined(p, t, o)) && Nodes(Joined(p, t, o)) == nodes
    {
      hide Rep, Nodes, PathNodes, Apart, PathApart, Plug, Chain;
      OpenUp(header, p, o, t);
      JoinedApart(p, t, o);
      CloseBoth(header, left, right, root, p, o, t.left, t.right);
      root.left := header.right;
      root.right := header.left;
      MkRep(Left, Plug(p, t.left), t.n, t.color, Plug(o, t.right));
    }

    lemma OpenUp(header: Node, p: Path, o: Path, t: Tree)
      requires Held(header, Right, p, o, t) && t.Fork?
      ensures root == t.n && root.left == TopOf(t.left) && root.right == TopOf(t.right) && Rep(t.left) && Rep(t.right)
      ensures Apart(t.left) && Apart(t.right) && Nodes(t.left) !! Nodes(t.right)
      ensures Nodes(t) == Nodes(t.left) + {t.n} + Nodes(t.right) && t.n !in Nodes(t.left) + Nodes(t.right)
    {}

    /** The first two lines of SPLAY_ASSEMBLE. */
    method CloseBoth(header: Node, left: Node, right: Node, n: Node, ghost p: Path, ghost o: Path, ghost l: Tree,
                     ghost r: Tree)
      requires Chain(p, Right, header.Child(Right)) && Chain(o, Left, header.Child(Left)) && Rep(l) && Rep(r)
      requires left == Holder(p, header) && right == Holder(o, header) && n.left == TopOf(l) && n.right == TopOf(r)
      requires PathApart(p) && PathApart(o) && PathNodes(p) !! PathNodes(o) && header !in PathNodes(p) + PathNodes(o)
      requires PathNodes(p) + PathNodes(o) + {header} !! Nodes(l) + Nodes(r) + {n}
      requires PathNodes(p) + PathNodes(o) + Nodes(l) + Nodes(r) <= nodes
      modifies left, right
      ensures header.right == TopOf(Plug(p, l)) && Rep(Plug(p, l)) && header.left == TopOf(Plug(o, r))
      ensures Rep(Plug(o, r))
    {
      hide Rep, Nodes, PathNodes, Apart, PathApart, Plug, Chain;
      TopInside(l);
      TopInside(r);
      Hang(Right, left, n.left, header, p, o, l, r);
      LinkAbove(p, header, o);
      Hang(Left, right, n.right, header, o, p, l, r);
      Closed(p, Right, header, l);
      Closed(o, Left, header, r);
    }

    lemma LinkAbove(p: Path, header: Node, o: Path)
      requires PathNodes(p) !! PathNodes(o) && header !in PathNodes(p) + PathNodes(o)
      ensures Holder(p, header) == Holder(o, header) ==> p.Top? && o.Top?
    {}

    /** The body of the loop of SPLAY, towards whichever side the key lies. */
    method Body(key: int, header: Node, left0: Node, right0: Node, ghost p0: Path, ghost o0: Path, ghost t0: Tree)
        returns (stop: bool, left: Node, right: Node, ghost p: Path, ghost o: Path, ghost t: Tree)
      requires Held(header, Right, p0, o0, t0) && left0 == Holder(p0, header) && right0 == Holder(o0, header)
      requires t0.Fork? && t0.n.key != key && Passed(key, p0, t0, o0) && Sorted(Line(p0, t0, o0))
      modifies this`root, nodes, header
      ensures Held(header, Right, p, o, t) && left == Holder(p, header) && right == Holder(o, header)
      ensures t.Fork? && Passed(key, p, t, o) && Line(p, t, o) == Line(p0, t0, o0)
      ensures stop ==> (key < t.n.key && t.left == Leaf) || (t.n.key < key && t.right == Leaf)
      ensures !stop ==> Size(t) < Size(t0)
    {
      hide Parts, Rep, Chain, Passed, Line, Sorted, InOrder, Size;
      left, right, p, o, t := left0, right0, p0, o0, t0;
      RootLinks(header, Right, p, o, t);
      var d := if key < root.key then Left else Right;
      if d == Left {
        OtherSide(header, Right, p, o, t);
        stop, right, o, t := Turn(Left, key, right, header, o, p, t);
        OtherSide(header, Left, o, p, t);
      } else {
        stop, left, p, t := Turn(Right, key, left, header, p, o, t);
      }
      TurnOrder(d, key, p0, t0, o0, stop, p, t, o);
    }

    /** SPLAY: the element with the key, or a neighbor of the place it would have, comes
        to the root; the elements and their order stay. */
    method Splay(key: int)
      requires Valid() && tree.Fork?
      modifies this`root, this`tree, nodes
      ensures Valid() && InOrder(tree) == old(InOrder(tree)) && Splayed(key, tree)
    {
      hide Held, Passed, Line, Sorted, InOrder, Size, Splayed;
      var header := new Node(0);
      var left, right := header, header;
      ghost var p, o, t, line := Top, Top, tree, InOrder(tree);
      Begin(header, key);
      RootLinks(header, Right, p, o, t);
      while root.key != key
        invariant Held(header, Right, p, o, t) && left == Holder(p, header) && right == Holder(o, header)
        invariant t.Fork? && root == t.n && Passed(key, p, t, o) && Line(p, t, o) == line
        decreases Size(t)
      {
        var stop;
        stop, left, right, p, o, t := Body(key, header, left, right, p, o, t);
        RootLinks(header, Right, p, o, t);
        if stop {
          break;
        }
      }
      Settle(key, header, left, right, p, o, t);
    }

    method Settle(key: int, header: Node, left: Node, right: Node, ghost p: Path, ghost o: Path, ghost t: Tree)
      requires Held(header, Right, p, o, t) && left == Holder(p, header) && right == Holder(o, header)
      requires t.Fork? && Passed(key, p, t, o) && Sorted(Line(p, t, o))
      requires key == t.n.key || (key < t.n.key && t.left == Leaf) || (t.n.key < key && t.right == Leaf)
      modifies this`tree, nodes, header
      ensures Valid() && InOrder(tree) == Line(p, t, o) && Splayed(key, tree)
    {
      hide Rep, Nodes, Apart, Chain, Passed, Line, Sorted, InOrder, Splayed, Plug;
      Assemble(header, left, right, p, o, t);
      JoinedOrder(key, p, t, o);
      tree := Joined(p, t, o);
    }

    /** SPLAY_FIND: the element with the key, now at the root, or null when there is none. */
    method Find(key: int) returns (found: Node?)
      requires Valid()
      modifies this`root, this`tree, nodes
      ensures Valid() && InOrder(tree) == old(InOrder(tree))
      ensures found != null ==> found in nodes && found.key == key && found == root
      ensures found == null ==> forall n | n in nodes :: n.key != key
    {
      if root == null {
        return null;
      }
      Splay(key);
      OnlyRoot(tree, key);
      return if root.key == key then root else null;
    }

    /** SPLAY_INSERT: null when elm went in, the element that already has its key otherwise. */
    method Insert(elm: Node) returns (found: Node?)
      requires Valid() && elm !in nodes
      modifies this, nodes, elm
      ensures Valid()
      ensures found == null <==> (forall n | n in old(nodes) :: n.key != elm.key)
      ensures found == null ==> nodes == old(nodes) + {elm}
      ensures found != null ==>
        nodes == old(nodes) && found in nodes && found.key == elm.key && InOrder(tree) == old(InOrder(tree))
    {
      if root == null {
        elm.left, elm.right := null, null;
        root, nodes, tree := elm, {elm}, Fork(Leaf, elm, Red, Leaf);
        return null;
      }
      Splay(elm.key);
      OnlyRoot(tree, elm.key);
      if root.key == elm.key {
        return root;
      }
      PutOnTop(elm, if elm.key < root.key then Left else Right);
      return null;
    }

    /** The root has been splayed for elm's key, which lies on its side d. */
    method PutOnTop(elm: Node, d: Side)
      requires Valid() && elm !in nodes && tree.Fork? && Splayed(elm.key, tree) && Ahead(d, elm.key, tree.n)
      modifies this, nodes, elm
      ensures Valid() && nodes == old(nodes) + {elm}
    {
      hide Mk, Rep, Nodes, Apart, InOrder, Sorted, Splayed;
      ghost var n, c, near, far := tree.n, tree.color, Toward(d, tree), Toward(Other(d), tree);
      Seen(d, tree);
      MkRep(d, near, n, c, far);
      MkApart(d, near, n, c, far);
      OnTopSorted(elm, d, n, c, near, far);
      elm.SetChild(d, root.Child(d));
      elm.SetChild(Other(d), root);
      root.SetChild(d, null);
      root := elm;
      nodes := nodes + {elm};
      NoTree();
      MkRep(d, Leaf, n, c, far);
      MkRep(d, near, elm, c, Mk(d, Leaf, n, c, far));
      MkApart(d, Leaf, n, c, far);
      MkApart(d, near, elm, c, Mk(d, Leaf, n, c, far));
      tree := Mk(d, near, elm, c, Mk(d, Leaf, n, c, far));
    }

    /** SPLAY_REMOVE: the element with elm's key, if there is one, goes; the others stay. */
    method Remove(elm: Node) returns (removed: Node?)
      requires Valid()
      modifies this, nodes
      ensures Valid()
      ensures removed == null || removed == elm
      ensures removed == null <==> (forall n | n in old(nodes) :: n.key != elm.key)
      ensures removed == null ==> nodes == old(nodes)
      ensures removed != null ==> exists x | x in old(nodes) && x.key == elm.key :: nodes == old(nodes) - {x}
    {
      if root == null {
        return null;
      }
      Splay(elm.key);
      OnlyRoot(tree, elm.key);
      if root.key != elm.key {
        return null;
      }
      TakeRoot(elm.key);
      return elm;
    }

    /** The root leaves: its left subtree, splayed once more, takes the right one below. */
    method TakeRoot(key: int)
      requires Valid() && tree.Fork? && tree.n.key == key
      modifies this, nodes
      ensures Valid() && nodes == old(nodes) - {old(tree).n}
    {
      hide InOrder, Sorted, Splayed;
      ghost var n, l, r := tree.n, tree.left, tree.right;
      Halves(tree);
      if root.left == null {
        root := root.right;
        tree, nodes := r, nodes - {n};
      } else {
        var tmp := root.right;
        root := root.left;
        tree, nodes := l, Nodes(l);
        Splay(key);
        Rejoin(tmp, key, n, l, r);
      }
    }

    /** The splayed left subtree has no right child and takes the right subtree there. */
    method Rejoin(tmp: Node?, key: int, ghost n: Node, ghost l: Tree, ghost r: Tree)
      requires Valid() && tree.Fork? && Splayed(key, tree) && InOrder(tree) == InOrder(l) && Nodes(l) == nodes
      requires tmp == TopOf(r) && Rep(r) && Apart(r) && Nodes(r) !! nodes && Sorted(InOrder(l) + [n] + InOrder(r))
      requires n.key == key
      modifies this, nodes
      ensures Valid() && nodes == old(nodes) + Nodes(r)
    {
      NothingRight(key, n, tree, InOrder(r));
      ghost var t := Fork(tree.left, tree.n, tree.color, r);
      root.right := tmp;
      tree := t;
      nodes := nodes + Nodes(r);
    }

    lemma Begin(header: Node, key: int)
      requires Valid() && tree.Fork? && header !in nodes
      ensures Held(header, Right, Top, Top, tree) && Passed(key, Top, tree, Top)
      ensures Line(Top, tree, Top) == InOrder(tree)
    {}
  }

  /** The key lies on side d of the node. */
  predicate Ahead(d: Side, key: int, n: Node) {
    if d == Left then key < n.key else n.key < key
  }

  lemma ZigZig(d: Side, a: Tree, tmp: Node, c1: Color, b: Tree, n: Node, c2: Color, g: Tree)
    ensures InOrder(Mk(d, a, tmp, c1, Mk(d, b, n, c2, g))) == InOrder(Mk(d, Mk(d, a, tmp, c1, b), n, c2, g))
    ensures Size(Mk(d, a, tmp, c1, Mk(d, b, n, c2, g))) == Size(Mk(d, Mk(d, a, tmp, c1, b), n, c2, g))
  {
    RotateOrder(d, a, tmp, c1, b, n, c2, g);
  }

  /** The tree at the end: the chains closed by the root's subtrees. */
  function Joined(p: Path, t: Tree, o: Path): Tree
    requires t.Fork?
  {
    Fork(Plug(p, t.left), t.n, t.color, Plug(o, t.right))
  }

  lemma TopInside(t: Tree)
    ensures TopOf(t) != null ==> TopOf(t) in Nodes(t)
  {}

  lemma {:induction false} PlugApart(p: Path, t: Tree)
    requires PathApart(p) && Apart(t) && Nodes(t) !! PathNodes(p)
    ensures Apart(Plug(p, t)) && Nodes(Plug(p, t)) == PathNodes(p) + Nodes(t)
  {
    if p.Step? {
      MkApart(p.d, t, p.n, p.color, p.sib);
      PlugApart(p.up, Mk(p.d, t, p.n, p.color, p.sib));
    }
  }

  lemma JoinedApart(p: Path, t: Tree, o: Path)
    requires t.Fork? && Apart(t) && PathApart(p) && PathApart(o) && PathNodes(p) !! PathNodes(o)
    requires Nodes(t) !! PathNodes(p) && Nodes(t) !! PathNodes(o)
    ensures Apart(Joined(p, t, o)) && Nodes(Joined(p, t, o)) == Nodes(t) + PathNodes(p) + PathNodes(o)
    ensures t.n !in Nodes(Plug(p, t.left)) && t.n !in Nodes(Plug(o, t.right))
  {
    PlugApart(p, t.left);
    PlugApart(o, t.right);
  }

  /** A chain whose open link leads to a linked tree is a linked tree below the header. */
  lemma {:induction false} Closed(p: Path, d: Side, header: Node, t: Tree)
    requires Chain(p, d, header.Child(d)) && Holder(p, header).Child(d) == TopOf(t) && Rep(t)
    ensures header.Child(d) == TopOf(Plug(p, t)) && Rep(Plug(p, t))
  {
    if p.Step? {
      MkRep(d, t, p.n, p.color, p.sib);
      Closed(p.up, d, header, Mk(d, t, p.n, p.color, p.sib));
    }
  }

  // The order and the key.

  function Line(p: Path, t: Tree, o: Path): seq<Node> {
    Before(p) + InOrder(t) + After(o)
  }

  /** What was linked away lies below and above the key. */
  ghost predicate Passed(key: int, p: Path, t: Tree, o: Path) {
    && After(p) == [] && Before(o) == []
    && (forall i :: 0 <= i < |Before(p)| ==> Before(p)[i].key < key)
    && (forall i :: 0 <= i < |After(o)| ==> key < After(o)[i].key)
  }

  lemma TurnOrder(d: Side, key: int, p0: Path, t0: Tree, o0: Path, stop: bool, p: Path, t: Tree, o: Path)
    requires Passed(key, p0, t0, o0) && Sorted(Line(p0, t0, o0))
    requires if d == Left then p == p0 else o == o0
    requires stop ==> p == p0 && o == o0 && InOrder(t) == InOrder(t0)
    requires !stop ==> Linked(d, key, if d == Left then o0 else p0, t0, if d == Left then o else p, t)
    ensures Passed(key, p, t, o) && Line(p, t, o) == Line(p0, t0, o0)
  {
    if !stop {
      var q, q0 := if d == Left then o else p, if d == Left then o0 else p0;
      LinkedOrder(d, q, t, InOrder(t0), p0, o0);
      Bounds(Before(p), InOrder(t), After(o), key);
    }
  }

  /** What a turn that does not stop does to the chain on its side. */
  ghost predicate Linked(d: Side, key: int, q0: Path, t0: Tree, q: Path, t: Tree) {
    && q.Step? && q.d == d && q.up == q0 && Ahead(d, key, q.n)
    && InOrder(Mk(d, t, q.n, q.color, q.sib)) == InOrder(t0)
  }

  lemma LinkedOrder(d: Side, q: Path, t: Tree, s: seq<Node>, p0: Path, o0: Path)
    requires q.Step? && q.d == d && q.up == (if d == Left then o0 else p0)
    requires InOrder(Mk(d, t, q.n, q.color, q.sib)) == s
    ensures if d == Left then Before(p0) + InOrder(t) + After(q) == Before(p0) + s + After(o0)
      else Before(q) + InOrder(t) + After(o0) == Before(p0) + s + After(o0)
  {
    Regroup(Before(p0), InOrder(t), [q.n], InOrder(q.sib), After(o0));
    Regroup(Before(p0), InOrder(q.sib), [q.n], InOrder(t), After(o0));
  }

  lemma JoinedOrder(key: int, p: Path, t: Tree, o: Path)
    requires t.Fork? && Passed(key, p, t, o)
    requires key == t.n.key || (key < t.n.key && t.left == Leaf) || (t.n.key < key && t.right == Leaf)
    ensures InOrder(Joined(p, t, o)) == Line(p, t, o) && Splayed(key, Joined(p, t, o))
  {
    PlugOrder(p, t.left);
    PlugOrder(o, t.right);
    var a, b := Before(p), After(o);
    assert a + InOrder(t.left) + [] == a + InOrder(t.left) && [] + InOrder(t.right) + b == InOrder(t.right) + b;
    Regroup(a, InOrder(t.left), [t.n], InOrder(t.right), b);
    Spread(a, InOrder(t.left), [t.n], InOrder(t.right), b);
  }

  lemma Spread<T>(a: seq<T>, l: seq<T>, n: seq<T>, r: seq<T>, b: seq<T>)
    ensures (a + l) + n + (r + b) == a + (l + n + r) + b
  {}

  /** The root has the key, or no element lies between the two. */
  ghost predicate Splayed(key: int, t: Tree) {
    && t.Fork?
    && (key < t.n.key ==> forall i :: 0 <= i < |InOrder(t.left)| ==> InOrder(t.left)[i].key < key)
    && (t.n.key < key ==> forall i :: 0 <= i < |InOrder(t.right)| ==> key < InOrder(t.right)[i].key)
  }

  /** After a splay only the root can have the key. */
  lemma OnlyRoot(t: Tree, key: int)
    requires Splayed(key, t) && Sorted(InOrder(t))
    ensures t.n in Nodes(t) && (t.n.key != key ==> forall n | n in Nodes(t) :: n.key != key)
  {
    var s, k := InOrder(t), |InOrder(t.left)|;
    assert s[k] == t.n;
    if t.n.key != key {
      forall n | n in Nodes(t)
        ensures n.key != key
      {
        NodesAreInOrder(t, n);
        var i :| 0 <= i < |s| && s[i] == n;
        assert i < k ==> s[i] == InOrder(t.left)[i];
        assert i > k ==> s[i] == InOrder(t.right)[i - k - 1];
      }
    }
  }

  lemma Seen(d: Side, t: Tree)
    requires t.Fork?
    ensures t == Mk(d, Toward(d, t), t.n, t.color, Toward(Other(d), t))
  {}

  lemma NoTree()
    ensures Nodes(Leaf) == {} && Apart(Leaf) && Rep(Leaf) && TopOf(Leaf) == null
  {}

  lemma OnTopSorted(elm: Node, d: Side, n: Node, c: Color, near: Tree, far: Tree)
    requires Sorted(InOrder(Mk(d, near, n, c, far))) && Splayed(elm.key, Mk(d, near, n, c, far)) && Ahead(d, elm.key, n)
    ensures Sorted(InOrder(Mk(d, near, elm, c, Mk(d, Leaf, n, c, far))))
  {
    hide Sorted;
    assert InOrder(Mk(d, Leaf, n, c, far)) == if d == Left then [] + [n] + InOrder(far) else InOrder(far) + [n] + [];
    if d == Left {
      LowSorted(InOrder(near), elm, n, InOrder(far));
    } else {
      HighSorted(InOrder(far), n, elm, InOrder(near));
    }
  }

  lemma LowSorted(a: seq<Node>, elm: Node, n: Node, b: seq<Node>)
    requires Sorted(a + [n] + b) && elm.key < n.key && forall i :: 0 <= i < |a| ==> a[i].key < elm.key
    ensures Sorted(a + [elm] + ([] + [n] + b))
  {
    hide Sorted;
    var c := [] + [n] + b;
    assert a + [n] + b == a + [] + c && a + [] + c == a + c;
    Bounds(a, [], c, elm.key);
    PlaceSorted(a, elm, c);
  }

  lemma HighSorted(b: seq<Node>, n: Node, elm: Node, a: seq<Node>)
    requires Sorted(b + [n] + a) && n.key < elm.key && forall i :: 0 <= i < |a| ==> elm.key < a[i].key
    ensures Sorted(b + [n] + [] + [elm] + a)
  {
    hide Sorted;
    var c := b + [n] + [];
    assert b + [n] + a == c + [] + a && c + [] + a == c + a;
    Bounds(c, [], a, elm.key);
    PlaceSorted(c, elm, a);
  }

  lemma Halves(t: Tree)
    requires t.Fork? && Sorted(InOrder(t))
    ensures InOrder(t) == InOrder(t.left) + [t.n] + InOrder(t.right)
    ensures Sorted(InOrder(t.left)) && Sorted(InOrder(t.right))
  {
    var s, k := InOrder(t), |InOrder(t.left)|;
    assert forall i :: 0 <= i < k ==> s[i] == InOrder(t.left)[i];
    assert forall i :: 0 <= i < |InOrder(t.right)| ==> s[k + 1 + i] == InOrder(t.right)[i];
  }

  lemma NothingRight(key: int, n: Node, t: Tree, r: seq<Node>)
    requires Splayed(key, t) && Sorted(InOrder(t) + [n] + r) && n.key == key
    ensures t.right == Leaf && Sorted(InOrder(t.left) + [t.n] + r)
  {
    var a, l, m := InOrder(t), InOrder(t.left), InOrder(t.right);
    hide Sorted;
    BelowKey(a, l, t.n, m, n, r);
    FirstRight(key, t);
    OneOut(a, n, r);
  }

  lemma FirstRight(key: int, t: Tree)
    requires Splayed(key, t)
    ensures t.right.Fork? ==> InOrder(t.right) != [] && (t.n.key < key ==> key < InOrder(t.right)[0].key)
    ensures t.right == Leaf ==> InOrder(t) == InOrder(t.left) + [t.n]
  {}

  lemma BelowKey(a: seq<Node>, l: seq<Node>, k: Node, m: seq<Node>, n: Node, r: seq<Node>)
    requires a == l + [k] + m && Sorted(a + [n] + r)
    ensures k.key < n.key && (m == [] || m[0].key < n.key)
  {
    var s := a + [n] + r;
    assert s[|a|] == n && s[|l|] == k;
    if m != [] { assert s[|l| + 1] == m[0]; }
  }
}
