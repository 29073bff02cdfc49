/** The remaining table operations of dht.c, and the facts that hold of the routing table
    after any run of operations from dht_init on. */
module TableRuns {
  import opened Numbers
  import opened Ids
  import opened Layout
  import opened Table
  import opened Wrappers
  import opened TableOps

  // Who is in the table, before and after new_node.

  ghost predicate Knows(bs: seq<Bucket>, id: Id) {
    exists n :: n in AllNodes(bs) && n.id == id
  }

  lemma {:induction false} WhereNodeIs(bs: seq<Bucket>, n: Node) returns (i: nat)
    requires n in AllNodes(bs)
    ensures i < |bs| && n in bs[i].nodes
  {
    if n in bs[0].nodes {
      i := 0;
    } else {
      var j := WhereNodeIs(bs[1..], n);
      i := j + 1;
    }
  }

  lemma NodeIsIn(bs: seq<Bucket>, i: nat, n: Node)
    requires i < |bs| && n in bs[i].nodes
    ensures n in AllNodes(bs)
  {
    hide AllNodes;
    AllNodesAround(bs, i);
  }

  /** A node is in the bucket find_bucket gives for its id. */
  lemma NodeIsHome(my: Id, bs: seq<Bucket>, n: Node)
    requires TableOk(my, bs) && n in AllNodes(bs)
    ensures n in bs[FindBucket(bs, n.id)].nodes && n.id != my
  {
    var i := WhereNodeIs(bs, n);
    assert BucketOk(my, bs, i);
    var a :| 0 <= a < |bs[i].nodes| && bs[i].nodes[a] == n;
    InBucketIsLabel(my, bs, i, n.id);
    FindIsLabel(my, bs, n.id);
  }

  lemma HomeIs(my: Id, bs: seq<Bucket>, i: nat, n: Node)
    requires TableOk(my, bs) && i < |bs| && n in bs[i].nodes
    ensures FindBucket(bs, n.id) == i
  {
    assert BucketOk(my, bs, i);
    var a :| 0 <= a < |bs[i].nodes| && bs[i].nodes[a] == n;
    InBucketIsLabel(my, bs, i, n.id);
    FindIsLabel(my, bs, n.id);
  }

  lemma SameBucket(my: Id, bs: seq<Bucket>, a: Id, b: Id)
    requires TableOk(my, bs) && |bs| > 0
    ensures FindBucket(bs, a) == FindBucket(bs, b) <==> Min(Common(a, my), |bs| - 1) == Min(Common(b, my), |bs| - 1)
  {
    hide FindBucket, Common, TableOk, ShapeOk, Min, InBucket;
    FoundBucket(my, bs, a);
    OrderIsPermutation(my, |bs| - 1);
    FindIsLabel(my, bs, a);
    FindIsLabel(my, bs, b);
  }

  /** Ids that share a bucket shared it when the table was less deep. */
  lemma SharedBefore(my: Id, bs: seq<Bucket>, c: seq<Bucket>, a: Id, b: Id)
    requires TableOk(my, bs) && TableOk(my, c) && 0 < |bs| <= |c| && FindBucket(c, a) == FindBucket(c, b)
    ensures FindBucket(bs, a) == FindBucket(bs, b)
  {
    hide TableOk, FindBucket, Common;
    SameBucket(my, bs, a, b);
    SameBucket(my, c, a, b);
  }

  lemma UpdateNodes(bs: seq<Bucket>, i: nat, b: Bucket, n: Node)
    requires i < |bs|
    ensures n in AllNodes(bs[i := b]) ==> n in b.nodes || n in AllNodes(bs)
    ensures n in AllNodes(bs) ==> n in bs[i].nodes || n in AllNodes(bs[i := b])
    ensures n in b.nodes ==> n in AllNodes(bs[i := b])
  {
    hide AllNodes;
    AllNodesAround(bs, i);
    AllNodesUpdate(bs, i, b);
  }

  /** A full foreign bucket stays full. */
  lemma UpdateFullForeign(my: Id, bs: seq<Bucket>, i: nat, b: Bucket, id: Id)
    requires i < |bs| && b.first == bs[i].first && b.maxCount == bs[i].maxCount && b.count >= bs[i].count
    requires FullForeign(my, bs, id)
    ensures FullForeign(my, bs[i := b], id)
  {
    hide InBucket;
    var j: nat :| FullForeignAt(my, bs, id, j);
    SameFirsts(bs, i, b, j, id);
    SameFirsts(bs, i, b, j, my);
    assert FullForeignAt(my, bs[i := b], id, j);
  }

  lemma SplitFullForeign(my: Id, bs: seq<Bucket>, i: nat, id: Id)
    requires ShapeOk(my, bs) && i < |bs| && SplitBucket(my, bs, i).Some? && FullForeign(my, bs, id)
    ensures FullForeign(my, SplitBucket(my, bs, i).value.0, id)
  {
    hide FullForeign, InBucket;
    SplitHelperShape(my, bs, i);
    var r := SplitHelper(my, bs, i).value;
    FullForeignKeptBySplit(my, bs, i, r.0, id);
    FullForeignKept(my, r.0, r.1, id);
  }

  // What a pass without a split leaves of the table, node by node.

  /** One node of the table is replaced, in its place. */
  lemma ReplaceOne(bs: seq<Bucket>, i: nat, k: nat, b: Bucket, n: Node) returns (p: nat)
    requires i < |bs| && k < |bs[i].nodes| && b.nodes == bs[i].nodes[k := n]
    ensures p < |AllNodes(bs)| && AllNodes(bs)[p] == bs[i].nodes[k] && AllNodes(bs[i := b]) == AllNodes(bs)[p := n]
  {
    hide AllNodes;
    AllNodesAround(bs, i);
    AllNodesUpdate(bs, i, b);
    p := |AllNodes(bs[..i])| + k;
    var l, r := AllNodes(bs[..i]), AllNodes(bs[i + 1..]);
    assert l + bs[i].nodes[k := n] + r == (l + bs[i].nodes + r)[p := n];
  }

  lemma PushOne(bs: seq<Bucket>, i: nat, b: Bucket, n: Node) returns (p: nat)
    requires i < |bs| && b.nodes == [n] + bs[i].nodes
    ensures p <= |AllNodes(bs)| && AllNodes(bs[i := b]) == AllNodes(bs)[..p] + [n] + AllNodes(bs)[p..]
  {
    hide AllNodes;
    AllNodesAround(bs, i);
    AllNodesUpdate(bs, i, b);
    p := |AllNodes(bs[..i])|;
    var l, c, r := AllNodes(bs[..i]), bs[i].nodes, AllNodes(bs[i + 1..]);
    assert (l + c + r)[..p] == l && (l + c + r)[p..] == c + r;
    assert l + ([n] + c) + r == l + [n] + (c + r);
  }

  ghost predicate SameIds(a: seq<Node>, b: seq<Node>) {
    |a| == |b| && forall k :: 0 <= k < |a| ==> a[k].id == b[k].id
  }

  lemma SameIdsUpdate(bs: seq<Bucket>, i: nat, b: Bucket)
    requires i < |bs| && SameIds(bs[i].nodes, b.nodes)
    ensures SameIds(AllNodes(bs), AllNodes(bs[i := b]))
  {
    hide AllNodes;
    AllNodesAround(bs, i);
    AllNodesUpdate(bs, i, b);
  }

  /** The outcome of a call without a split: the ids stay, or the new node takes the place of
      one that is known to be bad, or it comes in addition. */
  ghost predicate InPlace(bs: seq<Bucket>, r: seq<Bucket>, w: News, p: nat)
    requires |bs| > 0
  {
    var old_, new_, n := AllNodes(bs), AllNodes(r), Fresh(w.id, w.addr, w.confirm, w.now);
    || SameIds(old_, new_)
    || (p < |old_| && !Knows(bs, w.id) && Passes(Bad(w.now), old_[p]) &&
      FindBucket(bs, old_[p].id) == FindBucket(bs, w.id)
        && new_ == old_[p := n])
    || (p <= |old_| && !Knows(bs, w.id) && new_ == old_[..p] + [n] + old_[p..])
  }

  /** Where the node with the id is, if there is one. */
  lemma HomePlace(my: Id, bs: seq<Bucket>, id: Id)
    requires TableOk(my, bs)
    ensures |bs| > 0
    ensures Knows(bs, id) <==> First(HasId(id), bs[FindBucket(bs, id)].nodes, 0) < |bs[FindBucket(bs, id)].nodes|
  {
    hide AllNodes;
    assert |bs| > 0 by { FoundBucket(my, bs, id); }
    var i := FindBucket(bs, id);
    var k := First(HasId(id), bs[i].nodes, 0);
    if k < |bs[i].nodes| {
      NodeIsIn(bs, i, bs[i].nodes[k]);
    } else if Knows(bs, id) {
      var n :| n in AllNodes(bs) && n.id == id;
      NodeIsHome(my, bs, n);
    }
  }

  lemma PassInPlace(my: Id, bs: seq<Bucket>, w: News) returns (p: nat)
    requires TableOk(my, bs) && |bs| > 0 && NewNodePass(my, bs, w).Finished?
    ensures InPlace(bs, NewNodePass(my, bs, w).bs, w, p)
  {
    hide AllNodes, InBucket, SplitBucket, ShapeOk, BucketOk, Knows, Quota;
    var i, r, m := FindBucket(bs, w.id), NewNodePass(my, bs, w).bs, Fresh(w.id, w.addr, w.confirm, w.now);
    var nodes := bs[i].nodes;
    var known, bad := First(HasId(w.id), nodes, 0), First(Bad(w.now), nodes, 0);
    p := 0;
    FoundBucket(my, bs, w.id);
    HomePlace(my, bs, w.id);
    assert bs[i := bs[i]] == bs;
    if w.id == my || w.rejected || known < |nodes| || (bad == |nodes| && bs[i].count >= bs[i].maxCount) {
      assert SameIds(nodes, r[i].nodes);
      SameIdsUpdate(bs, i, r[i]);
    } else if bad < |nodes| {
      p := ReplaceOne(bs, i, bad, r[i], m);
      HomeIs(my, bs, i, nodes[bad]);
    } else {
      p := PushOne(bs, i, r[i], m);
    }
  }

  // What becomes of a node n of the table in one pass through new_node.

  /** n is still there, the very same when the pass starts again, else at least its id. Or
      it was in the bucket of w: known to be bad when the pass ends, and when the pass starts
      again, in our own bucket before and a full one that is not ours after. */
  ghost predicate Accounted(my: Id, bs: seq<Bucket>, w: News, n: Node, p: Pass)
    requires |bs| > 0
  {
    || (if p.Again? then n in AllNodes(p.bs) else Knows(p.bs, n.id))
    || (FindBucket(bs, n.id) == FindBucket(bs, w.id) &&
        if p.Again? then FullForeign(my, p.bs, n.id) else Passes(Bad(w.now), n))
  }

  lemma SplitKeeps(my: Id, bs: seq<Bucket>, i: nat, b: Bucket, id: Id, n: Node)
    requires TableOk(my, bs) && i < |bs| && InBucket(bs, i, my) && InBucket(bs, i, id)
    requires bs[i].count >= bs[i].maxCount && id != my
    requires forall a :: 0 <= a < |bs[i].nodes| ==> bs[i].nodes[a].id != id
    requires b == bs[i].(time := b.time) && n in AllNodes(bs)
    ensures ShapeOk(my, bs[i := b]) && SplitBucket(my, bs[i := b], i).Some?
    ensures var r := SplitBucket(my, bs[i := b], i).value;
      n in AllNodes(r.0) || (FullForeign(my, r.0, n.id) && n in bs[i].nodes)
  {
    hide AllNodes, InBucket, FullForeign, ShapeOk, BucketOk;
    SameIdsOk(my, bs, i, b);
    SameFirsts(bs, i, b, i, my);
    SameFirsts(bs, i, b, i, id);
    UpdateNodes(bs, i, b, n);
    SplitBucketOk(my, bs[i := b], i, id);
    var r := SplitBucket(my, bs[i := b], i).value;
    assert n in AllNodes(bs[i := b]);
    InEither(AllNodes(r.0), r.1, AllNodes(bs[i := b]), n);
    if n !in bs[i].nodes { SplitKeepsOthers(my, bs[i := b], i, n); }
  }

  lemma SplitKeepsOthers(my: Id, bs: seq<Bucket>, i: nat, n: Node)
    requires TableOk(my, bs) && i < |bs| && InBucket(bs, i, my) && n in AllNodes(bs) && n !in bs[i].nodes
    requires SplitBucket(my, bs, i).Some?
    ensures n in AllNodes(SplitBucket(my, bs, i).value.0)
  {
    hide AllNodes, InBucket, SplitHelper, SplitLoop, ShapeOk, BucketOk, ForeignNode;
    var j := WhereNodeIs(bs, n);
    FoundBucket(my, bs, my);
    FindIsLabel(my, bs, my);
    ForeignHere(my, bs, n, j);
    SplitHelperShape(my, bs, i);
    var r := SplitHelper(my, bs, i).value;
    ForeignKeptBySplit(my, bs, i, r.0, n);
    ForeignKept(my, r.0, r.1, n);
    ForeignIsIn(my, SplitLoop(my, r.0, r.1).0, n);
  }

  lemma ForeignHere(my: Id, bs: seq<Bucket>, n: Node, i: nat)
    requires ForeignNodeAt(my, bs, n, i)
    ensures ForeignNode(my, bs, n)
  {}

  lemma ForeignIsIn(my: Id, bs: seq<Bucket>, n: Node)
    requires ForeignNode(my, bs, n)
    ensures n in AllNodes(bs)
  {
    hide AllNodes, InBucket;
    var i: nat :| ForeignNodeAt(my, bs, n, i);
    NodeIsIn(bs, i, n);
  }

  lemma InEither(a: seq<Node>, b: seq<Node>, c: seq<Node>, n: Node)
    requires multiset(a) + multiset(b) == multiset(c) && n in c
    ensures n in a || n in b
  {
    assert n in multiset(c);
  }

  /** Where a pass leaves the table when the id is new and the bucket is full. */
  ghost predicate NoRoom(bs: seq<Bucket>, w: News)
    requires |bs| > 0
  {
    var b := bs[FindBucket(bs, w.id)];
    First(HasId(w.id), b.nodes, 0) == |b.nodes| && First(Bad(w.now), b.nodes, 0) == |b.nodes| && b.count >= b.maxCount
  }

  lemma KnowsNode(bs: seq<Bucket>, n: Node)
    requires n in AllNodes(bs)
    ensures Knows(bs, n.id)
  {}

  lemma NoneHasId(nodes: seq<Node>, id: Id)
    requires First(HasId(id), nodes, 0) == |nodes|
    ensures forall a :: 0 <= a < |nodes| ==> nodes[a].id != id
  {
    assert forall a :: 0 <= a < |nodes| ==> !Passes(HasId(id), nodes[a]);
  }

  lemma InPlaceKeeps(bs: seq<Bucket>, r: seq<Bucket>, w: News, p: nat, n: Node)
    requires |bs| > 0 && InPlace(bs, r, w, p) && n in AllNodes(bs)
    ensures Knows(r, n.id) || (FindBucket(bs, n.id) == FindBucket(bs, w.id) && Passes(Bad(w.now), n))
  {
    hide AllNodes, FindBucket;
    var old_, new_ := AllNodes(bs), AllNodes(r);
    var k: nat :| k < |old_| && old_[k] == n;
    if SameIds(old_, new_) {
      assert new_[k].id == n.id;
    } else if |new_| == |old_| {
      if k != p { assert new_[k] == n; }
    } else {
      assert new_[if k < p then k else k + 1] == n;
    }
  }

  lemma AgainKeeps(my: Id, bs: seq<Bucket>, w: News, n: Node)
    requires TableOk(my, bs) && |bs| > 0 && n in AllNodes(bs) && NewNodePass(my, bs, w).Again?
    ensures Accounted(my, bs, w, n, NewNodePass(my, bs, w))
  {
    hide AllNodes, FullForeign, InBucket, Knows, BucketOk, SplitBucket, Passes;
    var i := FindBucket(bs, w.id);
    var b := Touched(bs[i], w);
    FindIsLabel(my, bs, w.id);
    NoneHasId(b.nodes, w.id);
    SplitKeeps(my, bs, i, b, w.id, n);
    if n in bs[i].nodes { HomeIs(my, bs, i, n); }
  }

  lemma PassKeeps(my: Id, bs: seq<Bucket>, w: News, n: Node)
    requires TableOk(my, bs) && |bs| > 0 && n in AllNodes(bs)
    ensures Accounted(my, bs, w, n, NewNodePass(my, bs, w))
  {
    hide AllNodes, InPlace, FullForeign, Knows, BucketOk, ShapeOk, NewNodePass, Passes;
    if NewNodePass(my, bs, w).Again? {
      AgainKeeps(my, bs, w, n);
    } else {
      var p := PassInPlace(my, bs, w);
      InPlaceKeeps(bs, NewNodePass(my, bs, w).bs, w, p, n);
    }
  }

  lemma PassFullForeign(my: Id, bs: seq<Bucket>, w: News, id: Id)
    requires TableOk(my, bs) && FullForeign(my, bs, id)
    ensures FullForeign(my, NewNodePass(my, bs, w).bs, id)
  {
    hide FullForeign, InBucket;
    if w.id != my && !w.rejected {
      var i := FindBucket(bs, w.id);
      var b := Touched(bs[i], w);
      UpdateShape(my, bs, i, b);
      UpdateFullForeign(my, bs, i, b, id);
      var p := NewNodePass(my, bs, w);
      if p.Again? {
        SplitFullForeign(my, bs[i := b], i, id);
      } else {
        assert p.bs == bs[i := p.bs[i]] && p.bs[i].first == b.first && p.bs[i].maxCount == b.maxCount;
        UpdateFullForeign(my, bs, i, p.bs[i], id);
      }
    }
  }

  /** new_node drops a node only from the bucket of the id it learns: without a split one
      that is known to be bad, and with a split, which was one of our own bucket then, one
      whose bucket is now full and not ours. */
  lemma {:induction false} NewNodeKeeps(my: Id, bs: seq<Bucket>, w: News, n: Node)
    requires TableOk(my, bs) && |bs| > 0 && n in AllNodes(bs)
    ensures var r, i := NewNode(my, bs, w).0, FindBucket(bs, w.id);
      || Knows(r, n.id)
      || (FindBucket(bs, n.id) == i &&
          if |r| == |bs| then Passes(Bad(w.now), n) else InBucket(bs, i, my) && FullForeign(my, r, n.id))
    decreases MAX_DEPTH + 1 - |bs|
  {
    hide FullForeign, AllNodes, NewNodePass, Knows, ShapeOk, BucketOk, Passes, InBucket;
    var p := NewNodePass(my, bs, w);
    PassOk(my, bs, w);
    PassKeeps(my, bs, w, n);
    if p.Again? {
      NewNodeDeepens(my, p.bs, w);
      AgainIsOurs(my, bs, w, n);
      if n in AllNodes(p.bs) {
        NewNodeKeeps(my, p.bs, w, n);
        if FindBucket(p.bs, n.id) == FindBucket(p.bs, w.id) { SharedBefore(my, bs, p.bs, n.id, w.id); }
      } else {
        NewNodeFullForeign(my, p.bs, w, n.id);
      }
    }
  }

  /** Only a bucket of ours without a bad node is split. */
  lemma AgainIsOurs(my: Id, bs: seq<Bucket>, w: News, n: Node)
    requires TableOk(my, bs) && |bs| > 0 && n in AllNodes(bs) && NewNodePass(my, bs, w).Again?
    ensures InBucket(bs, FindBucket(bs, w.id), my)
    ensures FindBucket(bs, n.id) == FindBucket(bs, w.id) ==> !Passes(Bad(w.now), n)
  {
    hide AllNodes, SplitBucket, InBucket;
    var i := FindBucket(bs, w.id);
    if FindBucket(bs, n.id) == i {
      NodeIsHome(my, bs, n);
      var nodes := Touched(bs[i], w).nodes;
      var a :| 0 <= a < |nodes| && nodes[a] == n;
      assert !Passes(Dubious(w.now), nodes[a]);
    }
  }

  lemma {:induction false} NewNodeFullForeign(my: Id, bs: seq<Bucket>, w: News, id: Id)
    requires TableOk(my, bs) && FullForeign(my, bs, id)
    ensures FullForeign(my, NewNode(my, bs, w).0, id)
    decreases MAX_DEPTH + 1 - |bs|
  {
    hide FullForeign, AllNodes, NewNodePass;
    var p := NewNodePass(my, bs, w);
    PassOk(my, bs, w);
    PassFullForeign(my, bs, w, id);
    if p.Again? { NewNodeFullForeign(my, p.bs, w, id); }
  }

  /** Without a split at most one node goes: it was known to be bad, in the bucket of the id
      that is learnt, and the new node takes its place. */
  lemma NewNodeInPlace(my: Id, bs: seq<Bucket>, w: News) returns (p: nat)
    requires TableOk(my, bs) && |bs| > 0 && |NewNode(my, bs, w).0| == |bs|
    ensures InPlace(bs, NewNode(my, bs, w).0, w, p)
  {
    hide NewNodePass, ShapeOk, BucketOk, InPlace;
    PassOk(my, bs, w);
    if NewNodePass(my, bs, w).Again? {
      NewNodeDeepens(my, NewNodePass(my, bs, w).bs, w);
    } else {
      p := PassInPlace(my, bs, w);
    }
  }

  // What new_node answers.

  lemma UpdateOnlyAdds(bs: seq<Bucket>, i: nat, b: Bucket, id: Id, n: Node)
    requires i < |bs| && n in AllNodes(bs[i := b])
    requires forall a :: 0 <= a < |b.nodes| ==>
      b.nodes[a].id == id || exists c :: 0 <= c < |bs[i].nodes| && bs[i].nodes[c].id == b.nodes[a].id
    ensures n.id == id || Knows(bs, n.id)
  {
    hide AllNodes;
    UpdateNodes(bs, i, b, n);
    if n in b.nodes && n.id != id {
      var a :| 0 <= a < |b.nodes| && b.nodes[a] == n;
      var c :| 0 <= c < |bs[i].nodes| && bs[i].nodes[c].id == b.nodes[a].id;
      NodeIsIn(bs, i, bs[i].nodes[c]);
    }
  }

  lemma SplitOnlyKeeps(my: Id, bs: seq<Bucket>, i: nat, b: Bucket, id: Id, n: Node)
    requires TableOk(my, bs) && i < |bs| && InBucket(bs, i, my) && InBucket(bs, i, id)
    requires bs[i].count >= bs[i].maxCount && id != my
    requires forall a :: 0 <= a < |bs[i].nodes| ==> bs[i].nodes[a].id != id
    requires b == bs[i].(time := b.time)
    requires ShapeOk(my, bs[i := b]) && SplitBucket(my, bs[i := b], i).Some?
    requires n in AllNodes(SplitBucket(my, bs[i := b], i).value.0)
    ensures n in AllNodes(bs)
  {
    hide AllNodes, InBucket, FullForeign;
    SameIdsOk(my, bs, i, b);
    SameFirsts(bs, i, b, i, my);
    SameFirsts(bs, i, b, i, id);
    SplitBucketOk(my, bs[i := b], i, id);
    var r := SplitBucket(my, bs[i := b], i).value;
    assert n in multiset(AllNodes(r.0));
    assert n in multiset(AllNodes(bs[i := b]));
    UpdateNodes(bs, i, b, n);
    if n in b.nodes { NodeIsIn(bs, i, n); }
  }

  lemma PassOnlyAdds(my: Id, bs: seq<Bucket>, w: News, n: Node)
    requires TableOk(my, bs) && n in AllNodes(NewNodePass(my, bs, w).bs)
    ensures n.id == w.id || Knows(bs, n.id)
  {
    hide AllNodes, InBucket, Knows;
    var i := FindBucket(bs, w.id);
    if NoRoom(bs, w) && w.id != my && !w.rejected {
      FullPassOnlyAdds(my, bs, w, n);
    } else if w.id == my || w.rejected {
      KnowsNode(bs, n);
    } else {
      UpdateOnlyAdds(bs, i, NewNodePass(my, bs, w).bs[i], w.id, n);
    }
  }

  lemma FullPassOnlyAdds(my: Id, bs: seq<Bucket>, w: News, n: Node)
    requires TableOk(my, bs) && n in AllNodes(NewNodePass(my, bs, w).bs)
    requires NoRoom(bs, w) && w.id != my && !w.rejected
    ensures Knows(bs, n.id)
  {
    hide AllNodes, InBucket, Knows, TableOk, SplitBucket;
    assert |bs| > 0 by { FoundBucket(my, bs, w.id); }
    var i := FindBucket(bs, w.id);
    var b := Touched(bs[i], w);
    FoundBucket(my, bs, w.id);
    assert forall a :: 0 <= a < |b.nodes| ==> !Passes(HasId(w.id), b.nodes[a]);
    if InBucket(bs, i, my) && First(Dubious(w.now), b.nodes, 0) == |b.nodes| {
      TouchedSplitOk(my, bs, i, b, w.id);
      SplitOnlyKeeps(my, bs, i, b, w.id, n);
      KnowsNode(bs, n);
    } else {
      SameIdsOnly(bs, i, Remember(PingDubious(b, w.now), w), n);
    }
  }

  lemma SameIdsOnly(bs: seq<Bucket>, i: nat, b: Bucket, n: Node)
    requires i < |bs| && n in AllNodes(bs[i := b])
    requires |b.nodes| == |bs[i].nodes| && forall a :: 0 <= a < |b.nodes| ==> b.nodes[a].id == bs[i].nodes[a].id
    ensures Knows(bs, n.id)
  {
    hide AllNodes;
    UpdateNodes(bs, i, b, n);
    if n in b.nodes {
      var a :| 0 <= a < |b.nodes| && b.nodes[a] == n;
      NodeIsIn(bs, i, bs[i].nodes[a]);
    }
  }

  /** No id enters the table but the one that was learnt. */
  lemma {:induction false} NewNodeOnlyAdds(my: Id, bs: seq<Bucket>, w: News, n: Node)
    requires TableOk(my, bs) && n in AllNodes(NewNode(my, bs, w).0)
    ensures n.id == w.id || Knows(bs, n.id)
    decreases MAX_DEPTH + 1 - |bs|
  {
    hide AllNodes, NewNodePass;
    var p := NewNodePass(my, bs, w);
    PassOk(my, bs, w);
    if p.Again? {
      NewNodeOnlyAdds(my, p.bs, w, n);
      if n.id != w.id {
        var k :| k in AllNodes(p.bs) && k.id == n.id;
        PassOnlyAdds(my, bs, w, k);
      }
    } else {
      PassOnlyAdds(my, bs, w, n);
    }
  }

  lemma PassAnswer(my: Id, bs: seq<Bucket>, w: News)
    requires TableOk(my, bs) && w.id != my && !w.rejected && NewNodePass(my, bs, w).Finished?
    ensures NewNodePass(my, bs, w).node <==> Knows(NewNodePass(my, bs, w).bs, w.id)
  {
    hide AllNodes, InBucket;
    var i, p := FindBucket(bs, w.id), NewNodePass(my, bs, w);
    if p.node {
      var nodes := bs[i].nodes;
      var known, bad := First(HasId(w.id), nodes, 0), First(Bad(w.now), nodes, 0);
      var a := if known < |nodes| then known else if bad < |nodes| then bad else 0;
      NodeIsIn(p.bs, i, p.bs[i].nodes[a]);
    } else if Knows(p.bs, w.id) {
      var n :| n in AllNodes(p.bs) && n.id == w.id;
      FullPassOnlyAdds(my, bs, w, n);
      var m :| m in AllNodes(bs) && m.id == w.id;
      NodeIsHome(my, bs, m);
    }
  }

  /** new_node returns a node exactly when it took the sender and the id is in the table
      afterwards; our own id and a rejected address leave the table as it was. */
  lemma {:induction false} NewNodeAnswer(my: Id, bs: seq<Bucket>, w: News)
    requires TableOk(my, bs)
    ensures NewNode(my, bs, w).1 <==> w.id != my && !w.rejected && Knows(NewNode(my, bs, w).0, w.id)
    ensures w.id == my || w.rejected ==> NewNode(my, bs, w) == (bs, false)
    decreases MAX_DEPTH + 1 - |bs|
  {
    hide AllNodes, NewNodePass, Knows;
    PassOk(my, bs, w);
    if w.id == my || w.rejected {
      RejectedPass(my, bs, w);
    } else if NewNodePass(my, bs, w).Again? {
      NewNodeAnswer(my, NewNodePass(my, bs, w).bs, w);
    } else {
      PassAnswer(my, bs, w);
    }
  }

  lemma RejectedPass(my: Id, bs: seq<Bucket>, w: News)
    requires ShapeOk(my, bs) && (w.id == my || w.rejected)
    ensures NewNodePass(my, bs, w) == Finished(bs, false)
  {}

  // What new_node records.

  /** What a message tells about its sender: a confirmed node is recent and has the address
      it was heard from, one that replied is good. */
  predicate Recorded(n: Node, w: News) {
    && (w.confirm != 0 ==> n.time == w.now && n.addr == w.addr)
    && (w.confirm >= 2 ==> n.replyTime == w.now && n.pinged == 0 && Good(n, w.now))
  }

  lemma PassRecords(my: Id, bs: seq<Bucket>, w: News, n: Node)
    requires TableOk(my, bs) && w.id != my && !w.rejected && NewNodePass(my, bs, w).Finished?
    requires NewNodePass(my, bs, w).node
    requires n in AllNodes(NewNodePass(my, bs, w).bs) && n.id == w.id
    ensures Recorded(n, w)
  {
    hide AllNodes, InBucket, ShapeOk;
    PassOk(my, bs, w);
    assert |bs| > 0 by { FoundBucket(my, bs, w.id); }
    var i, p := FindBucket(bs, w.id), NewNodePass(my, bs, w);
    var nodes := bs[i].nodes;
    var known, bad := First(HasId(w.id), nodes, 0), First(Bad(w.now), nodes, 0);
    var a := if known < |nodes| then known else if bad < |nodes| then bad else 0;
    assert Recorded(p.bs[i].nodes[a], w) && p.bs[i].nodes[a].id == w.id;
    NodeIsIn(p.bs, i, p.bs[i].nodes[a]);
    OneNodePerId(my, p.bs, n, p.bs[i].nodes[a]);
  }

  lemma OneNodePerId(my: Id, bs: seq<Bucket>, n: Node, m: Node)
    requires TableOk(my, bs) && n in AllNodes(bs) && m in AllNodes(bs) && n.id == m.id
    ensures n == m
  {
    hide AllNodes;
    NodeIsHome(my, bs, n);
    NodeIsHome(my, bs, m);
    var i := FindBucket(bs, n.id);
    assert BucketOk(my, bs, i);
  }

  /** When new_node returns a node, the table's node with that id carries the news. */
  lemma {:induction false} NewNodeRecords(my: Id, bs: seq<Bucket>, w: News, n: Node)
    requires TableOk(my, bs) && w.id != my && !w.rejected && NewNode(my, bs, w).1
    requires n in AllNodes(NewNode(my, bs, w).0) && n.id == w.id
    ensures Recorded(n, w)
    decreases MAX_DEPTH + 1 - |bs|
  {
    hide AllNodes, NewNodePass, Recorded;
    PassOk(my, bs, w);
    if NewNodePass(my, bs, w).Again? {
      NewNodeRecords(my, NewNodePass(my, bs, w).bs, w, n);
    } else {
      PassRecords(my, bs, w, n);
    }
  }

  /** Every other node is as it was, or is a dubious one that was pinged just now. */
  ghost predicate Untouched(bs: seq<Bucket>, n: Node, now: int) {
    n in AllNodes(bs) || exists m :: m in AllNodes(bs) && PingedFrom(m, n, now)
  }

  predicate PingedFrom(m: Node, n: Node, now: int) {
    Passes(Pingable(now), m) && n == m.(pinged := m.pinged + 1, pingedTime := now)
  }

  lemma UpdatedOthers(bs: seq<Bucket>, i: nat, b: Bucket, k: nat, n: Node, now: int)
    requires i < |bs| && n in AllNodes(bs[i := b]) && k < |b.nodes| == |bs[i].nodes|
    requires forall a :: 0 <= a < |b.nodes| && a != k ==> b.nodes[a] == bs[i].nodes[a]
    requires n.id == b.nodes[k].id ==> PingedFrom(bs[i].nodes[k], b.nodes[k], now) || n != b.nodes[k]
    ensures Untouched(bs, n, now)
  {
    hide AllNodes, PingedFrom;
    UpdateNodes(bs, i, b, n);
    if n in b.nodes {
      var a :| 0 <= a < |b.nodes| && b.nodes[a] == n;
      NodeIsIn(bs, i, bs[i].nodes[a]);
    }
  }

  lemma PassOthers(my: Id, bs: seq<Bucket>, w: News, n: Node)
    requires TableOk(my, bs) && n in AllNodes(NewNodePass(my, bs, w).bs) && n.id != w.id
    ensures Untouched(bs, n, w.now)
    ensures NewNodePass(my, bs, w).Again? ==> n in AllNodes(bs)
  {
    hide AllNodes, InBucket, TableOk, SplitBucket, Untouched;
    assert |bs| > 0 by { FoundBucket(my, bs, w.id); }
    if w.id == my || w.rejected {
      InTableUntouched(bs, n, w.now);
    } else {
      var i := FindBucket(bs, w.id);
      var b := Touched(bs[i], w);
      FoundBucket(my, bs, w.id);
      var known, bad := First(HasId(w.id), b.nodes, 0), First(Bad(w.now), b.nodes, 0);
      if known < |b.nodes| {
        UpdatedOthers(bs, i, b.(nodes := b.nodes[known := Seen(b.nodes[known], w.addr, w.confirm, w.now)]), known, n,
          w.now);
      } else if bad < |b.nodes| {
        UpdatedOthers(bs, i, b.(nodes := b.nodes[bad := Fresh(w.id, w.addr, w.confirm, w.now)]), bad, n, w.now);
      } else if b.count < b.maxCount {
        UpdateNodes(bs, i, b.(nodes := [Fresh(w.id, w.addr, w.confirm, w.now)] + b.nodes, count := b.count + 1), n);
        if n in b.nodes { NodeIsIn(bs, i, n); }
        InTableUntouched(bs, n, w.now);
      } else {
        FullPassOthers(my, bs, w, i, b, n);
      }
    }
  }

  lemma FullPassOthers(my: Id, bs: seq<Bucket>, w: News, i: nat, b: Bucket, n: Node)
    requires TableOk(my, bs) && |bs| > 0 && i == FindBucket(bs, w.id) && b == Touched(bs[i], w) && NoRoom(bs, w)
    requires w.id != my && !w.rejected && n in AllNodes(NewNodePass(my, bs, w).bs) && n.id != w.id
    ensures Untouched(bs, n, w.now)
    ensures NewNodePass(my, bs, w).Again? ==> n in AllNodes(bs)
  {
    hide AllNodes, InBucket, TableOk, SplitBucket, Untouched;
    FoundBucket(my, bs, w.id);
    assert forall a :: 0 <= a < |b.nodes| ==> !Passes(HasId(w.id), b.nodes[a]);
    if InBucket(bs, i, my) && First(Dubious(w.now), b.nodes, 0) == |b.nodes| {
      TouchedSplitOk(my, bs, i, b, w.id);
      SplitOnlyKeeps(my, bs, i, b, w.id, n);
      InTableUntouched(bs, n, w.now);
    } else {
      var c, k := Remember(PingDubious(b, w.now), w), First(Pingable(w.now), b.nodes, 0);
      if k < |b.nodes| {
        UpdatedOthers(bs, i, c, k, n, w.now);
      } else {
        UpdateNodes(bs, i, c, n);
        if n in c.nodes { NodeIsIn(bs, i, n); }
        InTableUntouched(bs, n, w.now);
      }
    }
  }

  /** new_node changes no other node, but for a ping counted on a dubious one. */
  lemma {:induction false} NewNodeOthers(my: Id, bs: seq<Bucket>, w: News, n: Node)
    requires TableOk(my, bs) && n in AllNodes(NewNode(my, bs, w).0) && n.id != w.id
    ensures Untouched(bs, n, w.now)
    decreases MAX_DEPTH + 1 - |bs|
  {
    hide AllNodes, NewNodePass, PingedFrom;
    var p := NewNodePass(my, bs, w);
    PassOk(my, bs, w);
    if p.Again? {
      NewNodeOthers(my, p.bs, w, n);
      if n in AllNodes(p.bs) {
        PassOthers(my, bs, w, n);
      } else {
        var m :| m in AllNodes(p.bs) && PingedFrom(m, n, w.now);
        PingedId(m, n, w.now);
        PassOthers(my, bs, w, m);
      }
    } else {
      PassOthers(my, bs, w, n);
    }
  }

  lemma PingedId(m: Node, n: Node, now: int)
    requires PingedFrom(m, n, now)
    ensures m.id == n.id
  {}

  lemma InTableUntouched(bs: seq<Bucket>, n: Node, now: int)
    requires n in AllNodes(bs)
    ensures Untouched(bs, n, now)
  {}

  // The other operations.

  /** pinged: counts a request to a node of the table, and drops the cached
      candidate of its bucket (it is pinged instead) from the third on. */
  function Pinged(bs: seq<Bucket>, id: Id, now: int): (r: seq<Bucket>)
    requires |bs| > 0
    ensures |r| == |bs|
  {
    var i := FindBucket(bs, id);
    var b, k := bs[i], First(HasId(id), bs[i].nodes, 0);
    if k == |b.nodes| then bs
    else
      var n := b.nodes[k].(pinged := b.nodes[k].pinged + 1, pingedTime := now);
      bs[i := b.(nodes := b.nodes[k := n], cached := if n.pinged >= 3 then None else b.cached)]
  }

  /** blacklist_node's part on the table: the node becomes easy to discard. */
  function BlacklistNode(bs: seq<Bucket>, id: Id, now: int): (r: seq<Bucket>)
    requires |bs| > 0
    ensures |r| == |bs|
  {
    var i := FindBucket(bs, id);
    var b, k := bs[i], First(HasId(id), bs[i].nodes, 0);
    if k == |b.nodes| then bs
    else bs[i := b.(nodes := b.nodes[k := b.nodes[k].(pinged := 4, pingedTime := now)], cached := None)]
  }

  /** pinged changes nothing but the one node with the id: it counts one ping more. */
  lemma PingedIs(my: Id, bs: seq<Bucket>, id: Id, now: int) returns (p: nat)
    requires TableOk(my, bs)
    ensures |bs| > 0 && (!Knows(bs, id) ==> Pinged(bs, id, now) == bs)
    ensures Knows(bs, id) ==>
      && p < |AllNodes(bs)| && AllNodes(bs)[p].id == id
      && AllNodes(Pinged(bs, id, now)) ==
        AllNodes(bs)[p := AllNodes(bs)[p].(pinged := AllNodes(bs)[p].pinged + 1, pingedTime := now)]
  {
    hide AllNodes, TableOk, Knows;
    HomePlace(my, bs, id);
    p := 0;
    if Knows(bs, id) {
      var i := FindBucket(bs, id);
      var k := First(HasId(id), bs[i].nodes, 0);
      var b := Pinged(bs, id, now)[i];
      p := ReplaceOne(bs, i, k, b, b.nodes[k]);
    }
  }

  /** blacklist_node likewise: its ping count becomes four. */
  lemma BlacklistIs(my: Id, bs: seq<Bucket>, id: Id, now: int) returns (p: nat)
    requires TableOk(my, bs)
    ensures |bs| > 0 && (!Knows(bs, id) ==> BlacklistNode(bs, id, now) == bs)
    ensures Knows(bs, id) ==>
      && p < |AllNodes(bs)| && AllNodes(bs)[p].id == id
      && AllNodes(BlacklistNode(bs, id, now)) == AllNodes(bs)[p := AllNodes(bs)[p].(pinged := 4, pingedTime := now)]
  {
    hide AllNodes, TableOk, Knows;
    HomePlace(my, bs, id);
    p := 0;
    if Knows(bs, id) {
      var i := FindBucket(bs, id);
      var k := First(HasId(id), bs[i].nodes, 0);
      var b := BlacklistNode(bs, id, now)[i];
      p := ReplaceOne(bs, i, k, b, b.nodes[k]);
    }
  }

  function Alive(nodes: seq<Node>): (r: seq<Node>)
    ensures |r| <= |nodes|
  {
    if nodes == [] then [] else if nodes[0].pinged >= 4 then Alive(nodes[1..]) else [nodes[0]] + Alive(nodes[1..])
  }

  function ExpireBucket(b: Bucket): Bucket {
    var kept := Alive(b.nodes);
    if |kept| == |b.nodes| then b
    else b.(nodes := kept, count := b.count - (|b.nodes| - |kept|), cached := None)
  }

  /** expire_buckets, from bucket i to the end of the list. */
  function ExpireFrom(bs: seq<Bucket>, i: nat): (r: seq<Bucket>)
    requires i <= |bs|
    ensures |r| == |bs|
    decreases |bs| - i
  {
    if i == |bs| then bs else ExpireFrom(bs[i := ExpireBucket(bs[i])], i + 1)
  }

  /** What stays is what was pinged fewer than four times. */
  lemma {:induction false} AliveIs(nodes: seq<Node>, n: Node)
    ensures n in Alive(nodes) <==> n in nodes && n.pinged < 4
  {
    if nodes != [] {
      var t := nodes[1..];
      AliveIs(t, n);
      assert n in nodes <==> n == nodes[0] || n in t;
    }
  }

  lemma {:induction false} AliveAll(nodes: seq<Node>)
    requires |Alive(nodes)| == |nodes|
    ensures Alive(nodes) == nodes
  {
    if nodes != [] { AliveAll(nodes[1..]); }
  }

  lemma {:induction false} AliveDistinct(nodes: seq<Node>)
    requires DistinctIds(nodes)
    ensures DistinctIds(Alive(nodes))
  {
    if nodes != [] {
      var t := nodes[1..];
      AliveDistinct(t);
      forall a | 0 <= a < |Alive(t)|
        ensures Alive(t)[a].id != nodes[0].id
      {
        AliveIs(t, Alive(t)[a]);
      }
    }
  }

  lemma ExpireBucketOk(my: Id, bs: seq<Bucket>, i: nat)
    requires TableOk(my, bs) && i < |bs|
    ensures TableOk(my, bs[i := ExpireBucket(bs[i])])
  {
    var b := ExpireBucket(bs[i]);
    UpdateShape(my, bs, i, b);
    UpdateOthers(my, bs, i, bs[i := b]);
    assert BucketOk(my, bs, i);
    AliveDistinct(bs[i].nodes);
    forall a | 0 <= a < |b.nodes|
      ensures b.nodes[a].id != my && Label(my, b.nodes[a].id, |bs| - 1) == Order(my, |bs| - 1)[i]
    {
      AliveIs(bs[i].nodes, b.nodes[a]);
      assert b.nodes[a] in bs[i].nodes;
    }
  }

  lemma {:induction false} ExpireOk(my: Id, bs: seq<Bucket>, i: nat)
    requires TableOk(my, bs) && i <= |bs|
    ensures TableOk(my, ExpireFrom(bs, i))
    decreases |bs| - i
  {
    hide TableOk;
    if i < |bs| {
      ExpireBucketOk(my, bs, i);
      ExpireOk(my, bs[i := ExpireBucket(bs[i])], i + 1);
    }
  }

  /** expire_buckets drops exactly the nodes pinged four times or more. */
  lemma {:induction false} ExpireDropsBad(bs: seq<Bucket>, i: nat, j: nat, n: Node)
    requires i <= |bs| && j < |bs|
    ensures n in ExpireFrom(bs, i)[j].nodes <==> n in bs[j].nodes && (j < i || n.pinged < 4)
    decreases |bs| - i
  {
    if i < |bs| {
      AliveIs(bs[i].nodes, n);
      if |Alive(bs[i].nodes)| == |bs[i].nodes| { AliveAll(bs[i].nodes); }
      ExpireDropsBad(bs[i := ExpireBucket(bs[i])], i + 1, j, n);
    }
  }

  /** A blacklisted node is gone after the next expire_buckets. */
  lemma BlacklistedGoes(my: Id, bs: seq<Bucket>, id: Id, now: int)
    requires TableOk(my, bs) && |bs| > 0
    ensures !Knows(ExpireFrom(BlacklistNode(bs, id, now), 0), id)
  {
    hide AllNodes, TableOk, BlacklistNode;
    var c := BlacklistNode(bs, id, now);
    var r := ExpireFrom(c, 0);
    BlacklistOk(my, bs, id, now);
    var p := BlacklistIs(my, bs, id, now);
    if Knows(r, id) {
      var n :| n in AllNodes(r) && n.id == id;
      var j := WhereNodeIs(r, n);
      ExpireDropsBad(c, 0, j, n);
      NodeIsIn(c, j, n);
      if Knows(bs, id) {
        assert AllNodes(c)[p] in AllNodes(c);
        OneNodePerId(my, c, n, AllNodes(c)[p]);
      }
    }
  }

  lemma BlacklistOk(my: Id, bs: seq<Bucket>, id: Id, now: int)
    requires TableOk(my, bs) && |bs| > 0
    ensures TableOk(my, BlacklistNode(bs, id, now))
  {
    var i := FindBucket(bs, id);
    SameIdsOk(my, bs, i, BlacklistNode(bs, id, now)[i]);
  }

  // Runs.

  datatype Op =
    | Learn(news: News)
    | Request(id: Id, now: int)
    | Blacklist(id: Id, now: int)
    | Expire

  /** The table dht_init sets up. */
  function InitialTable(): seq<Bucket> {
    [Bucket(Pad([]), 0, 128, 0, [], None)]
  }

  lemma InitialOk(my: Id)
    ensures TableOk(my, InitialTable())
  {
    var bs := InitialTable();
    assert Subtrees(my, 0) == [my[..0]];
    assert Firsts(bs) == [Pad([])];
    assert my[..0] == [];
  }

  function Apply(my: Id, bs: seq<Bucket>, op: Op): seq<Bucket>
    requires TableOk(my, bs)
  {
    match op
    case Learn(news) => NewNode(my, bs, news).0
    case Request(id, now) => Pinged(bs, id, now)
    case Blacklist(id, now) => BlacklistNode(bs, id, now)
    case Expire => ExpireFrom(bs, 0)
  }

  lemma ApplyOk(my: Id, bs: seq<Bucket>, op: Op)
    requires TableOk(my, bs)
    ensures TableOk(my, Apply(my, bs, op)) && |bs| <= |Apply(my, bs, op)|
  {
    match op {
      case Learn(news) =>
        NewNodeDeepens(my, bs, news);
      case Request(id, now) =>
        var i := FindBucket(bs, id);
        SameIdsOk(my, bs, i, Pinged(bs, id, now)[i]);
      case Blacklist(id, now) =>
        BlacklistOk(my, bs, id, now);
      case Expire =>
        ExpireOk(my, bs, 0);
    }
  }

  lemma {:induction false} NewNodeDeepens(my: Id, bs: seq<Bucket>, w: News)
    requires TableOk(my, bs)
    ensures |bs| <= |NewNode(my, bs, w).0|
    decreases MAX_DEPTH + 1 - |bs|
  {
    hide NewNodePass;
    PassOk(my, bs, w);
    if NewNodePass(my, bs, w).Again? { NewNodeDeepens(my, NewNodePass(my, bs, w).bs, w); }
  }

  /** The table after a run of operations from dht_init on. */
  function Run(my: Id, ops: seq<Op>): (bs: seq<Bucket>)
    ensures TableOk(my, bs)
    decreases |ops|
  {
    if ops == [] then
      InitialOk(my);
      InitialTable()
    else
      var before := Run(my, ops[..|ops| - 1]);
      ApplyOk(my, before, ops[|ops| - 1]);
      Apply(my, before, ops[|ops| - 1])
  }
}
