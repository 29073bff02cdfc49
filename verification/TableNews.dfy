/** What new_node of dht.c does with a message, case by case and field by field: when it
    updates, evicts, adds, splits or pings. */
module TableNews {
  import opened Ids
  import opened Layout
  import opened Table
  import opened TableOps
  import opened TableRuns
  import opened Routing
  import opened Wrappers

  predicate Accepted(my: Id, w: News) { w.id != my && !w.rejected }

  /** The bucket of the sender, refreshed if it replied, with other nodes. */
  function Renewed(bs: seq<Bucket>, w: News, nodes: seq<Node>): (r: seq<Bucket>)
    requires |bs| > 0
  {
    var i := FindBucket(bs, w.id);
    bs[i := bs[i].(time := if w.confirm == 2 then w.now else bs[i].time, nodes := nodes, count := |nodes|)]
  }

  lemma FirstIs(t: Test, nodes: seq<Node>, k: nat)
    requires k < |nodes| && Passes(t, nodes[k]) && forall a :: 0 <= a < k ==> !Passes(t, nodes[a])
    ensures First(t, nodes, 0) == k
  {}

  lemma NoneIs(t: Test, nodes: seq<Node>)
    requires forall a :: 0 <= a < |nodes| ==> !Passes(t, nodes[a])
    ensures First(t, nodes, 0) == |nodes|
  {}

  lemma CountHere(my: Id, bs: seq<Bucket>, id: Id)
    requires TableOk(my, bs)
    ensures |bs| > 0 && bs[FindBucket(bs, id)].count == |bs[FindBucket(bs, id)].nodes|
    ensures DistinctIds(bs[FindBucket(bs, id)].nodes) && ShapeOk(my, bs)
  {
    FoundBucket(my, bs, id);
    assert BucketOk(my, bs, FindBucket(bs, id));
  }

  /** A node that is known: a reply renews it and clears its pings, a query from it renews
      address and time only, and what others say of it counts for the address alone, and only
      if it was silent for 15 minutes. */
  lemma NewNodeKnown(my: Id, bs: seq<Bucket>, w: News, k: nat)
    requires TableOk(my, bs) && |bs| > 0 && Accepted(my, w)
    requires k < |bs[FindBucket(bs, w.id)].nodes| && bs[FindBucket(bs, w.id)].nodes[k].id == w.id
    ensures var nodes := bs[FindBucket(bs, w.id)].nodes;
      var n := nodes[k];
      var m := if w.confirm >= 2 then Node(w.id, w.addr, w.now, w.now, 0, 0)
        else if w.confirm != 0 then n.(addr := w.addr, time := w.now)
        else if n.time < w.now - 900 then n.(addr := w.addr)
        else n;
      NewNode(my, bs, w) == (Renewed(bs, w, nodes[k := m]), true)
  {
    hide ShapeOk, BucketOk, InBucket, SplitBucket;
    CountHere(my, bs, w.id);
    FirstIs(HasId(w.id), bs[FindBucket(bs, w.id)].nodes, k);
    PassOk(my, bs, w);
  }

  /** A new node takes the place of the first one that has not answered three requests, the
      last of them more than 15 seconds ago. */
  lemma NewNodeEvicts(my: Id, bs: seq<Bucket>, w: News, k: nat)
    requires TableOk(my, bs) && |bs| > 0 && Accepted(my, w) && !Knows(bs, w.id)
    requires k < |bs[FindBucket(bs, w.id)].nodes|
    requires var nodes := bs[FindBucket(bs, w.id)].nodes;
      && nodes[k].pinged >= 3 && nodes[k].pingedTime < w.now - 15
      && forall a :: 0 <= a < k ==> nodes[a].pinged < 3 || nodes[a].pingedTime >= w.now - 15
    ensures NewNode(my, bs, w) == (Renewed(bs, w, bs[FindBucket(bs, w.id)].nodes[k := Arrived(w)]), true)
  {
    hide ShapeOk, BucketOk, InBucket, SplitBucket, AllNodes;
    CountHere(my, bs, w.id);
    HomePlace(my, bs, w.id);
    FirstIs(Bad(w.now), bs[FindBucket(bs, w.id)].nodes, k);
    PassOk(my, bs, w);
  }

  /** A node new to the table; times it has no right to are 0. */
  function Arrived(w: News): Node {
    if w.confirm >= 2 then Node(w.id, w.addr, w.now, w.now, 0, 0)
    else if w.confirm != 0 then Node(w.id, w.addr, w.now, 0, 0, 0)
    else Node(w.id, w.addr, 0, 0, 0, 0)
  }

  /** No node of the bucket has failed to answer three requests. */
  ghost predicate NoneBad(nodes: seq<Node>, now: int) {
    forall a :: 0 <= a < |nodes| ==> nodes[a].pinged < 3 || nodes[a].pingedTime >= now - 15
  }

  /** Otherwise it is put first, if there is room. */
  lemma NewNodeAdds(my: Id, bs: seq<Bucket>, w: News)
    requires TableOk(my, bs) && |bs| > 0 && Accepted(my, w) && !Knows(bs, w.id)
    requires var b := bs[FindBucket(bs, w.id)]; NoneBad(b.nodes, w.now) && b.count < b.maxCount
    ensures NewNode(my, bs, w) == (Renewed(bs, w, [Arrived(w)] + bs[FindBucket(bs, w.id)].nodes), true)
  {
    hide ShapeOk, BucketOk, InBucket, SplitBucket, AllNodes;
    CountHere(my, bs, w.id);
    HomePlace(my, bs, w.id);
    NoneIs(Bad(w.now), bs[FindBucket(bs, w.id)].nodes);
    PassOk(my, bs, w);
  }

  /** All nodes of the bucket answer: none has more than two open requests, each replied
      within two hours and was heard from within 15 minutes. */
  ghost predicate AllGood(nodes: seq<Node>, now: int) {
    forall a :: 0 <= a < |nodes| ==>
      nodes[a].pinged <= 2 && nodes[a].replyTime >= now - 7200 && nodes[a].time >= now - 900
  }

  /** new_node splits if and only if our own bucket is full of good nodes and a node it does
      not have wants in. */
  lemma NewNodeSplits(my: Id, bs: seq<Bucket>, w: News)
    requires TableOk(my, bs) && |bs| > 0
    ensures var b := bs[FindBucket(bs, w.id)];
      |NewNode(my, bs, w).0| > |bs| <==>
        Accepted(my, w) && !Knows(bs, w.id) && InBucket(bs, FindBucket(bs, w.id), my)
        && b.count >= b.maxCount && AllGood(b.nodes, w.now)
  {
    hide ShapeOk, BucketOk, InBucket, SplitBucket, AllNodes;
    var i := FindBucket(bs, w.id);
    var nodes := bs[i].nodes;
    CountHere(my, bs, w.id);
    HomePlace(my, bs, w.id);
    PassOk(my, bs, w);
    if NewNodePass(my, bs, w).Again? { NewNodeDeepens(my, NewNodePass(my, bs, w).bs, w); }
    GoodOnes(nodes, w.now);
    if NoRoom(bs, w) && InBucket(bs, i, my) && w.id != my { FullSplits(my, bs, i, w); }
  }

  /** After the split it starts again with the message. */
  lemma NewNodeAgain(my: Id, bs: seq<Bucket>, w: News)
    requires TableOk(my, bs) && |bs| > 0 && Accepted(my, w) && !Knows(bs, w.id)
    requires var b := bs[FindBucket(bs, w.id)];
      InBucket(bs, FindBucket(bs, w.id), my) && b.count >= b.maxCount && AllGood(b.nodes, w.now)
    ensures ShapeOk(my, Renewed(bs, w, bs[FindBucket(bs, w.id)].nodes))
    ensures var s := SplitBucket(my, Renewed(bs, w, bs[FindBucket(bs, w.id)].nodes), FindBucket(bs, w.id));
      s.Some? && TableOk(my, s.value.0) && NewNode(my, bs, w) == NewNode(my, s.value.0, w)
  {
    hide ShapeOk, BucketOk, InBucket, SplitBucket, AllNodes;
    var i := FindBucket(bs, w.id);
    CountHere(my, bs, w.id);
    HomePlace(my, bs, w.id);
    GoodOnes(bs[i].nodes, w.now);
    FullSplits(my, bs, i, w);
    UpdateShape(my, bs, i, Touched(bs[i], w));
    assert Renewed(bs, w, bs[i].nodes) == bs[i := Touched(bs[i], w)];
    PassOk(my, bs, w);
  }

  lemma GoodOnes(nodes: seq<Node>, now: int)
    ensures AllGood(nodes, now) <==> First(Dubious(now), nodes, 0) == |nodes|
    ensures AllGood(nodes, now) ==> First(Bad(now), nodes, 0) == |nodes|
  {
    if AllGood(nodes, now) {
      NoneIs(Dubious(now), nodes);
      NoneIs(Bad(now), nodes);
    } else {
      var a :| 0 <= a < |nodes| && !Good(nodes[a], now);
      assert Passes(Dubious(now), nodes[a]);
    }
  }

  /** The first node that is not good and was not pinged in the last 15 seconds, |nodes| if
      there is none. */
  ghost predicate IsDue(nodes: seq<Node>, now: int, k: nat) {
    && k <= |nodes| && (k < |nodes| ==> Due(nodes[k], now)) && forall a :: 0 <= a < k ==> !Due(nodes[a], now)
  }

  predicate Due(n: Node, now: int) {
    (n.pinged > 2 || n.replyTime < now - 7200 || n.time < now - 900) && n.pingedTime < now - 15
  }

  /** In a full bucket that is not ours, or has a node that is not good, a new node finds no
      place: one such node is pinged, the sender's address is kept if it wrote itself or none
      was kept before, and nothing else changes. */
  lemma NewNodePings(my: Id, bs: seq<Bucket>, w: News, k: nat)
    requires TableOk(my, bs) && |bs| > 0 && Accepted(my, w) && !Knows(bs, w.id)
    requires var b := bs[FindBucket(bs, w.id)];
      && b.count >= b.maxCount && NoneBad(b.nodes, w.now) && IsDue(b.nodes, w.now, k)
      && (!InBucket(bs, FindBucket(bs, w.id), my) || !AllGood(b.nodes, w.now))
    ensures var i, b := FindBucket(bs, w.id), bs[FindBucket(bs, w.id)];
      var nodes := if k == |b.nodes| then b.nodes
        else b.nodes[k := b.nodes[k].(pinged := b.nodes[k].pinged + 1, pingedTime := w.now)];
      var cached := if w.confirm != 0 || b.cached.None? then Some(w.addr) else b.cached;
      NewNode(my, bs, w) == (bs[i := Renewed(bs, w, nodes)[i].(cached := cached)], false)
  {
    hide ShapeOk, BucketOk, InBucket, NewNode, AllNodes, PingDubious, Remember, Touched, AllGood;
    var i := FindBucket(bs, w.id);
    CountHere(my, bs, w.id);
    HomePlace(my, bs, w.id);
    NoneIs(Bad(w.now), bs[i].nodes);
    GoodOnes(bs[i].nodes, w.now);
    FullPass(my, bs, w);
    PingedHere(bs[i], w, k);
  }

  lemma FullPass(my: Id, bs: seq<Bucket>, w: News)
    requires TableOk(my, bs) && |bs| > 0 && Accepted(my, w) && NoRoom(bs, w)
    requires var i := FindBucket(bs, w.id);
      InBucket(bs, i, my) ==> First(Dubious(w.now), bs[i].nodes, 0) < |bs[i].nodes|
    ensures var i := FindBucket(bs, w.id);
      NewNode(my, bs, w) == (bs[i := Remember(PingDubious(Touched(bs[i], w), w.now), w)], false)
  {
    hide ShapeOk, BucketOk, InBucket, SplitBucket, AllNodes, PingDubious, Remember;
    CountHere(my, bs, w.id);
    PassOk(my, bs, w);
  }

  /** The full bucket itself. */
  lemma PingedHere(b: Bucket, w: News, k: nat)
    requires IsDue(b.nodes, w.now, k) && b.count == |b.nodes|
    ensures var nodes := if k == |b.nodes| then b.nodes
        else b.nodes[k := b.nodes[k].(pinged := b.nodes[k].pinged + 1, pingedTime := w.now)];
      var time := if w.confirm == 2 then w.now else b.time;
      Remember(PingDubious(Touched(b, w), w.now), w) ==
        b.(time := time, nodes := nodes, count := |nodes|,
           cached := if w.confirm != 0 || b.cached.None? then Some(w.addr) else b.cached)
  {
    if k < |b.nodes| { FirstIs(Pingable(w.now), b.nodes, k); } else { NoneIs(Pingable(w.now), b.nodes); }
  }

  /** What a split makes of a bucket: two empty ones that keep its time and no candidate; the
      half with our id may hold half as many nodes, but not fewer than eight, the other one as
      many as before. */
  lemma SplitLeaves(my: Id, bs: seq<Bucket>, i: nat)
    requires ShapeOk(my, bs) && i < |bs| && SplitHelper(my, bs, i).Some?
    ensures var r, b := SplitHelper(my, bs, i).value.0, bs[i];
      var half := if b.maxCount >= 16 then b.maxCount / 2 else 8;
      var ours := if InBucket(r, i, my) then i else i + 1;
      && |r| == |bs| + 1 && r[i].first == b.first && SplitHelper(my, bs, i).value.1 == b.nodes
      && (forall j :: i <= j <= i + 1 ==>
            r[j] == Bucket(r[j].first, 0, if j == ours then half else b.maxCount, b.time, [], None))
      && (forall j :: 0 <= j < i ==> r[j] == bs[j]) && (forall j :: i + 1 < j < |r| ==> r[j] == bs[j - 1])
      && InBucket(r, ours, my)
  {
    hide ShapeOk, MiddleBit, MiddleId, Less;
    SplitHelperShape(my, bs, i);
    var r := SplitHelper(my, bs, i).value.0;
    assert r[i].first == bs[i].first;
    assert InBucket(bs, i, my);
  }

  /** Beside the nodes, a request can only use up the candidate of the node's bucket, exactly
      when it is the third in vain or a later one. */
  lemma PingedCandidate(my: Id, bs: seq<Bucket>, k: nat, id: Id, now: int)
    requires TableOk(my, bs) && |bs| > 0
    requires k < |bs[FindBucket(bs, id)].nodes| && bs[FindBucket(bs, id)].nodes[k].id == id
    ensures var i, b := FindBucket(bs, id), bs[FindBucket(bs, id)];
      var m := b.nodes[k].(pinged := b.nodes[k].pinged + 1, pingedTime := now);
      Pinged(bs, id, now) ==
        bs[i := b.(nodes := b.nodes[k := m], cached := if b.nodes[k].pinged >= 2 then None else b.cached)]
    ensures var i, b := FindBucket(bs, id), bs[FindBucket(bs, id)];
      BlacklistNode(bs, id, now) ==
        bs[i := b.(nodes := b.nodes[k := b.nodes[k].(pinged := 4, pingedTime := now)], cached := None)]
  {
    hide ShapeOk, BucketOk;
    CountHere(my, bs, id);
    FirstIs(HasId(id), bs[FindBucket(bs, id)].nodes, k);
  }

  /** A bucket that lost a node to expire_buckets has used up its candidate; the others have
      not changed at all. */
  lemma {:induction false} ExpireCandidate(bs: seq<Bucket>, i: nat, j: nat)
    requires i <= j < |bs| && bs[j].count == |bs[j].nodes|
    ensures var b, r := bs[j], ExpireFrom(bs, i)[j];
      && r.first == b.first && r.maxCount == b.maxCount && r.time == b.time && r.count == |r.nodes|
      && (if exists n :: n in b.nodes && n.pinged >= 4 then r.cached == None && r.count < b.count else r == b)
    decreases |bs| - i
  {
    if i == j {
      AliveAllIs(bs[j].nodes);
      ExpireBefore(bs[i := ExpireBucket(bs[i])], i + 1, j);
    } else {
      ExpireCandidate(bs[i := ExpireBucket(bs[i])], i + 1, j);
    }
  }

  lemma {:induction false} ExpireBefore(bs: seq<Bucket>, i: nat, j: nat)
    requires j < i <= |bs|
    ensures ExpireFrom(bs, i)[j] == bs[j]
    decreases |bs| - i
  {
    if i < |bs| { ExpireBefore(bs[i := ExpireBucket(bs[i])], i + 1, j); }
  }

  lemma {:induction false} AliveAllIs(nodes: seq<Node>)
    ensures |Alive(nodes)| == |nodes| <==> forall n :: n in nodes ==> n.pinged < 4
    ensures |Alive(nodes)| == |nodes| ==> Alive(nodes) == nodes
  {
    if nodes != [] {
      AliveAllIs(nodes[1..]);
      assert forall n :: n in nodes <==> n == nodes[0] || n in nodes[1..];
    }
  }
}
