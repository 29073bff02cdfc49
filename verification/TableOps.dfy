/** split_bucket and new_node of dht.c as functions on the table: splitting our full
    bucket always succeeds, and new_node ends. */
module TableOps {
  import opened Sets
  import opened Ids
  import opened Layout
  import opened Table
  import opened Wrappers

  // Splitting our own bucket when it is full.

  /** With one more id wanting in, split_bucket always succeeds, keeps the table in
      order, and frees only nodes whose bucket is full and not ours. */
  lemma SplitBucketOk(my: Id, bs: seq<Bucket>, i: nat, id: Id)
    requires TableOk(my, bs) && i < |bs| && InBucket(bs, i, my) && InBucket(bs, i, id)
    requires bs[i].count >= bs[i].maxCount && id != my
    requires forall a :: 0 <= a < |bs[i].nodes| ==> bs[i].nodes[a].id != id
    ensures SplitBucket(my, bs, i).Some?
    ensures LoopOk(my, multiset(AllNodes(bs)), SplitBucket(my, bs, i).value)
  {
    hide AllNodes, LoopOk, InBucket;
    SplitReady(my, bs, i, id);
    var r := SplitHelper(my, bs, i).value;
    SplitLoopOk(my, r.0, r.1);
  }

  lemma SplitReady(my: Id, bs: seq<Bucket>, i: nat, id: Id)
    requires TableOk(my, bs) && i < |bs| && InBucket(bs, i, my) && InBucket(bs, i, id)
    requires bs[i].count >= bs[i].maxCount && id != my
    requires forall a :: 0 <= a < |bs[i].nodes| ==> bs[i].nodes[a].id != id
    ensures SplitHelper(my, bs, i).Some?
    ensures var r := SplitHelper(my, bs, i).value;
      TableOk(my, r.0) && PendingOk(my, r.0, r.1) && NodesHeld(r.0, r.1) == multiset(AllNodes(bs))
  {
    hide AllNodes, InBucket, SplitHelper, ShapeOk, PendingOk, Label, Order, BucketOk;
    FullIsShallow(my, bs, i, id);
    SplitHelperOk(my, bs, i);
    SplitHelperConserves(my, bs, i);
    PendingBegins(my, bs, i);
  }

  lemma FullIsShallow(my: Id, bs: seq<Bucket>, i: nat, id: Id)
    requires TableOk(my, bs) && i < |bs| && InBucket(bs, i, my) && InBucket(bs, i, id)
    requires bs[i].count >= bs[i].maxCount && id != my
    requires forall a :: 0 <= a < |bs[i].nodes| ==> bs[i].nodes[a].id != id
    ensures |bs| - 1 < MAX_DEPTH
  {
    hide InBucket, Label, Order;
    assert BucketOk(my, bs, i);
    FullOwnBucketIsShallow(my, bs, i, id);
  }

  lemma PendingBegins(my: Id, bs: seq<Bucket>, i: nat)
    requires TableOk(my, bs) && i < |bs| && InBucket(bs, i, my) && |bs| - 1 < MAX_DEPTH && SplitHelper(my, bs, i).Some?
    ensures PendingOk(my, SplitHelper(my, bs, i).value.0, SplitHelper(my, bs, i).value.1)
  {
    hide InBucket, SplitHelper, Label, Order;
    SplitHelperPending(my, bs, i);
    PendingAfterSplit(my, bs, [], i, SplitHelper(my, bs, i).value.0);
    assert [] + bs[i].nodes == bs[i].nodes;
  }

  lemma SplitHelperPending(my: Id, bs: seq<Bucket>, i: nat)
    requires i < |bs| && SplitHelper(my, bs, i).Some?
    ensures SplitHelper(my, bs, i).value.1 == bs[i].nodes
  {}

  /** All nodes in our own bucket or the one split off last, and all pending
      ones, have their ids in ids. */
  ghost predicate Within(my: Id, bs: seq<Bucket>, pending: seq<Node>, ids: set<Id>)
    requires 2 <= |bs| <= WIDTH + 1
  {
    var d := |bs| - 1;
    && (forall i, a :: 0 <= i < |bs| && Order(my, d)[i] >= d - 1 && 0 <= a < |bs[i].nodes| ==> bs[i].nodes[a].id in ids)
    && (forall a :: 0 <= a < |pending| ==> pending[a].id in ids && Label(my, pending[a].id, d) >= d - 1)
  }

  lemma RoomForPending(my: Id, bs: seq<Bucket>, pending: seq<Node>, ids: set<Id>)
    requires TableOk(my, bs) && PendingOk(my, bs, pending) && 2 <= |bs| && pending != []
    requires Within(my, bs, pending, ids) && |ids| <= 8
    ensures InsertNode(bs, pending[0]).Some?
  {
    var n, i := pending[0], FindBucket(bs, pending[0].id);
    FindIsLabel(my, bs, n.id);
    assert BucketOk(my, bs, i) && Absent(bs, n.id);
    DistinctSize(bs[i].nodes);
    assert NodeIds(bs[i].nodes) + {n.id} <= ids;
    SubsetSize(NodeIds(bs[i].nodes) + {n.id}, ids);
  }

  lemma WithinAfterInsert(my: Id, bs: seq<Bucket>, pending: seq<Node>, ids: set<Id>, r: seq<Bucket>)
    requires 2 <= |bs| <= WIDTH + 1 && pending != [] && Within(my, bs, pending, ids)
    requires InsertNode(bs, pending[0]) == Some(r)
    ensures Within(my, r, pending[1..], ids)
  {}

  lemma {:induction false} EightFit(my: Id, bs: seq<Bucket>, pending: seq<Node>, ids: set<Id>)
    requires 2 <= |bs| <= WIDTH + 1 && TableOk(my, bs) && PendingOk(my, bs, pending)
    requires Within(my, bs, pending, ids) && |ids| <= 8
    ensures SplitLoop(my, bs, pending).1 == [] && |SplitLoop(my, bs, pending).0| == |bs|
    decreases |pending|
  {
    hide TableOk, Within, PendingOk;
    if pending != [] {
      RoomForPending(my, bs, pending, ids);
      InsertStep(my, bs, pending);
      var r := InsertNode(bs, pending[0]).value;
      WithinAfterInsert(my, bs, pending, ids, r);
      EightFit(my, r, pending[1..], ids);
    }
  }

  /** Splitting a bucket of capacity 8 loses no node and splits only once. */
  lemma EightSplitsOnce(my: Id, bs: seq<Bucket>, i: nat)
    requires TableOk(my, bs) && |bs| - 1 < MAX_DEPTH && i < |bs| && InBucket(bs, i, my) && bs[i].maxCount == 8
    ensures SplitBucket(my, bs, i).Some?
    ensures SplitBucket(my, bs, i).value.1 == [] && |SplitBucket(my, bs, i).value.0| == |bs| + 1
    ensures multiset(AllNodes(SplitBucket(my, bs, i).value.0)) == multiset(AllNodes(bs))
  {
    SplitHelperOk(my, bs, i);
    SplitHelperConserves(my, bs, i);
    var r := SplitHelper(my, bs, i).value;
    PendingAfterSplit(my, bs, [], i, r.0);
    assert [] + bs[i].nodes == bs[i].nodes;
    SplitOffIds(my, bs, i, r.0);
    EightFit(my, r.0, r.1, NodeIds(bs[i].nodes));
    SplitLoopOk(my, r.0, r.1);
  }

  lemma SplitOffIds(my: Id, bs: seq<Bucket>, i: nat, r: seq<Bucket>)
    requires TableOk(my, bs) && i < |bs| && InBucket(bs, i, my) && bs[i].maxCount == 8
    requires SplitHelper(my, bs, i) == Some((r, bs[i].nodes))
    ensures |bs| < |r| <= WIDTH + 1 && Within(my, r, bs[i].nodes, NodeIds(bs[i].nodes)) && |NodeIds(bs[i].nodes)| <= 8
  {
    var d := |bs| - 1;
    assert BucketOk(my, bs, i);
    DistinctSize(bs[i].nodes);
    OwnBucket(my, bs, i);
    SplitHelperShape(my, bs, i);
    SplitHelperNodes(my, bs, i, r);
    hide TableOk, SplitHelper, InBucket, ShapeOk;
    HalvesEmpty(my, d, r, bs[i].nodes, NodeIds(bs[i].nodes));
  }

  lemma HalvesEmpty(my: Id, d: nat, r: seq<Bucket>, pending: seq<Node>, ids: set<Id>)
    requires d < WIDTH && |r| == d + 2 && r[OwnIndex(my, d)].nodes == [] && r[OwnIndex(my, d) + 1].nodes == []
    requires forall a :: 0 <= a < |pending| ==> pending[a].id in ids && Label(my, pending[a].id, d) == d
    ensures Within(my, r, pending, ids)
  {
    forall j: nat | j < |r| && Order(my, d + 1)[j] >= d
      ensures r[j].nodes == []
    {
      OnlyHalvesDeep(my, d, j);
    }
  }

  lemma OnlyHalvesDeep(my: Id, d: nat, j: nat)
    requires d < WIDTH && j <= d + 1 && Order(my, d + 1)[j] >= d
    ensures j == OwnIndex(my, d) || j == OwnIndex(my, d) + 1
  {
    OrderIsPermutation(my, d);
    SplitLabelIs(Order(my, d), OwnIndex(my, d), my[d], d + 1, j);
  }

  // Looking through a bucket.

  datatype Test = HasId(id: Id) | Bad(now: int) | Dubious(now: int) | Pingable(now: int)

  /** node_good */
  predicate Good(n: Node, now: int) {
    n.pinged <= 2 && n.replyTime >= now - 7200 && n.time >= now - 900
  }

  predicate Passes(t: Test, n: Node) {
    match t
    case HasId(id) => n.id == id
    case Bad(now) => n.pinged >= 3 && n.pingedTime < now - 15
    case Dubious(now) => !Good(n, now)
    case Pingable(now) => !Good(n, now) && n.pingedTime < now - 15
  }

  /** The first node from k on that passes, |nodes| if none does. */
  function First(t: Test, nodes: seq<Node>, k: nat): (r: nat)
    requires k <= |nodes|
    ensures k <= r <= |nodes|
    ensures forall a :: k <= a < r ==> !Passes(t, nodes[a])
    ensures r < |nodes| ==> Passes(t, nodes[r])
    decreases |nodes| - k
  {
    if k == |nodes| || Passes(t, nodes[k]) then k else First(t, nodes, k + 1)
  }

  // new_node.

  /** What a message from a node already in the table changes. */
  function Seen(n: Node, addr: Addr, confirm: int, now: int): Node {
    if confirm != 0 || n.time < now - 15 * 60 then
      n.(addr := addr,
         time := if confirm != 0 then now else n.time,
         replyTime := if confirm >= 2 then now else n.replyTime,
         pinged := if confirm >= 2 then 0 else n.pinged,
         pingedTime := if confirm >= 2 then 0 else n.pingedTime)
    else n
  }

  function Fresh(id: Id, addr: Addr, confirm: int, now: int): Node {
    Node(id, addr, if confirm != 0 then now else 0, if confirm >= 2 then now else 0, 0, 0)
  }

  /** One pass through new_node: either it returns (node or NULL), or it has split
      our bucket and starts again. */
  datatype Pass = Finished(bs: seq<Bucket>, node: bool) | Again(bs: seq<Bucket>)

  /** What is learnt: the id and address of a node, how it was confirmed, when,
      and whether is_martian or node_blacklisted rejects the address. */
  datatype News = News(id: Id, addr: Addr, confirm: int, now: int, rejected: bool)

  /** The bucket after `b->time` was refreshed. */
  function Touched(b: Bucket, w: News): Bucket {
    if w.confirm == 2 then b.(time := w.now) else b
  }

  /** A full bucket: ping its first dubious node not pinged lately. */
  function PingDubious(b: Bucket, now: int): Bucket {
    var k := First(Pingable(now), b.nodes, 0);
    if k == |b.nodes| then b
    else b.(nodes := b.nodes[k := b.nodes[k].(pinged := b.nodes[k].pinged + 1, pingedTime := now)])
  }

  function Remember(b: Bucket, w: News): Bucket {
    if w.confirm != 0 || b.cached.None? then b.(cached := Some(w.addr)) else b
  }

  function NewNodePass(my: Id, bs: seq<Bucket>, w: News): Pass
    requires ShapeOk(my, bs)
  {
    var i := FindBucket(bs, w.id);
    if w.id == my || w.rejected then Finished(bs, false)
    else
      var b := Touched(bs[i], w);
      var known, bad := First(HasId(w.id), b.nodes, 0), First(Bad(w.now), b.nodes, 0);
      if known < |b.nodes| then
        Finished(bs[i := b.(nodes := b.nodes[known := Seen(b.nodes[known], w.addr, w.confirm, w.now)])], true)
      else if bad < |b.nodes| then
        Finished(bs[i := b.(nodes := b.nodes[bad := Fresh(w.id, w.addr, w.confirm, w.now)])], true)
      else if b.count < b.maxCount then
        Finished(bs[i := b.(nodes := [Fresh(w.id, w.addr, w.confirm, w.now)] + b.nodes, count := b.count + 1)], true)
      else if InBucket(bs, i, my) && First(Dubious(w.now), b.nodes, 0) == |b.nodes| then
        UpdateShape(my, bs, i, b);
        match SplitBucket(my, bs[i := b], i)
        case Some(r) => Again(r.0)
        case None => Finished(bs[i := b], false)
      else
        Finished(bs[i := Remember(PingDubious(b, w.now), w)], false)
  }

  /** Changing nodes but not their ids keeps the table in order. */
  lemma SameIdsOk(my: Id, bs: seq<Bucket>, i: nat, b: Bucket)
    requires TableOk(my, bs) && i < |bs|
    requires b.first == bs[i].first && b.maxCount == bs[i].maxCount && b.count == bs[i].count
    requires |b.nodes| == |bs[i].nodes| && forall a :: 0 <= a < |b.nodes| ==> b.nodes[a].id == bs[i].nodes[a].id
    ensures TableOk(my, bs[i := b])
  {
    UpdateShape(my, bs, i, b);
    UpdateOthers(my, bs, i, bs[i := b]);
    assert BucketOk(my, bs, i);
  }

  /** So does putting an absent id of the right range in the place of another. */
  lemma ReplaceNodeOk(my: Id, bs: seq<Bucket>, i: nat, b: Bucket, k: nat, n: Node)
    requires TableOk(my, bs) && i < |bs| && InBucket(bs, i, n.id) && n.id != my
    requires forall a :: 0 <= a < |bs[i].nodes| ==> bs[i].nodes[a].id != n.id
    requires b.first == bs[i].first && b.maxCount == bs[i].maxCount && b.count == bs[i].count
    requires k < |bs[i].nodes| && b.nodes == bs[i].nodes[k := n]
    ensures TableOk(my, bs[i := b])
  {
    hide InBucket, ShapeOk, BucketOk, Label, Order;
    UpdateShape(my, bs, i, b);
    UpdateOthers(my, bs, i, bs[i := b]);
    ReplacedBucketOk(my, bs, i, b, k, n);
  }

  lemma ReplacedBucketOk(my: Id, bs: seq<Bucket>, i: nat, b: Bucket, k: nat, n: Node)
    requires TableOk(my, bs) && i < |bs| && InBucket(bs, i, n.id) && n.id != my
    requires forall a :: 0 <= a < |bs[i].nodes| ==> bs[i].nodes[a].id != n.id
    requires b.first == bs[i].first && b.maxCount == bs[i].maxCount && b.count == bs[i].count
    requires k < |bs[i].nodes| && b.nodes == bs[i].nodes[k := n]
    ensures BucketOk(my, bs[i := b], i)
  {
    hide InBucket, Label, Order, Quota;
    InBucketIsLabel(my, bs, i, n.id);
    assert BucketOk(my, bs, i);
  }

  /** Every pass through new_node keeps the table in order, and one that starts
      again has made the table deeper. */
  lemma PassOk(my: Id, bs: seq<Bucket>, w: News)
    requires TableOk(my, bs)
    ensures TableOk(my, NewNodePass(my, bs, w).bs)
    ensures if NewNodePass(my, bs, w).Again? then |bs| < |NewNodePass(my, bs, w).bs|
      else |bs| == |NewNodePass(my, bs, w).bs|
  {
    hide TableOk, InBucket, SplitBucket;
    assert |bs| > 0 by { FoundBucket(my, bs, w.id); }
    if w.id != my && !w.rejected {
      var i := FindBucket(bs, w.id);
      var b := Touched(bs[i], w);
      FoundBucket(my, bs, w.id);
      var known, bad := First(HasId(w.id), b.nodes, 0), First(Bad(w.now), b.nodes, 0);
      if known < |b.nodes| {
        SameIdsOk(my, bs, i, b.(nodes := b.nodes[known := Seen(b.nodes[known], w.addr, w.confirm, w.now)]));
      } else {
        assert forall a :: 0 <= a < |b.nodes| ==> !Passes(HasId(w.id), b.nodes[a]);
        if bad < |b.nodes| {
          ReplaceNodeOk(my, bs, i, b.(nodes := b.nodes[bad := Fresh(w.id, w.addr, w.confirm, w.now)]), bad,
                        Fresh(w.id, w.addr, w.confirm, w.now));
        } else if b.count < b.maxCount {
          AddNodeOk(my, bs, i, b.(nodes := [Fresh(w.id, w.addr, w.confirm, w.now)] + b.nodes, count := b.count + 1),
                    Fresh(w.id, w.addr, w.confirm, w.now));
        } else {
          FullPassOk(my, bs, w, i, b);
        }
      }
    }
  }

  lemma FullPassOk(my: Id, bs: seq<Bucket>, w: News, i: nat, b: Bucket)
    requires TableOk(my, bs) && i < |bs| && InBucket(bs, i, w.id) && b == Touched(bs[i], w) && w.id != my
    requires forall a :: 0 <= a < |b.nodes| ==> b.nodes[a].id != w.id
    requires bs[i].count >= bs[i].maxCount
    ensures TableOk(my, bs[i := Remember(PingDubious(b, w.now), w)])
    ensures ShapeOk(my, bs[i := b])
    ensures InBucket(bs, i, my) ==>
      SplitBucket(my, bs[i := b], i).Some? && TableOk(my, SplitBucket(my, bs[i := b], i).value.0)
  {
    hide TableOk, InBucket, SplitBucket, ShapeOk;
    SameIdsOk(my, bs, i, Remember(PingDubious(b, w.now), w));
    SameIdsOk(my, bs, i, b);
    TableShape(my, bs[i := b]);
    if InBucket(bs, i, my) { TouchedSplitOk(my, bs, i, b, w.id); }
  }

  lemma TableShape(my: Id, bs: seq<Bucket>)
    requires TableOk(my, bs)
    ensures ShapeOk(my, bs)
  {}

  lemma FoundBucket(my: Id, bs: seq<Bucket>, id: Id)
    requires TableOk(my, bs)
    ensures ShapeOk(my, bs) && |bs| > 0 && FindBucket(bs, id) < |bs| && InBucket(bs, FindBucket(bs, id), id)
  {
    FindIsLabel(my, bs, id);
  }

  lemma TouchedSplitOk(my: Id, bs: seq<Bucket>, i: nat, b: Bucket, id: Id)
    requires TableOk(my, bs) && i < |bs| && InBucket(bs, i, my) && InBucket(bs, i, id)
    requires bs[i].count >= bs[i].maxCount && id != my
    requires forall a :: 0 <= a < |bs[i].nodes| ==> bs[i].nodes[a].id != id
    requires b == bs[i].(time := b.time)
    ensures ShapeOk(my, bs[i := b]) && SplitBucket(my, bs[i := b], i).Some?
    ensures TableOk(my, SplitBucket(my, bs[i := b], i).value.0)
  {
    SameIdsOk(my, bs, i, b);
    SameFirsts(bs, i, b, i, my);
    SameFirsts(bs, i, b, i, id);
    SplitBucketOk(my, bs[i := b], i, id);
  }

  /** new_node: passes until one returns. The depth bound ends the repetition. */
  function NewNode(my: Id, bs: seq<Bucket>, w: News): (r: (seq<Bucket>, bool))
    requires TableOk(my, bs)
    ensures TableOk(my, r.0)
    decreases MAX_DEPTH + 1 - |bs|
  {
    PassOk(my, bs, w);
    match NewNodePass(my, bs, w)
    case Finished(bs', node) => (bs', node)
    case Again(bs') => NewNode(my, bs', w)
  }
}
