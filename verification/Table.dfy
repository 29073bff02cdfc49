/** The routing table of dht.c as a value: buckets in id order, what the table
    operations do to them, and the invariant they all keep. The class in
    Routing.dfy carries the operations out step by step. */
module Table {
  import opened Ids
  import opened Layout
  import opened Wrappers


  datatype Addr = Addr(ip: seq<bv8>, port: nat)

  /** struct node */
  datatype Node = Node(id: Id, addr: Addr, time: int, replyTime: int, pingedTime: int, pinged: int)

  /** struct bucket; the next bucket is the next one in the list. */
  datatype Bucket = Bucket(first: Id, count: int, maxCount: int, time: int, nodes: seq<Node>, cached: Option<Addr>)

  function Max(a: int, b: int): int { if a >= b then a else b }

  function Firsts(bs: seq<Bucket>): (f: seq<Id>)
    ensures |f| == |bs|
  {
    seq(|bs|, i requires 0 <= i < |bs| => bs[i].first)
  }

  /** in_bucket */
  predicate InBucket(bs: seq<Bucket>, i: nat, id: Id)
    requires i < |bs|
  {
    !Less(id, bs[i].first) && (i + 1 == |bs| || Less(id, bs[i + 1].first))
  }

  /** find_bucket, searching from bucket i on. */
  function FindFrom(bs: seq<Bucket>, id: Id, i: nat): (r: nat)
    requires i < |bs|
    ensures i <= r < |bs|
    decreases |bs| - i
  {
    if i + 1 == |bs| || Less(id, bs[i + 1].first) then i else FindFrom(bs, id, i + 1)
  }

  function FindBucket(bs: seq<Bucket>, id: Id): (r: nat)
    requires |bs| > 0
    ensures r < |bs|
  {
    FindFrom(bs, id, 0)
  }

  /** The capacity of the bucket for ids sharing exactly k bits with ours, and of
      our own bucket while the table has depth k. */
  function Quota(k: nat): (q: int)
    ensures q >= 8
  {
    if k == 0 then 128 else Max(Quota(k - 1) / 2, 8)
  }

  /** The buckets are the subtrees of the table's depth, in order, each with the
      capacity that belongs to its label. */
  ghost predicate ShapeOk(my: Id, bs: seq<Bucket>) {
    && 1 <= |bs| <= WIDTH + 1
    && BeginAt(Firsts(bs), Subtrees(my, |bs| - 1))
    && forall i :: 0 <= i < |bs| ==> bs[i].maxCount == Quota(Order(my, |bs| - 1)[i])
  }

  /** Bucket i holds nodes of its own range only, none twice and none with our
      own id, and no more than it may. */
  ghost predicate BucketOk(my: Id, bs: seq<Bucket>, i: nat)
    requires i < |bs| <= WIDTH + 1
  {
    && bs[i].count == |bs[i].nodes| <= bs[i].maxCount
    && (forall a :: 0 <= a < |bs[i].nodes| ==>
          bs[i].nodes[a].id != my && Label(my, bs[i].nodes[a].id, |bs| - 1) == Order(my, |bs| - 1)[i])
    && DistinctIds(bs[i].nodes)
  }

  ghost predicate DistinctIds(nodes: seq<Node>) {
    forall a, b :: 0 <= a < b < |nodes| ==> nodes[a].id != nodes[b].id
  }

  const MAX_DEPTH := 157

  ghost predicate TableOk(my: Id, bs: seq<Bucket>) {
    && ShapeOk(my, bs)
    && |bs| - 1 <= MAX_DEPTH
    && forall i :: 0 <= i < |bs| ==> BucketOk(my, bs, i)
  }

  // find_bucket agrees with common_bits.

  lemma InBucketIsLabel(my: Id, bs: seq<Bucket>, i: nat, id: Id)
    requires ShapeOk(my, bs) && i < |bs|
    ensures InBucket(bs, i, id) <==> Order(my, |bs| - 1)[i] == Label(my, id, |bs| - 1)
  {
    hide Less, Order, Label, Subtrees;
    RangeIsLabel(my, |bs| - 1, Firsts(bs), i, id);
  }

  lemma {:induction false} FindFromStops(bs: seq<Bucket>, id: Id, i: nat)
    requires i < |bs| && !Less(id, bs[i].first)
    ensures InBucket(bs, FindFrom(bs, id, i), id)
    decreases |bs| - i
  {
    if !(i + 1 == |bs| || Less(id, bs[i + 1].first)) { FindFromStops(bs, id, i + 1); }
  }

  /** find_bucket returns the one bucket whose label is min(common_bits, depth). */
  lemma FindIsLabel(my: Id, bs: seq<Bucket>, id: Id)
    requires ShapeOk(my, bs)
    ensures InBucket(bs, FindBucket(bs, id), id)
    ensures Order(my, |bs| - 1)[FindBucket(bs, id)] == Label(my, id, |bs| - 1)
    ensures forall i :: 0 <= i < |bs| && InBucket(bs, i, id) ==> i == FindBucket(bs, id)
  {
    var d := |bs| - 1;
    SubtreesTile(my, d);
    PadIs([], Firsts(bs)[0]);
    NothingBelowZero(id);
    FindFromStops(bs, id, 0);
    InBucketIsLabel(my, bs, FindBucket(bs, id), id);
    OrderIsPermutation(my, d);
    forall i | 0 <= i < |bs| && InBucket(bs, i, id)
      ensures i == FindBucket(bs, id)
    {
      InBucketIsLabel(my, bs, i, id);
    }
  }

  /** Our own id is in the bucket whose label is the depth of the table. */
  lemma OwnBucket(my: Id, bs: seq<Bucket>, i: nat)
    requires ShapeOk(my, bs) && i < |bs|
    ensures InBucket(bs, i, my) <==> i == OwnIndex(my, |bs| - 1)
    ensures InBucket(bs, i, my) <==> Order(my, |bs| - 1)[i] == |bs| - 1
  {
    OrderIsPermutation(my, |bs| - 1);
    CommonAll(my, my);
    InBucketIsLabel(my, bs, i, my);
  }

  // Splitting.

  /** split_bucket_helper on bucket i: None where the code returns -1, else the
      new buckets and the nodes taken out. */
  function SplitHelper(my: Id, bs: seq<Bucket>, i: nat): Option<(seq<Bucket>, seq<Node>)>
    requires i < |bs|
  {
    var bit := MiddleBit(Firsts(bs), i);
    if !InBucket(bs, i, my) || bit >= WIDTH then None
    else
      var b, mid := bs[i], MiddleId(bs[i].first, bit);
      var half := Max(b.maxCount / 2, 8);
      var mineBelow := !Less(my, b.first) && Less(my, mid);
      var lower := b.(nodes := [], count := 0, cached := None, maxCount := if mineBelow then half else b.maxCount);
      var upper := Bucket(mid, 0, if mineBelow then b.maxCount else half, b.time, [], None);
      Some((Replaced(bs, i, lower, upper), b.nodes))
  }

  /** Whether the lower half is still ours depends on one bit of our id. */
  lemma MineIsBit(my: Id, d: nat)
    requires d < WIDTH
    ensures !Less(my, Pad(my[..d])) && Less(my, MiddleId(Pad(my[..d]), d)) <==> !my[d]
  {
    var p := my[..d];
    assert PartAt(p + [false], p + [true], d);
    RangeIsSubtree(p + [false], p + [true], my);
    MiddleIdIsHalf(p);
    assert p + [false] <= my <==> !my[d];
  }

  lemma SplitBegins(my: Id, bs: seq<Bucket>, lower: Bucket, upper: Bucket)
    requires ShapeOk(my, bs) && |bs| - 1 < WIDTH
    requires lower.first == bs[OwnIndex(my, |bs| - 1)].first
    requires upper.first == MiddleId(lower.first, |bs| - 1)
    ensures BeginAt(Firsts(Replaced(bs, OwnIndex(my, |bs| - 1), lower, upper)), Subtrees(my, |bs|))
  {
    var d := |bs| - 1;
    var o, ps := OwnIndex(my, d), Subtrees(my, d);
    NextSubtrees(my, d);
    MiddleIdIsHalf(ps[o]);
    var r := Replaced(bs, o, lower, upper);
    forall i | 0 <= i < |r|
      ensures Firsts(r)[i] == Pad(Subtrees(my, d + 1)[i])
    {
      if i < o {
        assert r[i] == bs[i] && Firsts(bs)[i] == Pad(ps[i]);
      } else if i > o + 1 {
        assert r[i] == bs[i - 1] && Firsts(bs)[i - 1] == Pad(ps[i - 1]);
      } else {
        assert Firsts(bs)[o] == Pad(ps[o]);
      }
    }
  }

  lemma SplitQuotas(my: Id, bs: seq<Bucket>, lower: Bucket, upper: Bucket)
    requires ShapeOk(my, bs) && |bs| - 1 < WIDTH
    requires lower.maxCount == Quota(if my[|bs| - 1] then |bs| - 1 else |bs|)
    requires upper.maxCount == Quota(if my[|bs| - 1] then |bs| else |bs| - 1)
    ensures var r := Replaced(bs, OwnIndex(my, |bs| - 1), lower, upper);
      forall i :: 0 <= i < |r| ==> r[i].maxCount == Quota(Order(my, |bs|)[i])
  {
    var d := |bs| - 1;
    var o := OwnIndex(my, d);
    var q, r := Order(my, d), Replaced(bs, o, lower, upper);
    assert Order(my, |bs|) == SplitLabel(q, o, my[d], d + 1);
    forall i: nat | i < |r|
      ensures r[i].maxCount == Quota(SplitLabel(q, o, my[d], d + 1)[i])
    {
      QuotaAt(bs, q, o, my[d], lower, upper, i);
    }
  }

  lemma QuotaAt(bs: seq<Bucket>, q: seq<nat>, o: nat, right: bool, lower: Bucket, upper: Bucket, i: nat)
    requires |q| == |bs| > 0 && o < |bs| && i <= |bs|
    requires forall j :: 0 <= j < |bs| ==> bs[j].maxCount == Quota(q[j])
    requires lower.maxCount == Quota(if right then |bs| - 1 else |bs|)
    requires upper.maxCount == Quota(if right then |bs| else |bs| - 1)
    ensures Replaced(bs, o, lower, upper)[i].maxCount == Quota(SplitLabel(q, o, right, |bs|)[i])
  {
    hide Quota, SplitLabel;
    SplitLabelIs(q, o, right, |bs|, i);
  }

  function Replaced(bs: seq<Bucket>, i: nat, lower: Bucket, upper: Bucket): (r: seq<Bucket>)
    requires i < |bs|
    ensures |r| == |bs| + 1
    ensures forall j :: 0 <= j < |r| ==>
      r[j] == if j < i then bs[j] else if j == i then lower else if j == i + 1 then upper else bs[j - 1]
  {
    bs[..i] + [lower, upper] + bs[i + 1..]
  }

  /** In a table of less than full depth, splitting our own bucket succeeds and
      gives the table of the next depth, its two new buckets empty. */
  lemma SplitHelperShape(my: Id, bs: seq<Bucket>, i: nat)
    requires ShapeOk(my, bs) && i < |bs|
    ensures SplitHelper(my, bs, i).Some? <==> i == OwnIndex(my, |bs| - 1) && |bs| - 1 < WIDTH
    ensures SplitHelper(my, bs, i).Some? ==> ShapeOk(my, SplitHelper(my, bs, i).value.0)
  {
    hide ShapeOk, OwnIndex, InBucket, SplitHelper, MiddleBit;
    HelperSucceeds(my, bs, i);
    if SplitHelper(my, bs, i).Some? { HelperShape(my, bs, i); }
  }

  lemma HelperSucceeds(my: Id, bs: seq<Bucket>, i: nat)
    requires ShapeOk(my, bs) && i < |bs|
    ensures SplitHelper(my, bs, i).Some? <==> i == OwnIndex(my, |bs| - 1) && |bs| - 1 < WIDTH
    ensures i == OwnIndex(my, |bs| - 1) ==> MiddleBit(Firsts(bs), i) == |bs| - 1
  {
    var d := |bs| - 1;
    hide OwnIndex, Less, Common, MiddleId, MiddleBit, Order, InBucket;
    OwnBucket(my, bs, i);
    SubtreesTile(my, d);
    MiddleBitIsDepth(Firsts(bs), Subtrees(my, d), i);
    OwnFirst(my, bs);
  }

  lemma HelperShape(my: Id, bs: seq<Bucket>, i: nat)
    requires ShapeOk(my, bs) && i < |bs| && SplitHelper(my, bs, i).Some?
    ensures ShapeOk(my, SplitHelper(my, bs, i).value.0)
  {
    var d := |bs| - 1;
    hide OwnIndex, Less, Common, MiddleId, MiddleBit, Order, InBucket;
    HelperSucceeds(my, bs, i);
    OwnFirst(my, bs);
    MineIsBit(my, d);
    OrderIsPermutation(my, d);
    var r := SplitHelper(my, bs, i).value.0;
    SplitBegins(my, bs, r[i], r[i + 1]);
    SplitQuotas(my, bs, r[i], r[i + 1]);
  }

  lemma OwnFirst(my: Id, bs: seq<Bucket>)
    requires ShapeOk(my, bs)
    ensures OwnIndex(my, |bs| - 1) < |bs| && bs[OwnIndex(my, |bs| - 1)].first == Pad(my[..|bs| - 1])
    ensures |Subtrees(my, |bs| - 1)[OwnIndex(my, |bs| - 1)]| == |bs| - 1
  {
    var o := OwnIndex(my, |bs| - 1);
    OrderIsPermutation(my, |bs| - 1);
    assert Firsts(bs)[o] == bs[o].first;
  }

  /** insert_node: None when the bucket is full. */
  function InsertNode(bs: seq<Bucket>, n: Node): (r: Option<seq<Bucket>>)
    requires |bs| > 0
  {
    var i := FindBucket(bs, n.id);
    var b := bs[i];
    if b.count >= b.maxCount then None
    else Some(bs[i := b.(nodes := [n] + b.nodes, count := b.count + 1)])
  }

  /** Changing what a bucket holds does not change the shape. */
  lemma UpdateShape(my: Id, bs: seq<Bucket>, i: nat, b: Bucket)
    requires ShapeOk(my, bs) && i < |bs| && b.first == bs[i].first && b.maxCount == bs[i].maxCount
    ensures ShapeOk(my, bs[i := b])
  {
    assert Firsts(bs[i := b]) == Firsts(bs);
  }

  /** The loop of split_bucket: reinsert the pending nodes one by one, splitting
      our own bucket again when it is full. Yields the table and the freed nodes. */
  function SplitLoop(my: Id, bs: seq<Bucket>, pending: seq<Node>): (r: (seq<Bucket>, seq<Node>))
    requires ShapeOk(my, bs)
    ensures ShapeOk(my, r.0) && |bs| <= |r.0|
    decreases WIDTH + 1 - |bs|, |pending|
  {
    if pending == [] then (bs, [])
    else
      var n, i := pending[0], FindBucket(bs, pending[0].id);
      if bs[i].count < bs[i].maxCount then
        var b := bs[i];
        UpdateShape(my, bs, i, b.(nodes := [n] + b.nodes, count := b.count + 1));
        SplitLoop(my, InsertNode(bs, n).value, pending[1..])
      else if SplitHelper(my, bs, i).None? then
        var r := SplitLoop(my, bs, pending[1..]);
        (r.0, [n] + r.1)
      else
        SplitHelperShape(my, bs, i);
        SplitLoop(my, SplitHelper(my, bs, i).value.0, pending + SplitHelper(my, bs, i).value.1)
  }

  /** split_bucket on bucket i: None where it returns -1. */
  function SplitBucket(my: Id, bs: seq<Bucket>, i: nat): (r: Option<(seq<Bucket>, seq<Node>)>)
    requires ShapeOk(my, bs) && i < |bs|
    ensures r.Some? ==> ShapeOk(my, r.value.0) && |bs| < |r.value.0|
  {
    SplitHelperShape(my, bs, i);
    match SplitHelper(my, bs, i)
    case None => None
    case Some((split, nodes)) => Some(SplitLoop(my, split, nodes))
  }

  // What splitting keeps.

  /** All nodes of the table, bucket after bucket. */
  ghost function AllNodes(bs: seq<Bucket>): seq<Node> {
    if bs == [] then [] else bs[0].nodes + AllNodes(bs[1..])
  }

  lemma {:induction false} AllNodesConcat(a: seq<Bucket>, b: seq<Bucket>)
    ensures AllNodes(a + b) == AllNodes(a) + AllNodes(b)
  {
    if a == [] {
      assert a + b == b;
    } else {
      var t, ab := a[1..], a + b;
      assert ab[0] == a[0] && ab[1..] == t + b;
      AllNodesConcat(t, b);
      assert a[0].nodes + (AllNodes(t) + AllNodes(b)) == (a[0].nodes + AllNodes(t)) + AllNodes(b);
    }
  }

  lemma AllNodesOne(b: Bucket)
    ensures AllNodes([b]) == b.nodes
  {
    assert [b][1..] == [];
  }

  lemma AllNodesThree(l: seq<Bucket>, b: Bucket, r: seq<Bucket>)
    ensures AllNodes(l + [b] + r) == AllNodes(l) + b.nodes + AllNodes(r)
  {
    hide AllNodes;
    AllNodesConcat(l + [b], r);
    AllNodesConcat(l, [b]);
    AllNodesOne(b);
  }

  /** The table's nodes are those left of bucket i, in it, and right of it. */
  lemma AllNodesAround(bs: seq<Bucket>, i: nat)
    requires i < |bs|
    ensures AllNodes(bs) == AllNodes(bs[..i]) + bs[i].nodes + AllNodes(bs[i + 1..])
  {
    hide AllNodes;
    AllNodesThree(bs[..i], bs[i], bs[i + 1..]);
    assert bs[..i] + [bs[i]] + bs[i + 1..] == bs;
  }

  lemma AllNodesUpdate(bs: seq<Bucket>, i: nat, b: Bucket)
    requires i < |bs|
    ensures AllNodes(bs[i := b]) == AllNodes(bs[..i]) + b.nodes + AllNodes(bs[i + 1..])
  {
    var c := bs[i := b];
    AllNodesAround(c, i);
    assert c[..i] == bs[..i] && c[i + 1..] == bs[i + 1..];
  }

  lemma AllNodesReplaced(bs: seq<Bucket>, i: nat, lower: Bucket, upper: Bucket)
    requires i < |bs| && lower.nodes == [] && upper.nodes == []
    ensures AllNodes(Replaced(bs, i, lower, upper)) == AllNodes(bs[..i]) + AllNodes(bs[i + 1..])
  {
    var c := Replaced(bs, i, lower, upper);
    AllNodesAround(c, i);
    assert c[..i] == bs[..i] && c[i + 1..] == [upper] + bs[i + 1..];
    AllNodesConcat([upper], bs[i + 1..]);
    AllNodesOne(upper);
  }

  /** insert_node adds the node and touches no other. */
  lemma InsertConserves(bs: seq<Bucket>, n: Node)
    requires |bs| > 0 && InsertNode(bs, n).Some?
    ensures multiset(AllNodes(InsertNode(bs, n).value)) == multiset(AllNodes(bs)) + multiset{n}
  {
    var i := FindBucket(bs, n.id);
    var l, c, r := AllNodes(bs[..i]), bs[i].nodes, AllNodes(bs[i + 1..]);
    AllNodesUpdate(bs, i, InsertNode(bs, n).value[i]);
    AllNodesAround(bs, i);
    MoveFront(l, n, c, r);
  }

  lemma MoveFront(l: seq<Node>, n: Node, c: seq<Node>, r: seq<Node>)
    ensures multiset(l + ([n] + c) + r) == multiset(l + c + r) + multiset{n}
  {}

  /** A split takes the bucket's nodes out and touches no other. */
  lemma SplitHelperConserves(my: Id, bs: seq<Bucket>, i: nat)
    requires i < |bs| && SplitHelper(my, bs, i).Some?
    ensures SplitHelper(my, bs, i).value.1 == bs[i].nodes
    ensures multiset(AllNodes(SplitHelper(my, bs, i).value.0)) + multiset(bs[i].nodes) == multiset(AllNodes(bs))
  {
    var r := SplitHelper(my, bs, i).value.0;
    AllNodesReplaced(bs, i, r[i], r[i + 1]);
    AllNodesAround(bs, i);
    assert r == Replaced(bs, i, r[i], r[i + 1]);
    TakeMiddle(AllNodes(bs[..i]), bs[i].nodes, AllNodes(bs[i + 1..]));
  }

  lemma TakeMiddle(l: seq<Node>, c: seq<Node>, r: seq<Node>)
    ensures multiset(l + r) + multiset(c) == multiset(l + c + r)
  {}

  /** Nodes waiting to be reinserted: ours is not among them, none occurs twice
      or is in the table already. */
  ghost predicate PendingOk(my: Id, bs: seq<Bucket>, pending: seq<Node>) {
    && DistinctIds(pending)
    && forall a :: 0 <= a < |pending| ==> pending[a].id != my && Absent(bs, pending[a].id)
  }

  ghost predicate Absent(bs: seq<Bucket>, id: Id) {
    forall i, a :: 0 <= i < |bs| && 0 <= a < |bs[i].nodes| ==> bs[i].nodes[a].id != id
  }

  ghost function NodeIds(nodes: seq<Node>): set<Id> {
    set a | 0 <= a < |nodes| :: nodes[a].id
  }

  lemma {:induction false} DistinctSize(nodes: seq<Node>)
    requires DistinctIds(nodes)
    ensures |NodeIds(nodes)| == |nodes|
  {
    if nodes != [] {
      var k := |nodes| - 1;
      DistinctSize(nodes[..k]);
      assert NodeIds(nodes) == NodeIds(nodes[..k]) + {nodes[k].id};
    }
  }

  /** A full own bucket and one more id for it are ten ids (ours is the tenth)
      under one prefix, so the table is at least four bits away from its end. */
  lemma FullOwnBucketIsShallow(my: Id, bs: seq<Bucket>, i: nat, id: Id)
    requires ShapeOk(my, bs) && i < |bs| && BucketOk(my, bs, i)
    requires InBucket(bs, i, my) && InBucket(bs, i, id)
    requires bs[i].count >= bs[i].maxCount && id != my
    requires forall a :: 0 <= a < |bs[i].nodes| ==> bs[i].nodes[a].id != id
    ensures |bs| - 1 <= WIDTH - 4
  {
    var d, nodes := |bs| - 1, bs[i].nodes;
    OwnBucket(my, bs, i);
    InBucketIsLabel(my, bs, i, id);
    CommonAll(my, my);
    TenIds(my, nodes, id, d);
  }

  lemma TenIds(my: Id, nodes: seq<Node>, id: Id, d: nat)
    requires d <= WIDTH && DistinctIds(nodes) && |nodes| >= 8 && id != my
    requires forall a :: 0 <= a < |nodes| ==> nodes[a].id != id && nodes[a].id != my && Label(my, nodes[a].id, d) == d
    requires Label(my, id, d) == d && Label(my, my, d) == d
    ensures d <= WIDTH - 4
  {
    hide Label;
    var ids := NodeIds(nodes) + {id} + {my};
    DistinctSize(nodes);
    TwoMore(nodes, id, my);
    forall x | x in ids
      ensures my[..d] <= x
    {
      assert Label(my, x, d) == d;
      UnderOwn(my, x, d);
    }
    TenIdsNeedFourBits(ids, my[..d]);
  }

  lemma TwoMore(nodes: seq<Node>, a: Id, b: Id)
    requires a != b && forall k :: 0 <= k < |nodes| ==> nodes[k].id != a && nodes[k].id != b
    ensures |NodeIds(nodes) + {a} + {b}| == |NodeIds(nodes)| + 2
  {
    assert a !in NodeIds(nodes) && b !in NodeIds(nodes) + {a};
  }

  lemma UnderOwn(my: Id, id: Id, d: nat)
    requires d <= WIDTH && Label(my, id, d) == d
    ensures my[..d] <= id
  {
    LabelIsPrefix(my, id, d, d);
  }

  // The loop of split_bucket keeps the table in order and loses only nodes whose
  // bucket was full and not ours.

  lemma LabelStays(my: Id, id: Id, k: nat, d: nat)
    requires k < d && Label(my, id, d) == k
    ensures Label(my, id, d + 1) == k
  {}

  lemma MovedBucketOk(my: Id, bs: seq<Bucket>, i: nat, r: seq<Bucket>, j: nat)
    requires ShapeOk(my, bs) && ShapeOk(my, r) && i == OwnIndex(my, |bs| - 1) && |r| == |bs| + 1
    requires j < |r| && j != i && j != i + 1
    requires BucketOk(my, bs, if j < i then j else j - 1) && r[j] == bs[if j < i then j else j - 1]
    ensures BucketOk(my, r, j)
  {
    var d, j' := |bs| - 1, if j < i then j else j - 1;
    OrderIsPermutation(my, d);
    SplitLabelIs(Order(my, d), i, my[d], d + 1, j);
    assert Order(my, d + 1)[j] == Order(my, d)[j'] < d;
  }

  lemma SplitHelperNodes(my: Id, bs: seq<Bucket>, i: nat, r: seq<Bucket>)
    requires i < |bs| && SplitHelper(my, bs, i).Some? && SplitHelper(my, bs, i).value.0 == r
    ensures |r| == |bs| + 1 && r[i].nodes == [] && r[i + 1].nodes == [] && r[i].count == 0 && r[i + 1].count == 0
    ensures forall j :: 0 <= j < i ==> r[j] == bs[j]
    ensures forall j :: i + 1 < j < |r| ==> r[j] == bs[j - 1]
  {}

  lemma SplitHelperOk(my: Id, bs: seq<Bucket>, i: nat)
    requires TableOk(my, bs) && |bs| - 1 < MAX_DEPTH && i < |bs| && InBucket(bs, i, my)
    ensures SplitHelper(my, bs, i).Some? && TableOk(my, SplitHelper(my, bs, i).value.0)
  {
    hide SplitHelper, InBucket, BucketOk, ShapeOk, Label, Order;
    OwnBucket(my, bs, i);
    SplitHelperShape(my, bs, i);
    var r := SplitHelper(my, bs, i).value.0;
    SplitHelperNodes(my, bs, i, r);
    forall j: nat | j < |r|
      ensures BucketOk(my, r, j)
    {
      if j != i && j != i + 1 {
        assert BucketOk(my, bs, if j < i then j else j - 1);
        MovedBucketOk(my, bs, i, r, j);
      } else {
        EmptyBucketOk(my, r, j);
      }
    }
  }

  lemma EmptyBucketOk(my: Id, bs: seq<Bucket>, i: nat)
    requires ShapeOk(my, bs) && i < |bs| && bs[i].nodes == [] && bs[i].count == 0
    ensures BucketOk(my, bs, i)
  {}

  lemma AddNodeOk(my: Id, bs: seq<Bucket>, i: nat, b: Bucket, n: Node)
    requires TableOk(my, bs) && i < |bs| && InBucket(bs, i, n.id) && n.id != my
    requires bs[i].count < bs[i].maxCount
    requires forall a :: 0 <= a < |bs[i].nodes| ==> bs[i].nodes[a].id != n.id
    requires b.first == bs[i].first && b.maxCount == bs[i].maxCount
    requires b.nodes == [n] + bs[i].nodes && b.count == bs[i].count + 1
    ensures TableOk(my, bs[i := b])
  {
    hide InBucket, ShapeOk, BucketOk, Label, Order;
    UpdateShape(my, bs, i, b);
    UpdateOthers(my, bs, i, bs[i := b]);
    AddedBucketOk(my, bs, i, b, n);
  }

  lemma AddedBucketOk(my: Id, bs: seq<Bucket>, i: nat, b: Bucket, n: Node)
    requires TableOk(my, bs) && i < |bs| && InBucket(bs, i, n.id) && n.id != my
    requires bs[i].count < bs[i].maxCount
    requires forall a :: 0 <= a < |bs[i].nodes| ==> bs[i].nodes[a].id != n.id
    requires b.maxCount == bs[i].maxCount && b.nodes == [n] + bs[i].nodes && b.count == bs[i].count + 1
    ensures BucketOk(my, bs[i := b], i)
  {
    hide InBucket, Label, Order, Quota;
    InBucketIsLabel(my, bs, i, n.id);
    assert BucketOk(my, bs, i);
  }

  /** To keep the table in order it is enough that the changed bucket is. */
  lemma UpdateOthers(my: Id, bs: seq<Bucket>, i: nat, r: seq<Bucket>)
    requires |r| == |bs| <= WIDTH + 1 && i < |bs| && r == bs[i := r[i]]
    requires forall j :: 0 <= j < |bs| ==> BucketOk(my, bs, j)
    ensures forall j :: 0 <= j < |bs| && j != i ==> BucketOk(my, r, j)
  {
    forall j | 0 <= j < |bs| && j != i
      ensures BucketOk(my, r, j)
    {
      assert BucketOk(my, bs, j);
    }
  }

  lemma PendingAfterInsert(my: Id, bs: seq<Bucket>, pending: seq<Node>, r: seq<Bucket>)
    requires PendingOk(my, bs, pending) && pending != [] && |bs| > 0
    requires InsertNode(bs, pending[0]) == Some(r)
    ensures PendingOk(my, r, pending[1..])
  {
    var n, i := pending[0], FindBucket(bs, pending[0].id);
    forall a | 0 <= a < |pending[1..]|
      ensures Absent(r, pending[1..][a].id)
    {
      assert pending[1..][a] == pending[a + 1] && Absent(bs, pending[a + 1].id);
    }
  }

  lemma BucketsDisjoint(my: Id, bs: seq<Bucket>, i: nat, j: nat, a: nat, b: nat)
    requires TableOk(my, bs) && i < |bs| && j < |bs| && a < |bs[i].nodes| && b < |bs[j].nodes|
    requires bs[i].nodes[a].id == bs[j].nodes[b].id
    ensures i == j && a == b
  {
    OrderIsPermutation(my, |bs| - 1);
    assert BucketOk(my, bs, i) && BucketOk(my, bs, j);
  }

  lemma TakenOutAbsent(my: Id, bs: seq<Bucket>, i: nat, r: seq<Bucket>, k: nat)
    requires TableOk(my, bs) && i < |bs| && k < |bs[i].nodes|
    requires SplitHelper(my, bs, i) == Some((r, bs[i].nodes))
    ensures Absent(r, bs[i].nodes[k].id)
  {
    SplitHelperNodes(my, bs, i, r);
    hide SplitHelper, TableOk;
    forall j: nat, b: nat | j < |r| && b < |r[j].nodes|
      ensures r[j].nodes[b].id != bs[i].nodes[k].id
    {
      var j' := if j < i then j else j - 1;
      if r[j].nodes[b].id == bs[i].nodes[k].id {
        BucketsDisjoint(my, bs, i, j', k, b);
      }
    }
  }

  lemma PendingAfterSplit(my: Id, bs: seq<Bucket>, pending: seq<Node>, i: nat, r: seq<Bucket>)
    requires TableOk(my, bs) && PendingOk(my, bs, pending) && i < |bs|
    requires SplitHelper(my, bs, i) == Some((r, bs[i].nodes))
    ensures PendingOk(my, r, pending + bs[i].nodes)
  {
    hide SplitHelper;
    assert BucketOk(my, bs, i);
    forall a: nat | a < |pending|
      ensures Absent(r, pending[a].id)
    {
      AbsentAfterSplit(my, bs, i, r, bs[i].nodes, pending[a].id);
    }
    forall k: nat | k < |bs[i].nodes|
      ensures bs[i].nodes[k].id != my && Absent(r, bs[i].nodes[k].id)
    {
      TakenOutAbsent(my, bs, i, r, k);
    }
    DistinctAppend(bs, pending, i);
    PendingJoin(my, r, pending, bs[i].nodes);
  }

  lemma PendingJoin(my: Id, r: seq<Bucket>, p: seq<Node>, q: seq<Node>)
    requires forall a :: 0 <= a < |p| ==> p[a].id != my && Absent(r, p[a].id)
    requires forall a :: 0 <= a < |q| ==> q[a].id != my && Absent(r, q[a].id)
    requires DistinctIds(p + q)
    ensures PendingOk(my, r, p + q)
  {}

  lemma DistinctAppend(bs: seq<Bucket>, pending: seq<Node>, i: nat)
    requires i < |bs| && DistinctIds(pending) && DistinctIds(bs[i].nodes)
    requires forall a :: 0 <= a < |pending| ==> Absent(bs, pending[a].id)
    ensures DistinctIds(pending + bs[i].nodes)
  {
    forall a, b | 0 <= a < |pending| && 0 <= b < |bs[i].nodes|
      ensures pending[a].id != bs[i].nodes[b].id
    {
      assert Absent(bs, pending[a].id);
    }
  }

  lemma AbsentAfterSplit(my: Id, bs: seq<Bucket>, i: nat, r: seq<Bucket>, nodes: seq<Node>, id: Id)
    requires i < |bs| && SplitHelper(my, bs, i) == Some((r, nodes)) && Absent(bs, id)
    ensures Absent(r, id)
  {}

  /** The bucket for id is full and is not ours. */
  ghost predicate FullForeign(my: Id, bs: seq<Bucket>, id: Id) {
    exists i: nat :: FullForeignAt(my, bs, id, i)
  }

  ghost predicate FullForeignAt(my: Id, bs: seq<Bucket>, id: Id, i: nat) {
    i < |bs| && InBucket(bs, i, id) && !InBucket(bs, i, my) && bs[i].count >= bs[i].maxCount
  }

  lemma FullForeignKeptByInsert(my: Id, bs: seq<Bucket>, n: Node, r: seq<Bucket>, id: Id)
    requires |bs| > 0 && InsertNode(bs, n) == Some(r) && FullForeign(my, bs, id)
    ensures FullForeign(my, r, id)
  {
    var i: nat :| FullForeignAt(my, bs, id, i);
    var j := FindBucket(bs, n.id);
    assert i != j && r == bs[j := r[j]] && r[j].first == bs[j].first;
    SameFirsts(bs, j, r[j], i, id);
    SameFirsts(bs, j, r[j], i, my);
    assert FullForeignAt(my, r, id, i);
  }

  lemma SameFirsts(bs: seq<Bucket>, j: nat, b: Bucket, i: nat, id: Id)
    requires j < |bs| && i < |bs| && b.first == bs[j].first
    ensures InBucket(bs[j := b], i, id) == InBucket(bs, i, id)
  {
    hide Less;
  }

  lemma FullForeignKeptBySplit(my: Id, bs: seq<Bucket>, j: nat, r: seq<Bucket>, id: Id)
    requires ShapeOk(my, bs) && j < |bs| && SplitHelper(my, bs, j).Some? && SplitHelper(my, bs, j).value.0 == r
    requires FullForeign(my, bs, id)
    ensures FullForeign(my, r, id)
  {
    hide SplitHelper, InBucket, Order, OwnIndex, Label;
    var i: nat :| FullForeignAt(my, bs, id, i);
    SplitHelperShape(my, bs, j);
    OwnBucket(my, bs, j);
    OwnBucket(my, bs, i);
    InBucketIsLabel(my, bs, i, id);
    var i' := ForeignLabelKept(my, |bs| - 1, Order(my, |bs| - 1)[i], i, id);
    SplitHelperKeeps(my, bs, j, r, i);
    OwnBucket(my, r, i');
    InBucketIsLabel(my, r, i', id);
    assert FullForeignAt(my, r, id, i');
  }

  lemma SplitHelperKeeps(my: Id, bs: seq<Bucket>, j: nat, r: seq<Bucket>, i: nat)
    requires j < |bs| && SplitHelper(my, bs, j).Some? && SplitHelper(my, bs, j).value.0 == r
    requires i < |bs| && i != j
    ensures |r| == |bs| + 1 && r[if i < j then i else i + 1] == bs[i]
  {}

  lemma ForeignLabelKept(my: Id, d: nat, k: nat, i: nat, id: Id) returns (i': nat)
    requires d < WIDTH && i <= d && Order(my, d)[i] == k == Label(my, id, d) && i != OwnIndex(my, d)
    ensures i' == if i < OwnIndex(my, d) then i else i + 1
    ensures i' <= d + 1 && Order(my, d + 1)[i'] == Label(my, id, d + 1) && Order(my, d + 1)[i'] != d + 1
  {
    OrderIsPermutation(my, d);
    LabelStays(my, id, k, d);
    i' := if i < OwnIndex(my, d) then i else i + 1;
    SplitLabelIs(Order(my, d), OwnIndex(my, d), my[d], d + 1, i');
  }

  lemma {:induction false} FullForeignKept(my: Id, bs: seq<Bucket>, pending: seq<Node>, id: Id)
    requires ShapeOk(my, bs) && FullForeign(my, bs, id)
    ensures FullForeign(my, SplitLoop(my, bs, pending).0, id)
    decreases WIDTH + 1 - |bs|, |pending|
  {
    hide FullForeign, InBucket;
    if pending != [] {
      var n, i := pending[0], FindBucket(bs, pending[0].id);
      if bs[i].count < bs[i].maxCount {
        var b := bs[i].(nodes := [n] + bs[i].nodes, count := bs[i].count + 1);
        UpdateShape(my, bs, i, b);
        FullForeignKeptByInsert(my, bs, n, bs[i := b], id);
        FullForeignKept(my, bs[i := b], pending[1..], id);
      } else if SplitHelper(my, bs, i).None? {
        FullForeignKept(my, bs, pending[1..], id);
      } else {
        SplitHelperShape(my, bs, i);
        var r := SplitHelper(my, bs, i).value;
        FullForeignKeptBySplit(my, bs, i, r.0, id);
        FullForeignKept(my, r.0, pending + r.1, id);
      }
    }
  }

  // A split leaves the nodes of all other buckets where they are.

  ghost predicate ForeignNode(my: Id, bs: seq<Bucket>, n: Node) {
    exists i: nat :: ForeignNodeAt(my, bs, n, i)
  }

  ghost predicate ForeignNodeAt(my: Id, bs: seq<Bucket>, n: Node, i: nat) {
    i < |bs| && n in bs[i].nodes && !InBucket(bs, i, my)
  }

  lemma ForeignKeptByInsert(my: Id, bs: seq<Bucket>, m: Node, r: seq<Bucket>, n: Node)
    requires |bs| > 0 && InsertNode(bs, m) == Some(r) && ForeignNode(my, bs, n)
    ensures ForeignNode(my, r, n)
  {
    hide InBucket;
    var i: nat :| ForeignNodeAt(my, bs, n, i);
    var j := FindBucket(bs, m.id);
    assert r == bs[j := r[j]] && r[j].first == bs[j].first;
    SameFirsts(bs, j, r[j], i, my);
    assert ForeignNodeAt(my, r, n, i);
  }

  lemma ForeignKeptBySplit(my: Id, bs: seq<Bucket>, j: nat, r: seq<Bucket>, n: Node)
    requires ShapeOk(my, bs) && j < |bs| && SplitHelper(my, bs, j).Some? && SplitHelper(my, bs, j).value.0 == r
    requires ForeignNode(my, bs, n)
    ensures ForeignNode(my, r, n)
  {
    hide SplitHelper, InBucket, Order, ShapeOk;
    var i: nat :| ForeignNodeAt(my, bs, n, i);
    SplitHelperShape(my, bs, j);
    OwnBucket(my, bs, j);
    OwnBucket(my, bs, i);
    var i' := if i < j then i else i + 1;
    SplitHelperKeeps(my, bs, j, r, i);
    OwnBucket(my, r, i');
    assert ForeignNodeAt(my, r, n, i');
  }

  lemma {:induction false} ForeignKept(my: Id, bs: seq<Bucket>, pending: seq<Node>, n: Node)
    requires ShapeOk(my, bs) && ForeignNode(my, bs, n)
    ensures ForeignNode(my, SplitLoop(my, bs, pending).0, n)
    decreases WIDTH + 1 - |bs|, |pending|
  {
    hide ForeignNode, InBucket;
    if pending != [] {
      var m, i := pending[0], FindBucket(bs, pending[0].id);
      if bs[i].count < bs[i].maxCount {
        var b := bs[i].(nodes := [m] + bs[i].nodes, count := bs[i].count + 1);
        UpdateShape(my, bs, i, b);
        ForeignKeptByInsert(my, bs, m, bs[i := b], n);
        ForeignKept(my, bs[i := b], pending[1..], n);
      } else if SplitHelper(my, bs, i).None? {
        ForeignKept(my, bs, pending[1..], n);
      } else {
        SplitHelperShape(my, bs, i);
        var r := SplitHelper(my, bs, i).value;
        ForeignKeptBySplit(my, bs, i, r.0, n);
        ForeignKept(my, r.0, pending + r.1, n);
      }
    }
  }

  /** What the loop of split_bucket promises when `all` are the nodes it has, in
      the table or pending. */
  ghost predicate LoopOk(my: Id, all: multiset<Node>, r: (seq<Bucket>, seq<Node>)) {
    && TableOk(my, r.0)
    && multiset(AllNodes(r.0)) + multiset(r.1) == all
    && forall a :: 0 <= a < |r.1| ==> FullForeign(my, r.0, r.1[a].id)
  }

  ghost function NodesHeld(bs: seq<Bucket>, pending: seq<Node>): multiset<Node> {
    multiset(AllNodes(bs)) + multiset(pending)
  }

  /** Reinsertion keeps the table in order, drops no node except where its bucket
      is full and not ours, and never meets a bucket it cannot split. */
  lemma {:induction false} SplitLoopOk(my: Id, bs: seq<Bucket>, pending: seq<Node>)
    requires TableOk(my, bs) && PendingOk(my, bs, pending)
    ensures LoopOk(my, NodesHeld(bs, pending), SplitLoop(my, bs, pending))
    decreases WIDTH + 1 - |bs|, |pending|
  {
    hide LoopOk, NodesHeld, InBucket, PendingOk;
    if pending == [] {
      LoopEnds(my, bs);
    } else {
      var n, i := pending[0], FindBucket(bs, pending[0].id);
      FindIsLabel(my, bs, n.id);
      if bs[i].count < bs[i].maxCount {
        InsertStep(my, bs, pending);
        SplitLoopOk(my, InsertNode(bs, n).value, pending[1..]);
      } else if !InBucket(bs, i, my) {
        FreeStep(my, bs, pending);
        SplitLoopOk(my, bs, pending[1..]);
        FullForeignHere(my, bs, n.id, i);
        FullForeignKept(my, bs, pending[1..], n.id);
        FreeLoopOk(my, NodesHeld(bs, pending[1..]), n, SplitLoop(my, bs, pending[1..]));
        HeldHead(bs, pending);
      } else {
        SplitStep(my, bs, pending);
        var r := SplitHelper(my, bs, i).value;
        SplitLoopOk(my, r.0, pending + r.1);
      }
    }
  }

  lemma LoopEnds(my: Id, bs: seq<Bucket>)
    requires TableOk(my, bs)
    ensures LoopOk(my, NodesHeld(bs, []), (bs, []))
  {}

  lemma HeldHead(bs: seq<Bucket>, pending: seq<Node>)
    requires pending != []
    ensures NodesHeld(bs, pending) == NodesHeld(bs, pending[1..]) + multiset{pending[0]}
  {
    hide AllNodes;
    assert pending == [pending[0]] + pending[1..];
  }

  lemma FreeLoopOk(my: Id, all: multiset<Node>, n: Node, r: (seq<Bucket>, seq<Node>))
    requires LoopOk(my, all, r) && FullForeign(my, r.0, n.id)
    ensures LoopOk(my, all + multiset{n}, (r.0, [n] + r.1))
  {
    hide TableOk, FullForeign, AllNodes;
  }

  lemma FreeStep(my: Id, bs: seq<Bucket>, pending: seq<Node>)
    requires PendingOk(my, bs, pending) && pending != []
    ensures PendingOk(my, bs, pending[1..])
  {}

  lemma FullForeignHere(my: Id, bs: seq<Bucket>, id: Id, i: nat)
    requires FullForeignAt(my, bs, id, i)
    ensures FullForeign(my, bs, id)
  {}

  lemma InsertStep(my: Id, bs: seq<Bucket>, pending: seq<Node>)
    requires TableOk(my, bs) && PendingOk(my, bs, pending) && pending != []
    requires InsertNode(bs, pending[0]).Some?
    ensures TableOk(my, InsertNode(bs, pending[0]).value)
    ensures PendingOk(my, InsertNode(bs, pending[0]).value, pending[1..])
    ensures NodesHeld(InsertNode(bs, pending[0]).value, pending[1..]) == NodesHeld(bs, pending)
  {
    hide AllNodes;
    InsertConserves(bs, pending[0]);
    HeldHead(bs, pending);
    var n := pending[0];
    var i, r := FindBucket(bs, n.id), InsertNode(bs, n).value;
    FindIsLabel(my, bs, n.id);
    assert Absent(bs, n.id);
    AddNodeOk(my, bs, i, r[i], n);
    assert r == bs[i := r[i]];
    PendingAfterInsert(my, bs, pending, r);
  }

  /** The bucket can always be split: it is full, so the table is shallow. */
  lemma SplitStep(my: Id, bs: seq<Bucket>, pending: seq<Node>)
    requires TableOk(my, bs) && PendingOk(my, bs, pending) && pending != []
    requires InsertNode(bs, pending[0]).None? && InBucket(bs, FindBucket(bs, pending[0].id), my)
    ensures SplitHelper(my, bs, FindBucket(bs, pending[0].id)).Some?
    ensures var r := SplitHelper(my, bs, FindBucket(bs, pending[0].id)).value;
      TableOk(my, r.0) && PendingOk(my, r.0, pending + r.1) && NodesHeld(r.0, pending + r.1) == NodesHeld(bs, pending)
  {
    hide AllNodes;
    var id := pending[0].id;
    var i := FindBucket(bs, id);
    FindIsLabel(my, bs, id);
    assert Absent(bs, id);
    assert BucketOk(my, bs, i);
    FullOwnBucketIsShallow(my, bs, i, id);
    SplitHelperOk(my, bs, i);
    SplitHelperConserves(my, bs, i);
    PendingAfterSplit(my, bs, pending, i, SplitHelper(my, bs, i).value.0);
  }
}
