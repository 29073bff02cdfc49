/** The routing invariant in the terms of dht.c, for every table a run of
    operations can reach. */
module TableFacts {
  import opened Numbers
  import opened Ids
  import opened Layout
  import opened Table
  import opened TableOps
  import opened TableRuns

  /** The buckets are sorted from id 0 on, each is the set of ids under one
      prefix of at most 157 bits, and every id is in exactly one of them, the one
      find_bucket returns. */
  lemma BucketsTile(my: Id, ops: seq<Op>)
    ensures var bs := Run(my, ops);
      && 1 <= |bs| <= 158
      && bs[0].first == Pad([])
      && (forall i :: 0 <= i < |bs| - 1 ==> Less(bs[i].first, bs[i + 1].first))
      && (forall i: nat :: i < |bs| ==> IsSubtree(bs, i))
      && (forall id: Id, i :: 0 <= i < |bs| ==> (InBucket(bs, i, id) <==> i == FindBucket(bs, id)))
  {
    var bs := Run(my, ops);
    var d := |bs| - 1;
    var ps := Subtrees(my, d);
    SubtreesTile(my, d);
    PadIs([], Firsts(bs)[0]);
    forall i | 0 <= i < |bs| - 1
      ensures Less(bs[i].first, bs[i + 1].first)
    {
      RangeIsSubtree(ps[i], ps[i + 1], Firsts(bs)[i]);
    }
    forall i: nat | i < |bs|
      ensures IsSubtree(bs, i)
    {
      var p := SubtreeAt(my, bs, i);
    }
    forall id: Id, i | 0 <= i < |bs|
      ensures InBucket(bs, i, id) <==> i == FindBucket(bs, id)
    {
      FindIsLabel(my, bs, id);
    }
  }

  /** An aligned power-of-two range: the ids under one prefix. */
  ghost predicate IsSubtree(bs: seq<Bucket>, i: nat)
    requires i < |bs|
  {
    exists p: Prefix :: |p| <= 157 && RangeOf(bs, i, p)
  }

  ghost predicate RangeOf(bs: seq<Bucket>, i: nat, p: Prefix)
    requires i < |bs|
  {
    bs[i].first == Pad(p) && forall id: Id :: InBucket(bs, i, id) <==> p <= id
  }

  lemma SubtreeAt(my: Id, bs: seq<Bucket>, i: nat) returns (p: Prefix)
    requires TableOk(my, bs) && i < |bs|
    ensures |p| <= 157 && RangeOf(bs, i, p) && p == Subtrees(my, |bs| - 1)[i]
  {
    hide InBucket, Less;
    p := Subtrees(my, |bs| - 1)[i];
    SubtreesTile(my, |bs| - 1);
    assert bs[i].first == Firsts(bs)[i] == Pad(p);
    OrderIsPermutation(my, |bs| - 1);
    forall id: Id
      ensures InBucket(bs, i, id) <==> p <= id
    {
      InBucketIsLabel(my, bs, i, id);
      LabelIsPrefix(my, id, Order(my, |bs| - 1)[i], |bs| - 1);
    }
  }

  /** With d + 1 buckets, ids fall into the same bucket exactly when they share
      equally many leading bits with ours, up to d: one bucket for each number of
      shared bits, and ours for d and more. */
  lemma OneBucketPerPrefixLength(my: Id, ops: seq<Op>)
    ensures var bs := Run(my, ops);
      var d := |bs| - 1;
      && (forall a: Id,
        b: Id :: FindBucket(bs, a) == FindBucket(bs, b) <==> Min(Common(a, my), d) == Min(Common(b, my), d))
      && (forall id: Id :: InBucket(bs, FindBucket(bs, id), my) <==> Common(id, my) >= d)
  {
    hide InBucket, FindBucket, Common, TableOk, ShapeOk, Run, Min;
    var bs := Run(my, ops);
    FoundBucket(my, bs, my);
    forall a: Id, b: Id
      ensures FindBucket(bs, a) == FindBucket(bs, b) <==> Min(Common(a, my), |bs| - 1) == Min(Common(b, my), |bs| - 1)
    {
      SameBucket(my, bs, a, b);
    }
    forall id: Id
      ensures InBucket(bs, FindBucket(bs, id), my) <==> Common(id, my) >= |bs| - 1
    {
      OwnIsDeep(my, bs, id);
    }
  }

  lemma OwnIsDeep(my: Id, bs: seq<Bucket>, id: Id)
    requires TableOk(my, bs) && |bs| > 0
    ensures FindBucket(bs, id) < |bs| && (InBucket(bs, FindBucket(bs, id), my) <==> Common(id, my) >= |bs| - 1)
  {
    hide FindBucket, Common, InBucket, TableOk, ShapeOk;
    FoundBucket(my, bs, id);
    OrderIsPermutation(my, |bs| - 1);
    FindIsLabel(my, bs, id);
    OwnBucket(my, bs, FindBucket(bs, id));
  }

  lemma {:induction false} QuotaValues(k: nat)
    ensures Quota(k) in {8, 16, 32, 64, 128}
    ensures k >= 4 ==> Quota(k) == 8
  {
    if k > 0 { QuotaValues(k - 1); }
    if k >= 4 {
      assert Quota(1) == 64 && Quota(2) == 32 && Quota(3) == 16;
      assert Quota(4) == 8;
    }
  }

  /** What each bucket holds: as many nodes as counted and no more than allowed,
      each in the bucket's range, none with our id, and no id twice in the table. */
  lemma NodesInPlace(my: Id, ops: seq<Op>)
    ensures var bs := Run(my, ops);
      && (forall i :: 0 <= i < |bs| ==>
        bs[i].count == |bs[i].nodes| <= bs[i].maxCount && bs[i].maxCount in {8, 16, 32, 64, 128})
      && (forall i: nat,
        a: nat :: i < |bs| && a < |bs[i].nodes| ==> InBucket(bs, i, bs[i].nodes[a].id) && bs[i].nodes[a].id != my)
      && (forall i: nat, a: nat, j: nat, b: nat | i < |bs| && a < |bs[i].nodes| && j < |bs| && b < |bs[j].nodes| ::
            bs[i].nodes[a].id == bs[j].nodes[b].id ==> i == j && a == b)
  {
    hide InBucket, BucketOk, Quota, Order, Label, ShapeOk;
    var bs := Run(my, ops);
    forall i | 0 <= i < |bs|
      ensures bs[i].count == |bs[i].nodes| <= bs[i].maxCount && bs[i].maxCount in {8, 16, 32, 64, 128}
    {
      CountInPlace(my, bs, i);
    }
    forall i: nat, a: nat | i < |bs| && a < |bs[i].nodes|
      ensures InBucket(bs, i, bs[i].nodes[a].id) && bs[i].nodes[a].id != my
    {
      NodeInPlace(my, bs, i, a);
    }
    forall i: nat, a: nat, j: nat, b: nat | i < |bs| && a < |bs[i].nodes| && j < |bs| && b < |bs[j].nodes| &&
      bs[i].nodes[a].id == bs[j].nodes[b].id
      ensures i == j && a == b
    {
      BucketsDisjoint(my, bs, i, j, a, b);
    }
  }

  lemma CountInPlace(my: Id, bs: seq<Bucket>, i: nat)
    requires TableOk(my, bs) && i < |bs|
    ensures bs[i].count == |bs[i].nodes| <= bs[i].maxCount && bs[i].maxCount in {8, 16, 32, 64, 128}
  {
    assert BucketOk(my, bs, i);
    QuotaValues(Order(my, |bs| - 1)[i]);
  }

  lemma NodeInPlace(my: Id, bs: seq<Bucket>, i: nat, a: nat)
    requires TableOk(my, bs) && i < |bs| && a < |bs[i].nodes|
    ensures InBucket(bs, i, bs[i].nodes[a].id) && bs[i].nodes[a].id != my
  {
    hide InBucket;
    assert BucketOk(my, bs, i);
    InBucketIsLabel(my, bs, i, bs[i].nodes[a].id);
  }

  /** The repetitions in new_node and split_bucket never meet a bucket that cannot
      be split: our bucket, full, with one more id wanting in, is split at a depth
      of at most 156. */
  lemma SplitNeverFails(my: Id, ops: seq<Op>, i: nat, id: Id)
    requires i < |Run(my, ops)| && id != my
    requires InBucket(Run(my, ops), i, my) && InBucket(Run(my, ops), i, id)
    requires Run(my, ops)[i].count >= Run(my, ops)[i].maxCount
    requires forall a :: 0 <= a < |Run(my, ops)[i].nodes| ==> Run(my, ops)[i].nodes[a].id != id
    ensures |Run(my, ops)| - 1 <= 156
    ensures SplitBucket(my, Run(my, ops), i).Some?
    ensures TableOk(my, SplitBucket(my, Run(my, ops), i).value.0)
  {
    var bs := Run(my, ops);
    hide InBucket;
    assert BucketOk(my, bs, i);
    FullOwnBucketIsShallow(my, bs, i, id);
    SplitBucketOk(my, bs, i, id);
  }

  /** In every bucket, bucket_middle's bit is the length of the bucket's prefix and
      its id the exact midpoint: the ids below it and the ids from it on are the
      two subtrees of the next length. */
  lemma MiddleIsMidpoint(my: Id, ops: seq<Op>, i: nat) returns (p: Prefix)
    requires i < |Run(my, ops)|
    ensures RangeOf(Run(my, ops), i, p) && |p| == MiddleBit(Firsts(Run(my, ops)), i) < WIDTH
    ensures MiddleId(Run(my, ops)[i].first, |p|) == Pad(p + [true])
    ensures forall id: Id :: p <= id ==> (Less(id, Pad(p + [true])) <==> p + [false] <= id)
  {
    hide InBucket, Less;
    var bs := Run(my, ops);
    p := SubtreeAt(my, bs, i);
    SubtreesTile(my, |bs| - 1);
    MiddleBitIsDepth(Firsts(bs), Subtrees(my, |bs| - 1), i);
    MiddleIdIsHalf(p);
    forall id: Id | p <= id
      ensures Less(id, Pad(p + [true])) <==> p + [false] <= id
    {
      HalfIsBelow(p, id);
    }
  }

  lemma HalfIsBelow(p: Prefix, id: Id)
    requires |p| < WIDTH && p <= id
    ensures Less(id, Pad(p + [true])) <==> p + [false] <= id
  {
    assert PartAt(p + [false], p + [true], |p|);
    RangeIsSubtree(p + [false], p + [true], id);
    PrefixIff(p, id);
    MiddleIdIsHalf(p);
  }

  /** bucket_random: an id that agrees with the bucket's first id up to the middle
      bit is in the bucket, whatever its other bits. */
  lemma RandomIsInside(my: Id, ops: seq<Op>, i: nat, id: Id)
    requires i < |Run(my, ops)|
    requires id[..MiddleBit(Firsts(Run(my, ops)), i)] == Run(my, ops)[i].first[..MiddleBit(Firsts(Run(my, ops)), i)]
    ensures InBucket(Run(my, ops), i, id)
  {
    hide InBucket, Less, MiddleBit, Label, Order;
    var bs := Run(my, ops);
    SubtreesTile(my, |bs| - 1);
    MiddleBitIsDepth(Firsts(bs), Subtrees(my, |bs| - 1), i);
    var p := SubtreeAt(my, bs, i);
    assert id[..|p|] == Pad(p)[..|p|];
    assert p <= id;
  }
}
