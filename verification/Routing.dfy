/** The routing table as dht.c runs it: a global bucket list changed step by step
    by loops. Each method is tied to the function of Table.dfy, TableOps.dfy or
    TableRuns.dfy that says what it does; the facts are proved there. */
module Routing {
  import opened Ids
  import opened Layout
  import opened Table
  import opened Wrappers
  import opened TableOps
  import opened TableRuns

  /** The walk along a bucket's nodes, up to the first that passes. */
  method Scan(t: Test, nodes: seq<Node>) returns (k: nat)
    ensures k == First(t, nodes, 0)
  {
    k := 0;
    while k < |nodes| && !Passes(t, nodes[k])
      invariant k <= |nodes| && First(t, nodes, k) == First(t, nodes, 0)
    {
      k := k + 1;
    }
  }

  /** One turn of split_bucket's loop, as the loop's function sees it. */
  lemma LoopTurn(my: Id, bs: seq<Bucket>, pending: seq<Node>)
    requires ShapeOk(my, bs) && pending != []
    ensures InsertNode(bs, pending[0]).Some? ==>
      ShapeOk(my, InsertNode(bs, pending[0]).value) && |InsertNode(bs, pending[0]).value| == |bs| &&
      SplitLoop(my, bs, pending) == SplitLoop(my, InsertNode(bs, pending[0]).value, pending[1..])
    ensures InsertNode(bs, pending[0]).None? ==>
      match SplitHelper(my, bs, FindBucket(bs, pending[0].id))
      case None =>
        SplitLoop(my, bs, pending) ==
        (SplitLoop(my, bs, pending[1..]).0, [pending[0]] + SplitLoop(my, bs, pending[1..]).1)
      case Some(r) =>
        ShapeOk(my, r.0) && |r.0| > |bs| && SplitLoop(my, bs, pending) == SplitLoop(my, r.0, pending + r.1)
  {
    hide InBucket, ShapeOk, SplitLoop, SplitHelper;
    RoomTurn(my, bs, pending);
    if InsertNode(bs, pending[0]).None? { FullTurn(my, bs, pending); }
  }

  lemma RoomTurn(my: Id, bs: seq<Bucket>, pending: seq<Node>)
    requires ShapeOk(my, bs) && pending != []
    ensures InsertNode(bs, pending[0]).Some? ==>
      ShapeOk(my, InsertNode(bs, pending[0]).value) && |InsertNode(bs, pending[0]).value| == |bs| &&
      SplitLoop(my, bs, pending) == SplitLoop(my, InsertNode(bs, pending[0]).value, pending[1..])
  {
    hide InBucket, SplitHelper;
    var n, i := pending[0], FindBucket(bs, pending[0].id);
    var b := bs[i].(nodes := [n] + bs[i].nodes, count := bs[i].count + 1);
    UpdateShape(my, bs, i, b);
  }

  lemma FullTurn(my: Id, bs: seq<Bucket>, pending: seq<Node>)
    requires ShapeOk(my, bs) && pending != [] && InsertNode(bs, pending[0]).None?
    ensures match SplitHelper(my, bs, FindBucket(bs, pending[0].id))
      case None =>
        SplitLoop(my, bs, pending) ==
        (SplitLoop(my, bs, pending[1..]).0, [pending[0]] + SplitLoop(my, bs, pending[1..]).1)
      case Some(r) =>
        ShapeOk(my, r.0) && |r.0| > |bs| && SplitLoop(my, bs, pending) == SplitLoop(my, r.0, pending + r.1)
  {
    hide InBucket;
    SplitHelperShape(my, bs, FindBucket(bs, pending[0].id));
  }

  lemma ShapeBounds(my: Id, bs: seq<Bucket>)
    requires ShapeOk(my, bs)
    ensures 0 < |bs| <= WIDTH + 1
  {}

  /** The halves are ours to split only if the bucket is ours. */
  lemma ForeignFails(my: Id, bs: seq<Bucket>, i: nat)
    requires i < |bs| && !InBucket(bs, i, my)
    ensures SplitHelper(my, bs, i).None?
  {}

  /** Our bucket is offered a node it does not have. */
  predicate Grows(my: Id, bs: seq<Bucket>, w: News)
    requires |bs| > 0
  {
    var i := FindBucket(bs, w.id);
    w.id != my && !w.rejected && First(HasId(w.id), bs[i].nodes, 0) == |bs[i].nodes| && InBucket(bs, i, my)
  }

  /** A full bucket of ours is never found too deep to split. */
  lemma FullSplits(my: Id, bs: seq<Bucket>, i: nat, w: News)
    requires TableOk(my, bs) && i == FindBucket(bs, w.id) && i < |bs| && InBucket(bs, i, my) && w.id != my
    requires NoRoom(bs, w)
    ensures SplitBucket(my, bs[i := Touched(bs[i], w)], i).Some?
  {
    hide InBucket, TableOk, SplitBucket, ShapeOk;
    FoundBucket(my, bs, w.id);
    var b := Touched(bs[i], w);
    assert forall a :: 0 <= a < |b.nodes| ==> !Passes(HasId(w.id), b.nodes[a]);
    FullPassOk(my, bs, w, i, b);
  }

  class RoutingTable {
    const my: Id
    var buckets: seq<Bucket>
    /** mybucket_grow_time of the family: when our bucket was last offered a new node. */
    var growTime: int

    ghost predicate Valid()
      reads this
    {
      TableOk(my, buckets)
    }

    /** dht_init's part. */
    constructor (id: Id, now: int)
      ensures my == id && buckets == InitialTable() && growTime == now && Valid()
    {
      my, growTime, buckets := id, now, [Bucket(Pad([]), 0, 128, 0, [], None)];
      InitialOk(id);
    }

    /** find_bucket */
    method Find(id: Id) returns (i: nat)
      requires |buckets| > 0
      ensures i == FindBucket(buckets, id)
    {
      i := 0;
      while i + 1 < |buckets| && !Less(id, buckets[i + 1].first)
        invariant i < |buckets| && FindFrom(buckets, id, i) == FindBucket(buckets, id)
      {
        i := i + 1;
      }
    }

    /** find_node */
    method FindNode(id: Id) returns (i: nat, k: nat)
      requires |buckets| > 0
      ensures i == FindBucket(buckets, id) && k == First(HasId(id), buckets[i].nodes, 0)
    {
      i := Find(id);
      k := Scan(HasId(id), buckets[i].nodes);
    }

    /** previous_bucket: the index is one lower, if there is a lower one. */
    method Previous(i: nat) returns (p: Option<nat>)
      requires i < |buckets|
      ensures p == if i == 0 then None else Some(i - 1)
    {
      if i == 0 {
        return None;
      }
      var j := 0;
      while j + 1 != i
        invariant j + 1 <= i
        decreases i - j
      {
        j := j + 1;
      }
      p := Some(j);
    }

    /** insert_node: false asks for a split. */
    method Insert(n: Node) returns (ok: bool, full: nat)
      requires |buckets| > 0
      modifies this`buckets
      ensures |buckets| == |old(buckets)| && full < |buckets|
      ensures full == FindBucket(old(buckets), n.id)
      ensures ok <==> InsertNode(old(buckets), n).Some?
      ensures buckets == if ok then InsertNode(old(buckets), n).value else old(buckets)
    {
      full := Find(n.id);
      var b := buckets[full];
      if b.count >= b.maxCount {
        return false, full;
      }
      b := b.(nodes := [n] + b.nodes);
      b := b.(count := b.count + 1);
      buckets := buckets[full := b];
      ok := true;
    }

    /** split_bucket_helper */
    method SplitHelp(i: nat) returns (rc: int, nodes: seq<Node>)
      requires i < |buckets|
      modifies this`buckets
      ensures rc == if SplitHelper(my, old(buckets), i).None? then -1 else 1
      ensures if rc < 0 then buckets == old(buckets) && nodes == []
              else (buckets, nodes) == SplitHelper(my, old(buckets), i).value
    {
      if !InBucket(buckets, i, my) {
        return -1, [];
      }
      var bit := MiddleBit(Firsts(buckets), i);
      if bit >= WIDTH {
        return -1, [];
      }
      var lower := buckets[i].(cached := None);
      var upper := Bucket(MiddleId(lower.first, bit), 0, 0, lower.time, [], None);
      nodes := lower.nodes;
      lower := lower.(nodes := [], count := 0);
      buckets := buckets[..i] + [lower, upper] + buckets[i + 1..];
      if InBucket(buckets, i, my) {
        upper := upper.(maxCount := lower.maxCount);
        lower := lower.(maxCount := Max(lower.maxCount / 2, 8));
      } else {
        upper := upper.(maxCount := Max(lower.maxCount / 2, 8));
      }
      ghost var linked := buckets;
      buckets := buckets[i := lower][i + 1 := upper];
      assert buckets == Replaced(old(buckets), i, lower, upper);
      rc := 1;
    }

    /** split_bucket; `freed` are the nodes the loop frees. */
    method Split(i: nat) returns (rc: int, ghost freed: seq<Node>)
      requires ShapeOk(my, buckets) && i < |buckets|
      modifies this`buckets
      ensures rc == if SplitBucket(my, old(buckets), i).None? then -1 else 1
      ensures if rc < 0 then buckets == old(buckets) && freed == []
              else (buckets, freed) == SplitBucket(my, old(buckets), i).value
    {
      hide ShapeOk, SplitHelper;
      freed := [];
      SplitHelperShape(my, buckets, i);
      var helped, nodes := SplitHelp(i);
      if helped < 0 {
        return -1, [];
      }
      ghost var goal := SplitLoop(my, buckets, nodes);
      ShapeBounds(my, buckets);
      assert freed + goal.1 == goal.1;
      while nodes != []
        invariant 0 < |buckets| <= WIDTH + 1 && ShapeOk(my, buckets)
        invariant goal == (SplitLoop(my, buckets, nodes).0, freed + SplitLoop(my, buckets, nodes).1)
        decreases WIDTH + 1 - |buckets|, |nodes|
      {
        freed, nodes := Reinsert(freed, nodes);
        ShapeBounds(my, buckets);
      }
      assert freed + [] == freed;
      rc := 1;
    }

    /** One turn of split_bucket's loop. */
    method Reinsert(ghost freed: seq<Node>, nodes: seq<Node>) returns (ghost freed': seq<Node>, nodes': seq<Node>)
      requires |buckets| > 0 && ShapeOk(my, buckets) && nodes != []
      modifies this`buckets
      ensures |buckets| > 0 && ShapeOk(my, buckets)
      ensures |buckets| > |old(buckets)| || (|buckets| == |old(buckets)| && |nodes'| < |nodes|)
      ensures SplitLoop(my, buckets, nodes').0 == SplitLoop(my, old(buckets), nodes).0
      ensures freed' + SplitLoop(my, buckets, nodes').1 == freed + SplitLoop(my, old(buckets), nodes).1
    {
      hide SplitLoop, SplitHelper, InBucket, InsertNode, ShapeOk;
      LoopTurn(my, buckets, nodes);
      freed', nodes' := freed, nodes[1..];
      var ok, split := Insert(nodes[0]);
      if ok {
      } else if !InBucket(buckets, split, my) {
        ForeignFails(my, buckets, split);
        freed' := freed + [nodes[0]];
      } else {
        var rc, inserted := SplitHelp(split);
        if rc < 0 {
          freed' := freed + [nodes[0]];
        } else {
          nodes' := nodes + inserted;
        }
      }
    }

    /** The part of new_node for an id that is already known, or that can take the
        place of a known-bad node, or for which there is room. */
    method Admit(i: nat, w: News, mybucket: bool) returns (done: bool)
      requires |buckets| > 0 && i == FindBucket(buckets, w.id)
      modifies this
      ensures var nodes := old(buckets)[i].nodes;
        growTime == if mybucket && First(HasId(w.id), nodes, 0) == |nodes| then w.now else old(growTime)
      ensures |buckets| == |old(buckets)|
      ensures !done ==> buckets == old(buckets)[i := Touched(old(buckets)[i], w)] && NoRoom(old(buckets), w)
      ensures done ==> !NoRoom(old(buckets), w)
      ensures done && ShapeOk(my, old(buckets)) && w.id != my && !w.rejected ==>
        NewNodePass(my, old(buckets), w) == Finished(buckets, true)
    {
      if w.confirm == 2 {
        buckets := buckets[i := buckets[i].(time := w.now)];
      }
      var b := buckets[i];
      assert b == Touched(old(buckets)[i], w);
      var n := Scan(HasId(w.id), b.nodes);
      if n < |b.nodes| {
        buckets := buckets[i := b.(nodes := b.nodes[n := Seen(b.nodes[n], w.addr, w.confirm, w.now)])];
        return true;
      }
      if mybucket {
        growTime := w.now;
      }
      n := Scan(Bad(w.now), b.nodes);
      if n < |b.nodes| {
        buckets := buckets[i := b.(nodes := b.nodes[n := Fresh(w.id, w.addr, w.confirm, w.now)])];
        return true;
      }
      if b.count >= b.maxCount {
        return false;
      }
      buckets := buckets[i := b.(nodes := [Fresh(w.id, w.addr, w.confirm, w.now)] + b.nodes, count := b.count + 1)];
      done := true;
    }

    /** The scan of a full bucket for a dubious node, pinging the first one that
        was not pinged in the last 15 seconds. */
    method PingFirstDubious(i: nat, now: int) returns (dubious: bool)
      requires i < |buckets|
      modifies this`buckets
      ensures dubious <==> First(Dubious(now), old(buckets)[i].nodes, 0) < |old(buckets)[i].nodes|
      ensures buckets == old(buckets)[i := PingDubious(old(buckets)[i], now)]
    {
      dubious := false;
      var b, k := buckets[i], 0;
      while k < |b.nodes|
        invariant k <= |b.nodes| && buckets == old(buckets)
        invariant First(Pingable(now), b.nodes, k) == First(Pingable(now), b.nodes, 0)
        invariant if dubious then First(Dubious(now), b.nodes, 0) < |b.nodes|
                  else First(Dubious(now), b.nodes, k) == First(Dubious(now), b.nodes, 0)
      {
        var n := b.nodes[k];
        if !Good(n, now) {
          dubious := true;
          if n.pingedTime < now - 15 {
            buckets := buckets[i := b.(nodes := b.nodes[k := n.(pinged := n.pinged + 1, pingedTime := now)])];
            return;
          }
        }
        k := k + 1;
      }
    }

    /** new_node; `told` if it hands the sender to add_search_node. */
    method Learn(w: News) returns (node: bool, told: bool)
      requires Valid()
      modifies this
      ensures Valid() && (buckets, node) == NewNode(my, old(buckets), w)
      ensures told <==> w.confirm == 2 && w.id != my && !w.rejected
      ensures growTime == if Grows(my, old(buckets), w) then w.now else old(growTime)
    {
      while true
        invariant Valid() && NewNode(my, buckets, w) == NewNode(my, old(buckets), w)
        invariant (buckets == old(buckets) && growTime == old(growTime)) ||
          (Grows(my, old(buckets), w) && growTime == w.now)
        decreases MAX_DEPTH + 1 - |buckets|
      {
        PassOk(my, buckets, w);
        var again;
        again, node, told := OnePass(w);
        if !again {
          return;
        }
      }
    }

    /** The body of new_node from the label `again` on. */
    method OnePass(w: News) returns (again: bool, node: bool, told: bool)
      requires Valid()
      modifies this
      ensures NewNodePass(my, old(buckets), w) == if again then Again(buckets) else Finished(buckets, node)
      ensures !again ==> (told <==> w.confirm == 2 && w.id != my && !w.rejected)
      ensures growTime == if Grows(my, old(buckets), w) then w.now else old(growTime)
      ensures again ==> Grows(my, old(buckets), w)
    {
      var i := Find(w.id);
      if w.id == my || w.rejected {
        return false, false, false;
      }
      var mybucket := InBucket(buckets, i, my);
      var done := Admit(i, w, mybucket);
      if done {
        return false, true, w.confirm == 2;
      }
      again, node, told := Crowded(i, w, mybucket, old(buckets));
    }

    /** new_node on a full bucket without a known-bad node. */
    method Crowded(i: nat, w: News, mybucket: bool, ghost start: seq<Bucket>)
      returns (again: bool, node: bool, told: bool)
      requires TableOk(my, start) && i == FindBucket(start, w.id) && w.id != my && !w.rejected && NoRoom(start, w)
      requires buckets == start[i := Touched(start[i], w)] && mybucket == InBucket(start, i, my)
      modifies this`buckets
      ensures NewNodePass(my, start, w) == if again then Again(buckets) else Finished(buckets, node)
      ensures (again ==> mybucket) && (!again ==> (told <==> w.confirm == 2))
    {
      hide InBucket, TableOk;
      ghost var touched := buckets[i];
      TouchedShape(my, start, i, touched);
      var dubious := PingFirstDubious(i, w.now);
      if mybucket && !dubious {
        NotPingable(touched.nodes, w.now);
        assert buckets == start[i := touched];
        var rc, freed := Split(i);
        FullSplits(my, start, i, w);
        return rc > 0, false, false;
      }
      var b := buckets[i];
      if w.confirm != 0 || b.cached.None? {
        b := b.(cached := Some(w.addr));
      }
      buckets := buckets[i := b];
      assert buckets == start[i := Remember(PingDubious(touched, w.now), w)];
      return false, false, w.confirm == 2;
    }

    /** pinged(n, NULL) for the node with this id, if the table has it. */
    method MarkPinged(id: Id, now: int)
      requires Valid()
      modifies this`buckets
      ensures Valid() && buckets == Pinged(old(buckets), id, now)
    {
      ApplyOk(my, buckets, Request(id, now));
      var i, k := FindNode(id);
      var b := buckets[i];
      if k < |b.nodes| {
        var n := b.nodes[k].(pinged := b.nodes[k].pinged + 1, pingedTime := now);
        b := b.(nodes := b.nodes[k := n]);
        if n.pinged >= 3 {
          b := b.(cached := None);
        }
        buckets := buckets[i := b];
      }
    }

    /** blacklist_node's part on the table. */
    method Blacklist(id: Id, now: int)
      requires Valid()
      modifies this`buckets
      ensures Valid() && buckets == BlacklistNode(old(buckets), id, now)
    {
      ApplyOk(my, buckets, Op.Blacklist(id, now));
      var i, k := FindNode(id);
      var b := buckets[i];
      if k < |b.nodes| {
        var n := b.nodes[k].(pinged := 3);
        n := n.(pinged := n.pinged + 1, pingedTime := now);
        b := b.(nodes := b.nodes[k := n]);
        if n.pinged >= 3 {
          b := b.(cached := None);
        }
        buckets := buckets[i := b];
      }
    }

    /** expire_buckets */
    method ExpireBuckets()
      requires Valid()
      modifies this`buckets
      ensures Valid() && buckets == ExpireFrom(old(buckets), 0)
    {
      ApplyOk(my, buckets, Expire);
      var i := 0;
      while i < |buckets|
        invariant i <= |buckets| && ExpireFrom(buckets, i) == ExpireFrom(old(buckets), 0)
        decreases |buckets| - i
      {
        var b := Purge(buckets[i]);
        buckets := buckets[i := b];
        i := i + 1;
      }
    }
  }

  /** Unlinking the nodes pinged four times or more from one bucket. */
  method Purge(b: Bucket) returns (r: Bucket)
    ensures r == ExpireBucket(b)
  {
    var changed, k := false, 0;
    r := b;
    while k < |r.nodes|
      invariant k <= |r.nodes| <= |b.nodes|
      invariant r.nodes[..k] + Alive(r.nodes[k..]) == Alive(b.nodes)
      invariant r == b.(nodes := r.nodes, count := b.count - (|b.nodes| - |r.nodes|))
      invariant changed <==> |r.nodes| < |b.nodes|
      invariant !changed ==> r == b
      decreases |r.nodes| - k
    {
      if r.nodes[k].pinged >= 4 {
        assert r.nodes[k..][1..] == r.nodes[k + 1..];
        ghost var before := r.nodes;
        r := r.(nodes := r.nodes[..k] + r.nodes[k + 1..], count := r.count - 1);
        assert r.nodes[..k] == before[..k] && r.nodes[k..] == before[k + 1..];
        changed := true;
      } else {
        assert r.nodes[k..][1..] == r.nodes[k + 1..];
        assert r.nodes[..k + 1] == r.nodes[..k] + [r.nodes[k]];
        k := k + 1;
      }
    }
    assert r.nodes[..k] == r.nodes;
    if changed {
      r := r.(cached := None);
    }
  }

  lemma TouchedShape(my: Id, bs: seq<Bucket>, i: nat, b: Bucket)
    requires TableOk(my, bs) && i < |bs| && b == bs[i].(time := b.time)
    ensures ShapeOk(my, bs) && ShapeOk(my, bs[i := b])
  {
    UpdateShape(my, bs, i, b);
  }

  lemma NotPingable(nodes: seq<Node>, now: int)
    requires First(Dubious(now), nodes, 0) == |nodes|
    ensures First(Pingable(now), nodes, 0) == |nodes|
  {
    assert forall a :: 0 <= a < |nodes| ==> !Passes(Dubious(now), nodes[a]);
  }
}
