/** The answer to find_node and get_peers: send_closest_nodes of dht.c gathers the good
    nodes of the target's bucket and of its two neighbours in a buffer of eight. */
module Closest {
  import opened Sets
  import opened Numbers
  import opened Ids
  import opened Layout
  import opened Table
  import opened TableOps
  import opened TableRuns
  import opened Routing
  import Nearest

  /** One record of the answer: an id with its address. */
  datatype Entry = Entry(id: Id, addr: Addr)

  function IdsIn(list: seq<Entry>): (ids: seq<Id>)
    ensures |ids| == |list|
  {
    seq(|list|, i requires 0 <= i < |list| => list[i].id)
  }

  function InsertEntry(list: seq<Entry>, e: Entry, target: Id): (r: seq<Entry>)
    requires |list| <= 8
    ensures |r| <= 8
  {
    var i := Nearest.Spot(IdsIn(list), e.id, target, 0);
    if i < |list| && list[i].id == e.id then list
    else (list[..i] + [e] + list[i..])[..Min(|list| + 1, 8)]
  }

  lemma InsertEntryIds(list: seq<Entry>, e: Entry, target: Id)
    requires |list| <= 8
    ensures IdsIn(InsertEntry(list, e, target)) == Nearest.Insert(IdsIn(list), e.id, target, 8)
  {
    var ids := IdsIn(list);
    var i := Nearest.Spot(ids, e.id, target, 0);
    assert IdsIn(list[..i] + [e] + list[i..]) == ids[..i] + [e.id] + ids[i..];
  }

  /** The scan of insert_closest_node. */
  method ScanClosest(nodes: array<Entry>, numnodes: nat, id: Id, target: Id) returns (i: nat)
    requires numnodes <= nodes.Length
    ensures i == Nearest.Spot(IdsIn(nodes[..numnodes]), id, target, 0)
  {
    ghost var ids := IdsIn(nodes[..numnodes]);
    i := 0;
    while i < numnodes && nodes[i].id != id && !Closer(id, nodes[i].id, target)
      invariant i <= numnodes && Nearest.Spot(ids, id, target, i) == Nearest.Spot(ids, id, target, 0)
    {
      i := i + 1;
    }
  }

  /** insert_closest_node: the buffer holds the answer's first numnodes records. */
  method InsertClosest(nodes: array<Entry>, numnodes: nat, target: Id, n: Node) returns (count: nat)
    requires nodes.Length == 8 && numnodes <= 8
    modifies nodes
    ensures count <= 8
    ensures nodes[..count] == InsertEntry(old(nodes[..numnodes]), Entry(n.id, n.addr), target)
  {
    hide Nearest.Spot, Closer;
    ghost var list := nodes[..numnodes];
    assert forall k :: 0 <= k <= numnodes ==> list[..k] == nodes[..k] && list[k..] == nodes[k..numnodes];
    var i := ScanClosest(nodes, numnodes, n.id, target);
    if i < numnodes && nodes[i].id == n.id {
      return numnodes;
    }
    if i == 8 {
      assert (list[..i] + [Entry(n.id, n.addr)] + list[i..])[..8] == list;
      return numnodes;
    }
    count := ShiftIn(nodes, numnodes, i, Entry(n.id, n.addr));
  }

  /** The record e goes to index i and the later ones move up, the ninth off the end. */
  method ShiftIn(nodes: array<Entry>, numnodes: nat, i: nat, e: Entry) returns (count: nat)
    requires nodes.Length == 8 && numnodes <= 8 && i < 8 && i <= numnodes
    modifies nodes
    ensures count == Min(numnodes + 1, 8)
    ensures nodes[..count] == (old(nodes[..i]) + [e] + old(nodes[i..numnodes]))[..count]
  {
    ghost var goal := nodes[..i] + [e] + nodes[i..numnodes];
    count := if numnodes < 8 then numnodes + 1 else numnodes;
    forall k | i < k < count {
      nodes[k] := nodes[k - 1];
    }
    nodes[i] := e;
    assert forall k :: 0 <= k < count ==> nodes[k] == goal[k];
  }

  /** The entries of a bucket that may be handed out. */
  function GoodEntries(nodes: seq<Node>, now: int): seq<Entry> {
    if nodes == [] then []
    else if Good(nodes[0], now) then [Entry(nodes[0].id, nodes[0].addr)] + GoodEntries(nodes[1..], now)
    else GoodEntries(nodes[1..], now)
  }

  function OfferEntries(list: seq<Entry>, more: seq<Entry>, target: Id): (r: seq<Entry>)
    requires |list| <= 8
    ensures |r| <= 8
    decreases |more|
  {
    if more == [] then list else OfferEntries(InsertEntry(list, more[0], target), more[1..], target)
  }

  /** buffer_closest_nodes */
  method BufferClosest(nodes: array<Entry>, numnodes: nat, target: Id, b: Bucket, now: int) returns (count: nat)
    requires nodes.Length == 8 && numnodes <= 8
    modifies nodes
    ensures count <= 8
    ensures nodes[..count] == OfferEntries(old(nodes[..numnodes]), GoodEntries(b.nodes, now), target)
  {
    hide InsertEntry, OfferEntries, GoodEntries, Good;
    count := numnodes;
    var k := 0;
    ghost var goal := OfferEntries(nodes[..numnodes], GoodEntries(b.nodes, now), target);
    assert b.nodes[0..] == b.nodes;
    while k < |b.nodes|
      invariant k <= |b.nodes| && count <= 8
      invariant OfferEntries(nodes[..count], GoodEntries(b.nodes[k..], now), target) == goal
    {
      BufferTurn(nodes[..count], b.nodes, k, target, now);
      if Good(b.nodes[k], now) {
        count := InsertClosest(nodes, count, target, b.nodes[k]);
      }
      k := k + 1;
    }
    assert b.nodes[k..] == [];
    BufferEnd(nodes[..count], target, now);
  }

  lemma BufferTurn(list: seq<Entry>, nodes: seq<Node>, k: nat, target: Id, now: int)
    requires |list| <= 8 && k < |nodes|
    ensures OfferEntries(list, GoodEntries(nodes[k..], now), target) ==
      OfferEntries(if Good(nodes[k], now) then InsertEntry(list, Entry(nodes[k].id, nodes[k].addr), target) else list,
                   GoodEntries(nodes[k + 1..], now), target)
  {
    hide InsertEntry, Good;
    assert nodes[k..][1..] == nodes[k + 1..];
    var e, rest := Entry(nodes[k].id, nodes[k].addr), GoodEntries(nodes[k + 1..], now);
    assert ([e] + rest)[1..] == rest;
  }

  lemma BufferEnd(list: seq<Entry>, target: Id, now: int)
    requires |list| <= 8
    ensures OfferEntries(list, GoodEntries([], now), target) == list
  {}

  /** The records send_closest_nodes offers, in its order: own bucket of the
      target, the next one, the previous one. */
  function Candidates(bs: seq<Bucket>, target: Id, now: int): (c: (seq<Entry>, seq<Entry>, seq<Entry>))
    requires |bs| > 0
  {
    var i := FindBucket(bs, target);
    (GoodEntries(bs[i].nodes, now),
     if i + 1 < |bs| then GoodEntries(bs[i + 1].nodes, now) else [],
     if i > 0 then GoodEntries(bs[i - 1].nodes, now) else [])
  }

  function Answer(bs: seq<Bucket>, target: Id, now: int): seq<Entry>
    requires |bs| > 0
  {
    var c := Candidates(bs, target, now);
    OfferEntries(OfferEntries(OfferEntries([], c.0, target), c.1, target), c.2, target)
  }

  lemma OfferNothing(target: Id)
    ensures forall list: seq<Entry> | |list| <= 8 :: OfferEntries(list, [], target) == list
  {}

  /** send_closest_nodes for one address family, up to the printing. */
  method SendClosest(table: RoutingTable, target: Id, now: int) returns (answer: seq<Entry>)
    requires |table.buckets| > 0
    ensures answer == Answer(table.buckets, target, now)
  {
    hide OfferEntries, GoodEntries, FindBucket;
    OfferNothing(target);
    var nodes := new Entry[8](_ => Entry(target, Addr([], 0)));
    var i := table.Find(target);
    var numnodes := 0;
    numnodes := BufferClosest(nodes, numnodes, target, table.buckets[i], now);
    if i + 1 < |table.buckets| {
      numnodes := BufferClosest(nodes, numnodes, target, table.buckets[i + 1], now);
    }
    var p := table.Previous(i);
    if p.Some? {
      numnodes := BufferClosest(nodes, numnodes, target, table.buckets[p.value], now);
    }
    answer := nodes[..numnodes];
  }

  // What the answer is.

  lemma {:induction false} OfferEntriesIds(list: seq<Entry>, more: seq<Entry>, target: Id)
    requires |list| <= 8
    ensures IdsIn(OfferEntries(list, more, target)) == Nearest.Offer(IdsIn(list), IdsIn(more), target, 8)
    decreases |more|
  {
    hide InsertEntry, Nearest.Insert;
    if more != [] {
      InsertEntryIds(list, more[0], target);
      OfferEntriesIds(InsertEntry(list, more[0], target), more[1..], target);
      assert IdsIn(more[1..]) == IdsIn(more)[1..];
    }
  }

  /** The good nodes of a bucket, by id. */
  ghost function GoodIds(b: Bucket, now: int): set<Id> {
    set n | n in b.nodes && Good(n, now) :: n.id
  }

  ghost function AllGoodIds(bs: seq<Bucket>, now: int): set<Id> {
    set i, n | 0 <= i < |bs| && n in bs[i].nodes && Good(n, now) :: n.id
  }

  lemma {:induction false} GoodEntriesIds(nodes: seq<Node>, now: int, x: Id)
    ensures x in IdsIn(GoodEntries(nodes, now)) <==> exists n :: n in nodes && Good(n, now) && n.id == x
  {
    if nodes != [] {
      GoodEntriesIds(nodes[1..], now, x);
      var rest := GoodEntries(nodes[1..], now);
      if Good(nodes[0], now) {
        var all := [Entry(nodes[0].id, nodes[0].addr)] + rest;
        assert IdsIn(all) == [nodes[0].id] + IdsIn(rest);
      }
      assert forall n :: n in nodes <==> n == nodes[0] || n in nodes[1..];
    }
  }

  lemma GoodIdsAre(b: Bucket, now: int)
    ensures Nearest.IdSet(IdsIn(GoodEntries(b.nodes, now))) == GoodIds(b, now)
  {
    forall x: Id
      ensures x in Nearest.IdSet(IdsIn(GoodEntries(b.nodes, now))) <==> x in GoodIds(b, now)
    {
      GoodEntriesIds(b.nodes, now, x);
    }
  }

  /** The good ids of the target's bucket and its neighbours. */
  ghost function NeighbourIds(bs: seq<Bucket>, target: Id, now: int): set<Id>
    requires |bs| > 0
  {
    var i := FindBucket(bs, target);
    GoodIds(bs[i], now) + (if i + 1 < |bs| then GoodIds(bs[i + 1], now) else {}) +
      (if i > 0 then GoodIds(bs[i - 1], now) else {})
  }

  lemma CandidateIds(bs: seq<Bucket>, target: Id, now: int)
    requires |bs| > 0
    ensures var c := Candidates(bs, target, now);
      Nearest.IdSet(IdsIn(c.0)) + Nearest.IdSet(IdsIn(c.1)) + Nearest.IdSet(IdsIn(c.2)) == NeighbourIds(bs, target, now)
  {
    var i := FindBucket(bs, target);
    GoodIdsAre(bs[i], now);
    if i + 1 < |bs| { GoodIdsAre(bs[i + 1], now); }
    if i > 0 { GoodIdsAre(bs[i - 1], now); }
    assert Nearest.IdSet(IdsIn([])) == {};
  }

  /** send_closest_nodes answers with the eight nearest good nodes of the target's
      bucket and its two neighbours, sorted and without repetition. */
  lemma AnswerIsNearest(bs: seq<Bucket>, target: Id, now: int)
    requires |bs| > 0
    ensures Nearest.IsNearest(IdsIn(Answer(bs, target, now)), NeighbourIds(bs, target, now), target, 8)
  {
    hide Nearest.IsNearest, Candidates;
    var c := Candidates(bs, target, now);
    var one := OfferEntries([], c.0, target);
    var two := OfferEntries(one, c.1, target);
    NothingNearest(target);
    OfferStep([], {}, c.0, target);
    OfferStep(one, {} + Nearest.IdSet(IdsIn(c.0)), c.1, target);
    OfferStep(two, {} + Nearest.IdSet(IdsIn(c.0)) + Nearest.IdSet(IdsIn(c.1)), c.2, target);
    CandidateIds(bs, target, now);
    assert {} + Nearest.IdSet(IdsIn(c.0)) + Nearest.IdSet(IdsIn(c.1)) + Nearest.IdSet(IdsIn(c.2)) ==
      Nearest.IdSet(IdsIn(c.0)) + Nearest.IdSet(IdsIn(c.1)) + Nearest.IdSet(IdsIn(c.2));
  }

  lemma NothingNearest(target: Id)
    ensures Nearest.IsNearest(IdsIn([]), {}, target, 8)
  {}

  lemma OfferStep(list: seq<Entry>, seen: set<Id>, more: seq<Entry>, target: Id)
    requires |list| <= 8 && Nearest.IsNearest(IdsIn(list), seen, target, 8)
    ensures Nearest.IsNearest(IdsIn(OfferEntries(list, more, target)), seen + Nearest.IdSet(IdsIn(more)), target, 8)
  {
    OfferEntriesIds(list, more, target);
    Nearest.OfferNearest(IdsIn(list), seen, IdsIn(more), target, 8);
  }

  lemma InsertEntryFrom(list: seq<Entry>, e: Entry, target: Id, x: Entry)
    requires |list| <= 8 && x in InsertEntry(list, e, target)
    ensures x in list || x == e
  {
    hide Nearest.Spot;
    var i := Nearest.Spot(IdsIn(list), e.id, target, 0);
    assert x in list[..i] + [e] + list[i..] ==> x in list || x == e;
  }

  lemma {:induction false} OfferEntriesFrom(list: seq<Entry>, more: seq<Entry>, target: Id, x: Entry)
    requires |list| <= 8 && x in OfferEntries(list, more, target)
    ensures x in list || x in more
    decreases |more|
  {
    hide InsertEntry;
    if more != [] {
      OfferEntriesFrom(InsertEntry(list, more[0], target), more[1..], target, x);
      if x in InsertEntry(list, more[0], target) { InsertEntryFrom(list, more[0], target, x); }
    }
  }

  /** A record made of a good node of the bucket. */
  ghost predicate RecordOf(b: Bucket, now: int, e: Entry) {
    exists n :: n in b.nodes && Good(n, now) && e == Entry(n.id, n.addr)
  }

  lemma {:induction false} GoodEntriesFrom(b: Bucket, k: nat, now: int, e: Entry)
    requires k <= |b.nodes| && e in GoodEntries(b.nodes[k..], now)
    ensures RecordOf(b, now, e)
    decreases |b.nodes| - k
  {
    if k < |b.nodes| {
      assert b.nodes[k..][1..] == b.nodes[k + 1..];
      if Good(b.nodes[k], now) && e == Entry(b.nodes[k].id, b.nodes[k].addr) {
        assert b.nodes[k] in b.nodes;
      } else {
        GoodEntriesFrom(b, k + 1, now, e);
      }
    }
  }

  /** Every record of the answer is a good node of the target's bucket or of a neighbour,
      with that node's own address. */
  lemma AnswerRecords(bs: seq<Bucket>, target: Id, now: int, e: Entry)
    requires |bs| > 0 && e in Answer(bs, target, now)
    ensures var i := FindBucket(bs, target);
      || RecordOf(bs[i], now, e)
      || (i + 1 < |bs| && RecordOf(bs[i + 1], now, e))
      || (i > 0 && RecordOf(bs[i - 1], now, e))
  {
    hide OfferEntries, GoodEntries, RecordOf, FindBucket;
    var c, i := Candidates(bs, target, now), FindBucket(bs, target);
    var one := OfferEntries([], c.0, target);
    var two := OfferEntries(one, c.1, target);
    OfferEntriesFrom(two, c.2, target, e);
    if e in two {
      OfferEntriesFrom(one, c.1, target, e);
      if e in one { OfferEntriesFrom([], c.0, target, e); }
    }
    if e in c.0 {
      assert bs[i].nodes[0..] == bs[i].nodes;
      GoodEntriesFrom(bs[i], 0, now, e);
    } else if e in c.1 {
      assert bs[i + 1].nodes[0..] == bs[i + 1].nodes;
      GoodEntriesFrom(bs[i + 1], 0, now, e);
    } else {
      assert bs[i - 1].nodes[0..] == bs[i - 1].nodes;
      GoodEntriesFrom(bs[i - 1], 0, now, e);
    }
  }

  /** A node with three unanswered requests, one that has been silent for 15 minutes and one
      that has not replied for two hours are in no answer. */
  lemma StaleUnanswered(my: Id, bs: seq<Bucket>, target: Id, now: int, n: Node)
    requires TableOk(my, bs) && |bs| > 0 && n in AllNodes(bs)
    requires n.pinged >= 3 || n.time < now - 900 || n.replyTime < now - 7200
    ensures n.id !in IdsIn(Answer(bs, target, now))
  {
    hide AllNodes, ShapeOk, BucketOk, Answer;
    var list := Answer(bs, target, now);
    if n.id in IdsIn(list) {
      var k :| 0 <= k < |list| && IdsIn(list)[k] == n.id;
      AnswerRecords(bs, target, now, list[k]);
      var i := FindBucket(bs, target);
      var j := if RecordOf(bs[i], now, list[k]) then i
        else if i + 1 < |bs| && RecordOf(bs[i + 1], now, list[k]) then i + 1 else i - 1;
      var m :| m in bs[j].nodes && Good(m, now) && list[k] == Entry(m.id, m.addr);
      NodeIsIn(bs, j, m);
      OneNodePerId(my, bs, n, m);
    }
  }

  /** Ids of the target's own bucket are closer to it than any other id. */
  lemma OwnIsCloser(my: Id, bs: seq<Bucket>, target: Id, x: Id, y: Id)
    requires ShapeOk(my, bs)
    requires FindBucket(bs, x) == FindBucket(bs, target) != FindBucket(bs, y)
    ensures Closer(x, y, target)
  {
    hide InBucket, Less;
    var d := |bs| - 1;
    var i := FindBucket(bs, target);
    var k := Order(my, d)[i];
    OrderIsPermutation(my, d);
    FindIsLabel(my, bs, target);
    FindIsLabel(my, bs, x);
    FindIsLabel(my, bs, y);
    LabelIsPrefix(my, target, k, d);
    LabelIsPrefix(my, x, k, d);
    LabelIsPrefix(my, y, k, d);
    PrefixIsCloser(PrefixOf(my, k, d), target, x, y);
  }

  lemma PrefixIsCloser(p: Prefix, target: Id, x: Id, y: Id)
    requires p <= target && p <= x && !(p <= y)
    ensures Closer(x, y, target)
  {
    SharesPrefix(p, target, x);
    SharesPrefix(p, target, y);
    MoreCommonIsCloser(x, y, target);
  }

  lemma SharesPrefix(p: Prefix, target: Id, x: Id)
    requires p <= target
    ensures p <= x <==> Common(x, target) >= |p|
  {
    assert p <= x <==> forall i :: 0 <= i < |p| ==> x[i] == p[i];
    assert forall i :: 0 <= i < |p| ==> target[i] == p[i];
  }

  ghost predicate InOwn(bs: seq<Bucket>, target: Id, x: Id)
    requires |bs| > 0
  {
    FindBucket(bs, x) == FindBucket(bs, target)
  }

  /** In the answer, the nodes of the target's own bucket come first. */
  lemma OwnComesFirst(my: Id, bs: seq<Bucket>, target: Id, now: int, i: nat, j: nat)
    requires TableOk(my, bs) && i < j < |Answer(bs, target, now)|
    requires InOwn(bs, target, Answer(bs, target, now)[j].id)
    ensures InOwn(bs, target, Answer(bs, target, now)[i].id)
  {
    hide Answer, FindBucket, Nearest.Offer;
    var ids := IdsIn(Answer(bs, target, now));
    AnswerIsNearest(bs, target, now);
    if !InOwn(bs, target, ids[i]) {
      OwnIsCloser(my, bs, target, ids[j], ids[i]);
      CloserTotal(ids[i], ids[j], target);
    }
  }

  lemma GoodIsHome(my: Id, bs: seq<Bucket>, now: int, i: nat, x: Id)
    requires TableOk(my, bs) && i < |bs| && x in GoodIds(bs[i], now)
    ensures FindBucket(bs, x) == i
  {
    var n :| n in bs[i].nodes && Good(n, now) && n.id == x;
    assert BucketOk(my, bs, i);
    InBucketIsLabel(my, bs, i, x);
    FindIsLabel(my, bs, x);
  }

  /** If the target's own bucket has eight good nodes, the answer holds no other. */
  lemma AnswerAllOwn(my: Id, bs: seq<Bucket>, target: Id, now: int, x: Id)
    requires TableOk(my, bs) && |GoodIds(bs[FindBucket(bs, target)], now)| >= 8
    requires x in IdsIn(Answer(bs, target, now))
    ensures InOwn(bs, target, x)
  {
    hide Answer, FindBucket, GoodIds;
    var list, own := IdsIn(Answer(bs, target, now)), GoodIds(bs[FindBucket(bs, target)], now);
    AnswerIsNearest(bs, target, now);
    Nearest.NearestSize(list, NeighbourIds(bs, target, now), target, 8);
    if !InOwn(bs, target, x) {
      var y := Missing(list, own, x) by {
        forall z | z in own
          ensures z != x
        {
          GoodIsHome(my, bs, now, FindBucket(bs, target), z);
        }
      }
      GoodIsHome(my, bs, now, FindBucket(bs, target), y);
      OwnIsCloser(my, bs, target, y, x);
      CloserTotal(x, y, target);
    }
  }

  /** A list of at most eight ids, one of them foreign, misses one of eight. */
  lemma Missing(list: seq<Id>, own: set<Id>, x: Id) returns (y: Id)
    requires |list| <= 8 && |own| >= 8 && x in list && x !in own
    ensures y in own && y !in list
  {
    var members := set z | z in list;
    MembersBound(list);
    var rest := members - {x};
    assert |rest| < 8;
    if own <= rest { SubsetSize(own, rest); }
    y :| y in own && y !in rest;
  }

  lemma {:induction false} MembersBound(list: seq<Id>)
    ensures |set z | z in list| <= |list|
  {
    if list != [] {
      MembersBound(list[1..]);
      assert (set z | z in list) == {list[0]} + (set z | z in list[1..]);
    }
  }

  /** ... and is then the true eight nearest good nodes of the whole table. */
  lemma AnswerIsTrueNearest(my: Id, bs: seq<Bucket>, target: Id, now: int)
    requires TableOk(my, bs) && |GoodIds(bs[FindBucket(bs, target)], now)| >= 8
    ensures Nearest.IsNearest(IdsIn(Answer(bs, target, now)), AllGoodIds(bs, now), target, 8)
  {
    hide Answer, FindBucket, GoodIds, AllGoodIds, Closer;
    var list := IdsIn(Answer(bs, target, now));
    var near, all := NeighbourIds(bs, target, now), AllGoodIds(bs, now);
    AnswerIsNearest(bs, target, now);
    Nearest.NearestSize(list, near, target, 8);
    forall x | x in list
      ensures x in all
    {
      NeighbourIsGood(bs, target, now, x);
    }
    NearSize(bs, target, now);
    forall z | z in all && z !in list
      ensures forall k :: 0 <= k < |list| ==> Closer(list[k], z, target)
    {
      if z !in near {
        GoodElsewhere(my, bs, target, now, z);
        forall k | 0 <= k < |list|
          ensures Closer(list[k], z, target)
        {
          AnswerAllOwn(my, bs, target, now, list[k]);
          OwnIsCloser(my, bs, target, list[k], z);
        }
      }
    }
  }

  lemma NeighbourIsGood(bs: seq<Bucket>, target: Id, now: int, x: Id)
    requires |bs| > 0 && x in NeighbourIds(bs, target, now)
    ensures x in AllGoodIds(bs, now)
  {}

  lemma NearSize(bs: seq<Bucket>, target: Id, now: int)
    requires |bs| > 0
    ensures |GoodIds(bs[FindBucket(bs, target)], now)| <= |NeighbourIds(bs, target, now)|
  {
    SubsetSize(GoodIds(bs[FindBucket(bs, target)], now), NeighbourIds(bs, target, now));
  }

  lemma GoodElsewhere(my: Id, bs: seq<Bucket>, target: Id, now: int, z: Id)
    requires TableOk(my, bs) && z in AllGoodIds(bs, now) && z !in NeighbourIds(bs, target, now)
    ensures !InOwn(bs, target, z)
  {
    var i, n :| 0 <= i < |bs| && n in bs[i].nodes && Good(n, now) && n.id == z;
    assert z in GoodIds(bs[i], now);
    GoodIsHome(my, bs, now, i, z);
  }
}
