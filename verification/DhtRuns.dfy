/** The node of dht.c for one address family: its routing table and its searches in one
    state. Every request of a search counts as a ping in the table, and every node that
    replies is handed to the searches. */
module DhtRuns {
  import opened Ids
  import opened Wrappers
  import opened Table
  import opened TableOps
  import opened TableRuns
  import opened SearchSteps
  import opened Search
  import opened Closest
  import Nearest
  import S = SearchRuns

  const MAX_SEARCHES := 1024
  const SEARCH_EXPIRE := 62 * 60

  datatype Slot = Slot(target: Id, s: State)

  datatype Dht = Dht(table: seq<Bucket>, searches: seq<Slot>)

  /** What holds in every run. */
  ghost predicate Ok(my: Id, d: Dht) {
    TableOk(my, d.table) && |d.table| > 0 && AllSound(d.searches) && |d.searches| <= MAX_SEARCHES &&
      OnePerTarget(d.searches)
  }

  ghost predicate AllSound(searches: seq<Slot>) {
    forall k :: 0 <= k < |searches| ==> Sound(searches[k].s.list, searches[k].target)
  }

  ghost predicate OnePerTarget(searches: seq<Slot>) {
    forall i, j :: 0 <= i < j < |searches| ==> searches[i].target != searches[j].target
  }

  /** What the operations need to be defined. */
  predicate Fits(d: Dht) {
    |d.table| > 0 && forall k :: 0 <= k < |d.searches| ==> |d.searches[k].s.list| <= SEARCH_NODES
  }

  lemma OkFits(my: Id, d: Dht)
    requires Ok(my, d)
    ensures Fits(d)
  {
    forall k | 0 <= k < |d.searches|
      ensures |d.searches[k].s.list| <= SEARCH_NODES
    {
      SoundSize(d.searches[k].s.list, d.searches[k].target);
    }
  }

  // Requests and pings.

  /** pinged, for the node of every request that is in the table. */
  function Count(bs: seq<Bucket>, sent: seq<SNode>, now: int): (r: seq<Bucket>)
    requires |bs| > 0
    ensures |r| == |bs|
    decreases |sent|
  {
    if sent == [] then bs else Count(Pinged(bs, sent[0].id, now), sent[1..], now)
  }

  /** How many of the requests went to the id. */
  function Times(sent: seq<SNode>, id: Id): nat {
    if sent == [] then 0 else (if sent[0].id == id then 1 else 0) + Times(sent[1..], id)
  }

  function Counted(n: Node, times: nat, now: int): Node {
    if times == 0 then n else n.(pinged := n.pinged + times, pingedTime := now)
  }

  lemma {:induction false} CountOk(my: Id, bs: seq<Bucket>, sent: seq<SNode>, now: int)
    requires TableOk(my, bs) && |bs| > 0
    ensures TableOk(my, Count(bs, sent, now))
    decreases |sent|
  {
    hide TableOk, Pinged;
    if sent != [] {
      ApplyOk(my, bs, Request(sent[0].id, now));
      CountOk(my, Pinged(bs, sent[0].id, now), sent[1..], now);
    }
  }

  /** The places of the table hold different ids. */
  lemma {:induction false} PlacesDiffer(bs: seq<Bucket>)
    requires forall i :: 0 <= i < |bs| ==> DistinctIds(bs[i].nodes)
    requires forall i, j, n, m | 0 <= i < j < |bs| && n in bs[i].nodes && m in bs[j].nodes :: n.id != m.id
    ensures DistinctIds(AllNodes(bs))
  {
    if bs != [] {
      var rest := bs[1..];
      PlacesDiffer(rest);
      forall a, b | 0 <= a < |bs[0].nodes| && 0 <= b < |AllNodes(rest)|
        ensures bs[0].nodes[a].id != AllNodes(rest)[b].id
      {
        var j := WhereNodeIs(rest, AllNodes(rest)[b]);
        assert rest[j] == bs[j + 1];
      }
    }
  }

  lemma TablePlacesDiffer(my: Id, bs: seq<Bucket>)
    requires TableOk(my, bs)
    ensures DistinctIds(AllNodes(bs))
  {
    hide ShapeOk, AllNodes;
    forall i | 0 <= i < |bs|
      ensures DistinctIds(bs[i].nodes)
    {
      assert BucketOk(my, bs, i);
    }
    forall i, j, n, m | 0 <= i < j < |bs| && n in bs[i].nodes && m in bs[j].nodes
      ensures n.id != m.id
    {
      HomeIs(my, bs, i, n);
      HomeIs(my, bs, j, m);
    }
    PlacesDiffer(bs);
  }

  /** Counting changes no place of the table, only the ping counts, by exactly the requests
      sent to the id there. */
  ghost predicate CountedIn(bs: seq<Bucket>, r: seq<Bucket>, sent: seq<SNode>, now: int) {
    && |AllNodes(r)| == |AllNodes(bs)|
    && forall p :: 0 <= p < |AllNodes(bs)| ==>
      AllNodes(r)[p] == Counted(AllNodes(bs)[p], Times(sent, AllNodes(bs)[p].id), now)
  }

  lemma {:induction false} CountIs(my: Id, bs: seq<Bucket>, sent: seq<SNode>, now: int)
    requires TableOk(my, bs) && |bs| > 0
    ensures CountedIn(bs, Count(bs, sent, now), sent, now)
    decreases |sent|
  {
    hide TableOk, Pinged, AllNodes;
    if sent != [] {
      ApplyOk(my, bs, Request(sent[0].id, now));
      var c := Pinged(bs, sent[0].id, now);
      CountIs(my, c, sent[1..], now);
      FirstCounted(my, bs, sent, now);
    }
  }

  lemma FirstCounted(my: Id, bs: seq<Bucket>, sent: seq<SNode>, now: int)
    requires TableOk(my, bs) && |bs| > 0 && sent != []
    requires CountedIn(Pinged(bs, sent[0].id, now), Count(bs, sent, now), sent[1..], now)
    ensures CountedIn(bs, Count(bs, sent, now), sent, now)
  {
    hide TableOk, Pinged, AllNodes, Count;
    TablePlacesDiffer(my, bs);
    var q := PingedIs(my, bs, sent[0].id, now);
    if !Knows(bs, sent[0].id) {
      forall p | 0 <= p < |AllNodes(bs)|
        ensures AllNodes(bs)[p].id != sent[0].id
      {
        KnowsNode(bs, AllNodes(bs)[p]);
      }
    }
  }

  // One search at a time.

  /** What a search sends in an event. */
  function Sends(s: State, target: Id, v6: bool, e: S.Event): seq<SNode>
    requires |s.list| <= SEARCH_NODES
  {
    match e
    case Named(w, now) => if w.v6 == v6 then MetRequests(s.list, target, w, now) else []
    case Push(now) => PushRequests(s.list, now)
    case Tick(now) => Requests(s, now)
    case _ => []
  }

  function Clock(e: S.Event): int {
    match e
    case Named(_, now) => now
    case Push(now) => now
    case Tick(now) => now
    case _ => 0
  }

  /** An event of search k, with its requests counted. */
  function Turn(d: Dht, v6: bool, k: nat, e: S.Event): (r: Dht)
    requires Fits(d) && k < |d.searches|
    ensures Fits(r) && |r.searches| == |d.searches|
  {
    var l := d.searches[k];
    Dht(Count(d.table, Sends(l.s, l.target, v6, e), Clock(e)), d.searches[k := l.(s := S.After(l.s, l.target, v6, e))])
  }

  lemma TurnOk(my: Id, d: Dht, v6: bool, k: nat, e: S.Event)
    requires Ok(my, d) && Fits(d) && k < |d.searches|
    ensures Ok(my, Turn(d, v6, k, e))
  {
    hide TableOk, Sound, S.After, Sends, Count;
    var l := d.searches[k];
    CountOk(my, d.table, Sends(l.s, l.target, v6, e), Clock(e));
    S.AfterSound(l.s, l.target, v6, e);
  }

  // new_node and add_search_node.

  /** add_search_node, from search k on. */
  function TellFrom(d: Dht, v6: bool, k: nat, w: News): (r: Dht)
    requires Fits(d) && k <= |d.searches|
    ensures Fits(r) && |r.searches| == |d.searches|
    decreases |d.searches| - k
  {
    if k == |d.searches| then d
    else TellFrom(Turn(d, v6, k, S.Named(Report(w.id, w.addr, v6, false, None, w.now), w.now)), v6, k + 1, w)
  }

  lemma {:induction false} TellOk(my: Id, d: Dht, v6: bool, k: nat, w: News)
    requires Ok(my, d) && Fits(d) && k <= |d.searches|
    ensures Ok(my, TellFrom(d, v6, k, w))
    decreases |d.searches| - k
  {
    hide Ok, Turn;
    if k < |d.searches| {
      var e := S.Named(Report(w.id, w.addr, v6, false, None, w.now), w.now);
      TurnOk(my, d, v6, k, e);
      TellOk(my, Turn(d, v6, k, e), v6, k + 1, w);
    }
  }

  function Learnt(my: Id, d: Dht, v6: bool, w: News): (r: Dht)
    requires TableOk(my, d.table) && Fits(d)
  {
    var d1 := d.(table := NewNode(my, d.table, w).0);
    if w.confirm == 2 && w.id != my && !w.rejected then TellFrom(d1, v6, 0, w) else d1
  }

  // blacklist_node.

  /** Its loop over the searches, from search k on. */
  function BanFrom(d: Dht, v6: bool, k: nat, id: Id): (r: Dht)
    requires Fits(d) && k <= |d.searches|
    ensures Fits(r) && |r.searches| == |d.searches| && r.table == d.table
    decreases |d.searches| - k
  {
    if k == |d.searches| then d else BanFrom(Turn(d, v6, k, S.Broken(id)), v6, k + 1, id)
  }

  lemma {:induction false} BanOk(my: Id, d: Dht, v6: bool, k: nat, id: Id)
    requires Ok(my, d) && Fits(d) && k <= |d.searches|
    ensures Ok(my, BanFrom(d, v6, k, id))
    decreases |d.searches| - k
  {
    hide Ok, Turn;
    if k < |d.searches| {
      TurnOk(my, d, v6, k, S.Broken(id));
      BanOk(my, Turn(d, v6, k, S.Broken(id)), v6, k + 1, id);
    }
  }

  /** The whole of it; the table is that of the sender's address family. */
  function Banned(d: Dht, v6: bool, id: Id, now: int, here: bool): (r: Dht)
    requires Fits(d)
  {
    BanFrom(if here then d.(table := BlacklistNode(d.table, id, now)) else d, v6, 0, id)
  }

  // dht_search.

  function FindSearch(searches: seq<Slot>, target: Id, k: nat): (r: nat)
    requires k <= |searches|
    ensures k <= r <= |searches|
    ensures forall i :: k <= i < r ==> searches[i].target != target
    ensures r < |searches| ==> searches[r].target == target
    decreases |searches| - k
  {
    if k == |searches| || searches[k].target == target then k else FindSearch(searches, target, k + 1)
  }

  /** The first of the finished searches that was stepped longest ago, or best. */
  function Oldest(searches: seq<Slot>, k: nat, best: int): (r: int)
    requires k <= |searches| && -1 <= best < |searches|
    ensures -1 <= r < |searches|
    decreases |searches| - k
  {
    if k == |searches| then best
    else Oldest(searches, k + 1, if Better(searches, k, best) then k else best)
  }

  predicate Better(searches: seq<Slot>, k: nat, best: int)
    requires k < |searches| && -1 <= best < |searches|
  {
    searches[k].s.done && (best == -1 || searches[best].s.stepTime > searches[k].s.stepTime)
  }

  lemma {:induction false} OldestFrom(searches: seq<Slot>, k: nat, best: int)
    requires k <= |searches| && -1 <= best < |searches| && (best >= 0 ==> searches[best].s.done)
    requires forall i :: 0 <= i < k && searches[i].s.done ==>
      best >= 0 && searches[best].s.stepTime <= searches[i].s.stepTime
    ensures var o := Oldest(searches, k, best);
      && (o >= 0 ==> searches[o].s.done)
      && forall i :: 0 <= i < |searches| && searches[i].s.done ==>
        o >= 0 && searches[o].s.stepTime <= searches[i].s.stepTime
    decreases |searches| - k
  {
    if k < |searches| { OldestFrom(searches, k + 1, if Better(searches, k, best) then k else best); }
  }

  /** new_search fails exactly when all slots are taken by searches that still run, and it
      never takes the slot of one of those; it reuses a slot only if the search was stepped
      longest ago of all finished ones. */
  lemma NewPlaceIs(searches: seq<Slot>, now: int)
    requires |searches| <= MAX_SEARCHES
    ensures NewPlace(searches, now).None? <==>
      |searches| == MAX_SEARCHES && forall k :: 0 <= k < |searches| ==> !searches[k].s.done
    ensures match NewPlace(searches, now)
      case None => true
      case Some(o) => o >= 0 ==> searches[o].s.done && forall i :: 0 <= i < |searches| && searches[i].s.done ==>
        searches[o].s.stepTime <= searches[i].s.stepTime
    ensures NewPlace(searches, now) == Some(-1) <==>
      |searches| < 1024 && forall k :: 0 <= k < |searches| && searches[k].s.done ==> searches[k].s.stepTime >= now - 3720
  {
    OldestFrom(searches, 0, -1);
  }

  /** new_search: the slot to use, -1 for one of its own at the head of the list; None when
      all slots are in use. */
  function NewPlace(searches: seq<Slot>, now: int): (r: Option<int>)
    ensures r.Some? ==> -1 <= r.value < |searches| && (r.value == -1 ==> |searches| < MAX_SEARCHES)
  {
    var o := Oldest(searches, 0, -1);
    if o >= 0 && searches[o].s.stepTime < now - SEARCH_EXPIRE then Some(o)
    else if |searches| < MAX_SEARCHES then Some(-1)
    else if o >= 0 then Some(o)
    else None
  }

  /** The searches with the slot set up or restarted, and where it is. */
  function Placed(d: Dht, target: Id, port: nat, now: int): (r: Option<(Dht, nat)>)
    requires Fits(d)
    ensures r.Some? ==> Fits(r.value.0) && r.value.1 < |r.value.0.searches| && r.value.0.table == d.table
  {
    var k := FindSearch(d.searches, target, 0);
    if k < |d.searches| then
      var s := S.After(d.searches[k].s, target, false, S.Again(port, now));
      Some((d.(searches := d.searches[k := Slot(target, s)]), k))
    else
      match NewPlace(d.searches, now)
      case None => None
      case Some(o) =>
        if o == -1 then Some((d.(searches := [Slot(target, S.Fresh(port))] + d.searches), 0))
        else Some((d.(searches := d.searches[o := Slot(target, S.Fresh(port))]), o))
  }

  lemma PlacedOk(my: Id, d: Dht, target: Id, port: nat, now: int)
    requires Ok(my, d) && Fits(d) && Placed(d, target, port, now).Some?
    ensures Ok(my, Placed(d, target, port, now).value.0)
    ensures var r := Placed(d, target, port, now).value; r.0.searches[r.1].target == target
  {
    hide TableOk, Sound, S.After;
    var k := FindSearch(d.searches, target, 0);
    if k < |d.searches| {
      S.AfterSound(d.searches[k].s, target, false, S.Again(port, now));
    } else {
      NothingSound(target);
    }
  }

  lemma NothingSound(target: Id)
    ensures Sound([], target)
  {}

  /** insert_search_bucket */
  function FillFrom(list: seq<SNode>, target: Id, v6: bool, nodes: seq<Node>, now: int): (r: seq<SNode>)
    requires |list| <= SEARCH_NODES
    ensures |r| <= SEARCH_NODES
    decreases |nodes|
  {
    if nodes == [] then list
    else FillFrom(InsertRecord(list, target, Report(nodes[0].id, nodes[0].addr, v6, false, None, now)), target, v6,
      nodes[1..], now)
  }

  lemma {:induction false} FillConcat(list: seq<SNode>, target: Id, v6: bool, a: seq<Node>, b: seq<Node>, now: int)
    requires |list| <= SEARCH_NODES
    ensures FillFrom(list, target, v6, a + b, now) == FillFrom(FillFrom(list, target, v6, a, now), target, v6, b, now)
    decreases |a|
  {
    hide InsertRecord;
    if a == [] {
      assert a + b == b;
    } else {
      assert (a + b)[0] == a[0] && (a + b)[1..] == a[1..] + b;
      FillConcat(InsertRecord(list, target, Report(a[0].id, a[0].addr, v6, false, None, now)), target, v6, a[1..], b,
        now);
    }
  }

  /** The buckets dht_search offers after the target's own, if that leaves room. */
  function Around(bs: seq<Bucket>, target: Id): seq<Node>
    requires |bs| > 0
  {
    var i := FindBucket(bs, target);
    (if i + 1 < |bs| then bs[i + 1].nodes else []) + if i > 0 then bs[i - 1].nodes else []
  }

  function Filled(my: Id, bs: seq<Bucket>, list: seq<SNode>, target: Id, v6: bool, now: int): (r: seq<SNode>)
    requires |list| <= SEARCH_NODES && |bs| > 0
    ensures |r| <= SEARCH_NODES
  {
    var l1 := FillFrom(list, target, v6, bs[FindBucket(bs, target)].nodes, now);
    var l2 := if |l1| < SEARCH_NODES then FillFrom(l1, target, v6, Around(bs, target), now) else l1;
    if |l2| < SEARCH_NODES then FillFrom(l2, target, v6, bs[FindBucket(bs, my)].nodes, now) else l2
  }

  /** The list of search k is another one. */
  function Refilled(d: Dht, k: nat, list: seq<SNode>): Dht
    requires k < |d.searches|
  {
    d.(searches := d.searches[k := d.searches[k].(s := d.searches[k].s.(list := list))])
  }

  /** Search k, placed, takes its first candidates and makes its first step. */
  function Begun(my: Id, d: Dht, v6: bool, k: nat, now: int): (r: Dht)
    requires Fits(d) && k < |d.searches|
    ensures Fits(r)
  {
    var l := d.searches[k];
    Turn(Refilled(d, k, Filled(my, d.table, l.s.list, l.target, v6, now)), v6, k, S.Tick(now))
  }

  /** dht_search: the new state and the return code. */
  function Started(my: Id, d: Dht, v6: bool, target: Id, port: nat, now: int): (r: (Dht, int))
    requires Fits(d)
    ensures Fits(r.0)
  {
    var k := FindSearch(d.searches, target, 0);
    match Placed(d, target, port, now)
    case None => (d, -1)
    case Some((d1, i)) => (Begun(my, d1, v6, i, now), if k < |d.searches| && !d.searches[k].s.done then 0 else 1)
  }

  lemma {:induction false} FillSound(list: seq<SNode>, target: Id, v6: bool, nodes: seq<Node>, now: int)
    requires Sound(list, target) && |list| <= SEARCH_NODES
    ensures Sound(FillFrom(list, target, v6, nodes, now), target)
    decreases |nodes|
  {
    hide Sound, InsertRecord;
    if nodes != [] {
      var w := Report(nodes[0].id, nodes[0].addr, v6, false, None, now);
      InsertSound(list, target, w);
      FillSound(InsertRecord(list, target, w), target, v6, nodes[1..], now);
    }
  }

  lemma FilledSound(my: Id, bs: seq<Bucket>, list: seq<SNode>, target: Id, v6: bool, now: int)
    requires Sound(list, target) && |list| <= SEARCH_NODES && |bs| > 0
    ensures Sound(Filled(my, bs, list, target, v6, now), target)
  {
    hide Sound, FillFrom, Around, FindBucket;
    var l1 := FillFrom(list, target, v6, bs[FindBucket(bs, target)].nodes, now);
    FillSound(list, target, v6, bs[FindBucket(bs, target)].nodes, now);
    var l2 := if |l1| < SEARCH_NODES then FillFrom(l1, target, v6, Around(bs, target), now) else l1;
    if |l1| < SEARCH_NODES { FillSound(l1, target, v6, Around(bs, target), now); }
    if |l2| < SEARCH_NODES { FillSound(l2, target, v6, bs[FindBucket(bs, my)].nodes, now); }
  }

  lemma StartedOk(my: Id, d: Dht, v6: bool, target: Id, port: nat, now: int)
    requires Ok(my, d) && Fits(d)
    ensures Ok(my, Started(my, d, v6, target, port, now).0)
  {
    hide TableOk, Sound, Placed, Filled, Turn;
    if Placed(d, target, port, now).Some? {
      var (d1, i) := Placed(d, target, port, now).value;
      PlacedOk(my, d, target, port, now);
      var l := d1.searches[i];
      FilledSound(my, d1.table, l.s.list, l.target, v6, now);
      TurnOk(my, Refilled(d1, i, Filled(my, d1.table, l.s.list, l.target, v6, now)), v6, i, S.Tick(now));
    }
  }

  // expire_searches.

  function Unexpired(searches: seq<Slot>, now: int): (r: seq<Slot>)
    ensures |r| <= |searches| && forall l :: l in r <==> l in searches && l.s.stepTime >= now - 3720
  {
    if searches == [] then []
    else if searches[0].s.stepTime < now - SEARCH_EXPIRE then Unexpired(searches[1..], now)
    else [searches[0]] + Unexpired(searches[1..], now)
  }

  lemma {:induction false} UnexpiredConcat(a: seq<Slot>, b: seq<Slot>, now: int)
    ensures Unexpired(a + b, now) == Unexpired(a, now) + Unexpired(b, now)
  {
    if a == [] {
      assert a + b == b;
    } else {
      assert (a + b)[0] == a[0] && (a + b)[1..] == a[1..] + b;
      UnexpiredConcat(a[1..], b, now);
    }
  }

  /** Unlinking one search that is too old. */
  lemma UnexpiredDrop(searches: seq<Slot>, k: nat, now: int)
    requires k < |searches| && searches[k].s.stepTime < now - SEARCH_EXPIRE
    ensures Unexpired(searches[..k] + searches[k + 1..], now) == Unexpired(searches, now)
  {
    var rest := searches[k..];
    assert searches == searches[..k] + rest && rest[1..] == searches[k + 1..];
    UnexpiredConcat(searches[..k], searches[k + 1..], now);
    UnexpiredConcat(searches[..k], rest, now);
  }

  lemma {:induction false} UnexpiredAll(searches: seq<Slot>, now: int)
    requires forall k :: 0 <= k < |searches| ==> searches[k].s.stepTime >= now - SEARCH_EXPIRE
    ensures Unexpired(searches, now) == searches
  {
    if searches != [] { UnexpiredAll(searches[1..], now); }
  }

  lemma DropSlotOk(my: Id, d: Dht, k: nat)
    requires Ok(my, d) && Fits(d) && k < |d.searches|
    ensures var r := d.(searches := d.searches[..k] + d.searches[k + 1..]); Ok(my, r) && Fits(r)
  {
    hide TableOk, Sound;
    var l, r := d.searches, d.searches[..k] + d.searches[k + 1..];
    assert forall i :: 0 <= i < |r| ==> r[i] == l[if i < k then i else i + 1];
  }

  lemma {:induction false} UnexpiredOk(searches: seq<Slot>, now: int)
    requires AllSound(searches) && OnePerTarget(searches)
    ensures AllSound(Unexpired(searches, now)) && OnePerTarget(Unexpired(searches, now))
  {
    hide Sound;
    if searches != [] {
      assert searches == [searches[0]] + searches[1..];
      UnexpiredOk(searches[1..], now);
      var r := Unexpired(searches[1..], now);
      if searches[0].s.stepTime >= now - SEARCH_EXPIRE { FrontOk(searches[0], r, searches[1..]); }
    }
  }

  lemma FrontOk(l: Slot, r: seq<Slot>, rest: seq<Slot>)
    requires AllSound([l] + rest) && OnePerTarget([l] + rest) && AllSound(r) && OnePerTarget(r)
    requires forall m :: m in r ==> m in rest
    ensures AllSound([l] + r) && OnePerTarget([l] + r)
  {
    hide Sound;
    var all := [l] + rest;
    assert all[0] == l;
    forall k | 0 <= k < |r|
      ensures r[k].target != l.target
    {
      assert r[k] in r && r[k] in rest;
      var i :| 0 <= i < |rest| && rest[i] == r[k];
      assert all[i + 1] == rest[i];
    }
    assert forall k :: 0 < k < |[l] + r| ==> ([l] + r)[k] == r[k - 1];
  }

  // Runs.

  datatype Act =
    | Learn(w: News)
    | Happen(k: nat, e: S.Event)
    | Ban(id: Id, now: int, here: bool)
    | Start(target: Id, port: nat, now: int)
    | ExpireTable
    | ExpireSearches(now: int)

  function Do(my: Id, d: Dht, v6: bool, a: Act): Dht
    requires TableOk(my, d.table) && Fits(d)
  {
    match a
    case Learn(w) => Learnt(my, d, v6, w)
    case Happen(k, e) => if k < |d.searches| then Turn(d, v6, k, e) else d
    case Ban(id, now, here) => Banned(d, v6, id, now, here)
    case Start(target, port, now) => Started(my, d, v6, target, port, now).0
    case ExpireTable => d.(table := ExpireFrom(d.table, 0))
    case ExpireSearches(now) => d.(searches := Unexpired(d.searches, now))
  }

  lemma DoOk(my: Id, d: Dht, v6: bool, a: Act)
    requires Ok(my, d) && Fits(d)
    ensures Ok(my, Do(my, d, v6, a))
  {
    hide TableOk, AllSound, OnePerTarget, Turn, TellFrom, BanFrom, Started, NewNode, ExpireFrom, BlacklistNode;
    match a
    case Learn(w) =>
      NewNodeDeepens(my, d.table, w);
      TellOk(my, d.(table := NewNode(my, d.table, w).0), v6, 0, w);
    case Happen(k, e) => if k < |d.searches| { TurnOk(my, d, v6, k, e); }
    case Ban(id, now, here) =>
      BlacklistOk(my, d.table, id, now);
      BanOk(my, if here then d.(table := BlacklistNode(d.table, id, now)) else d, v6, 0, id);
    case Start(target, port, now) => StartedOk(my, d, v6, target, port, now);
    case ExpireTable => ExpireOk(my, d.table, 0);
    case ExpireSearches(now) => UnexpiredOk(d.searches, now);
  }

  /** The node after a run of acts from dht_init on. */
  function Run(my: Id, v6: bool, acts: seq<Act>): (d: Dht)
    ensures Ok(my, d)
    decreases |acts|
  {
    if acts == [] then
      InitialOk(my);
      Dht(InitialTable(), [])
    else
      var before := Run(my, v6, acts[..|acts| - 1]);
      OkFits(my, before);
      DoOk(my, before, v6, acts[|acts| - 1]);
      Do(my, before, v6, acts[|acts| - 1])
  }

  // Every request is one ping.

  lemma {:induction false} NoTimes(list: seq<SNode>, id: Id)
    requires forall i :: 0 <= i < |list| ==> list[i].id != id
    ensures Times(list, id) == 0
  {
    if list != [] { NoTimes(list[1..], id); }
  }

  lemma {:induction false} OnceAtMost(list: seq<SNode>, id: Id)
    requires forall i, j :: 0 <= i < j < |list| ==> list[i].id != list[j].id
    ensures Times(list, id) <= 1
  {
    if list != [] {
      OnceAtMost(list[1..], id);
      if list[0].id == id { NoTimes(list[1..], id); }
    }
  }

  lemma {:induction false} AskToTimes(rest: seq<SNode>, j: nat, now: int, id: Id)
    ensures Times(AskTo(rest, j, now), id) <= Times(rest, id)
  {
    if rest != [] {
      AskToTimes(rest[1..], j, now, id);
      AskToTimes(rest[1..], j + 1, now, id);
      TimesCons(rest[0], AskTo(rest[1..], j + 1, now), id);
    }
  }

  lemma {:induction false} AnnounceToTimes(rest: seq<SNode>, j: nat, id: Id)
    ensures Times(AnnounceTo(rest, j), id) <= Times(rest, id)
  {
    if rest != [] {
      AnnounceToTimes(rest[1..], j, id);
      AnnounceToTimes(rest[1..], j + 1, id);
      TimesCons(rest[0], AnnounceTo(rest[1..], j + 1), id);
      assert [] + AnnounceTo(rest[1..], j + 1) == AnnounceTo(rest[1..], j + 1);
    }
  }

  lemma TimesCons(n: SNode, list: seq<SNode>, id: Id)
    ensures Times([n] + list, id) == (if n.id == id then 1 else 0) + Times(list, id)
    ensures Times([n], id) == if n.id == id then 1 else 0
  {
    assert ([n] + list)[1..] == list && [n][1..] == [];
  }

  lemma SendsOnce(s: State, target: Id, v6: bool, e: S.Event, id: Id)
    requires Sound(s.list, target) && |s.list| <= SEARCH_NODES
    ensures Times(Sends(s, target, v6, e), id) <= 1
  {
    hide Sound, AskTo, AnnounceTo, AllReplied, InsertRecord, Times, LastEligible, Nearest.Spot;
    var sent := Sends(s, target, v6, e);
    NoTimes([], id);
    match e
    case Tick(now) =>
      OnceOnly(s.list, target);
      OnceAtMost(s.list, id);
      AskToTimes(s.list, 0, now, id);
      AnnounceToTimes(s.list, 0, id);
    case Named(w, _) =>
      if sent != [] {
        MetAt(s.list, target, w);
        TimesCons(sent[0], [], id);
        assert sent == [sent[0]];
      }
    case Push(_) =>
      if sent != [] {
        TimesCons(sent[0], [], id);
        assert sent == [sent[0]];
      }
    case _ =>
  }

  /** In an event of a search the table counts one ping for every node that a request went
      to, and changes nothing else. */
  lemma TurnCounts(my: Id, d: Dht, v6: bool, k: nat, e: S.Event)
    requires Ok(my, d) && Fits(d) && k < |d.searches|
    ensures var sent := Sends(d.searches[k].s, d.searches[k].target, v6, e);
      CountedIn(d.table, Turn(d, v6, k, e).table, sent, Clock(e)) && forall id :: Times(sent, id) <= 1
  {
    hide TableOk, Sound, Sends, Count, CountedIn, Times, S.After;
    var l := d.searches[k];
    CountIs(my, d.table, Sends(l.s, l.target, v6, e), Clock(e));
    forall id
      ensures Times(Sends(l.s, l.target, v6, e), id) <= 1
    {
      SendsOnce(l.s, l.target, v6, e, id);
    }
  }

  /** A step takes from the requests the search may still send exactly those that the table
      counts, at most eight. */
  lemma TickCounts(my: Id, d: Dht, v6: bool, k: nat, now: int)
    requires Ok(my, d) && Fits(d) && k < |d.searches|
    ensures var s, r := d.searches[k].s, Turn(d, v6, k, S.Tick(now));
      var sent := Requests(s, now);
      && Work(r.searches[k].s.list) == Work(s.list) - |sent| && |sent| <= 8
      && CountedIn(d.table, r.table, sent, now) && forall id :: Times(sent, id) <= 1
  {
    hide Ok, Requests, Step, Work, CountedIn, Times, AllReplied;
    TurnCounts(my, d, v6, k, S.Tick(now));
    StepRequests(d.searches[k].s, now);
  }

  // A new search.

  lemma {:induction false} FillNearest(list: seq<SNode>, seen: set<Id>, target: Id, v6: bool, nodes: seq<Node>,
                                       now: int)
    requires |list| <= SEARCH_NODES && Nearest.IsNearest(IdsOf(list), seen, target, SEARCH_NODES)
    ensures Nearest.IsNearest(IdsOf(FillFrom(list, target, v6, nodes, now)), seen + NodeIds(nodes), target,
      SEARCH_NODES)
    decreases |nodes|
  {
    hide Nearest.IsNearest, InsertRecord, NodeIds;
    FirstId(seen, nodes);
    if nodes != [] {
      var w := Report(nodes[0].id, nodes[0].addr, v6, false, None, now);
      InsertRecordIds(list, target, w);
      Nearest.InsertNearest(IdsOf(list), seen, w.id, target, SEARCH_NODES);
      FillNearest(InsertRecord(list, target, w), seen + {w.id}, target, v6, nodes[1..], now);
    }
  }

  lemma FirstId(seen: set<Id>, nodes: seq<Node>)
    ensures nodes == [] ==> seen + NodeIds(nodes) == seen
    ensures nodes != [] ==> seen + {nodes[0].id} + NodeIds(nodes[1..]) == seen + NodeIds(nodes)
  {
    if nodes != [] {
      assert forall a :: 0 < a < |nodes| ==> nodes[1..][a - 1] == nodes[a];
      assert forall a :: 0 <= a < |nodes[1..]| ==> nodes[1..][a] == nodes[a + 1];
    }
  }

  /** The ids dht_search offers to a search. */
  ghost function Offered(my: Id, bs: seq<Bucket>, list: seq<SNode>, target: Id, v6: bool, now: int): set<Id>
    requires |list| <= SEARCH_NODES && |bs| > 0
  {
    var own := bs[FindBucket(bs, target)].nodes;
    var l1 := FillFrom(list, target, v6, own, now);
    var l2 := if |l1| < SEARCH_NODES then FillFrom(l1, target, v6, Around(bs, target), now) else l1;
    NodeIds(own) + (if |l1| < SEARCH_NODES then NodeIds(Around(bs, target)) else {})
    + if |l2| < SEARCH_NODES then NodeIds(bs[FindBucket(bs, my)].nodes) else {}
  }

  /** dht_search leaves a search with the fourteen nearest of what it had and what it is
      offered. */
  lemma FilledNearest(my: Id, bs: seq<Bucket>, list: seq<SNode>, seen: set<Id>, target: Id, v6: bool, now: int)
    requires |list| <= SEARCH_NODES && |bs| > 0 && Nearest.IsNearest(IdsOf(list), seen, target, SEARCH_NODES)
    ensures Nearest.IsNearest(IdsOf(Filled(my, bs, list, target, v6, now)),
      seen + Offered(my, bs, list, target, v6, now), target, SEARCH_NODES)
  {
    hide Nearest.IsNearest, FillFrom, NodeIds, Around, FindBucket;
    var own, mine := bs[FindBucket(bs, target)].nodes, bs[FindBucket(bs, my)].nodes;
    var l1, s1 := FillFrom(list, target, v6, own, now), seen + NodeIds(own);
    FillNearest(list, seen, target, v6, own, now);
    var l2 := if |l1| < SEARCH_NODES then FillFrom(l1, target, v6, Around(bs, target), now) else l1;
    var s2 := if |l1| < SEARCH_NODES then s1 + NodeIds(Around(bs, target)) else s1;
    if |l1| < SEARCH_NODES { FillNearest(l1, s1, target, v6, Around(bs, target), now); }
    if |l2| < SEARCH_NODES { FillNearest(l2, s2, target, v6, mine, now); }
    var all := if |l2| < SEARCH_NODES then s2 + NodeIds(mine) else s2;
    assert all == seen + Offered(my, bs, list, target, v6, now);
  }

  lemma InOwnBucket(my: Id, bs: seq<Bucket>, target: Id, id: Id)
    requires TableOk(my, bs) && |bs| > 0 && id in NodeIds(AllNodes(bs))
    ensures id in NodeIds(bs[FindBucket(bs, target)].nodes) <==> FindBucket(bs, id) == FindBucket(bs, target)
  {
    hide TableOk, AllNodes, FindBucket;
    var all, own := AllNodes(bs), bs[FindBucket(bs, target)].nodes;
    if id in NodeIds(own) {
      var a :| 0 <= a < |own| && own[a].id == id;
      HomeIs(my, bs, FindBucket(bs, target), own[a]);
    } else {
      var a :| 0 <= a < |all| && all[a].id == id;
      NodeIsHome(my, bs, all[a]);
    }
  }

  lemma OwnInAll(bs: seq<Bucket>, i: nat)
    requires i < |bs|
    ensures NodeIds(bs[i].nodes) <= NodeIds(AllNodes(bs))
  {
    hide AllNodes;
    forall id | id in NodeIds(bs[i].nodes)
      ensures id in NodeIds(AllNodes(bs))
    {
      var a :| 0 <= a < |bs[i].nodes| && bs[i].nodes[a].id == id;
      NodeIsIn(bs, i, bs[i].nodes[a]);
    }
  }

  /** A new search whose target's bucket has fourteen nodes starts with the fourteen nearest
      nodes of the whole table. */
  lemma FreshTrueNearest(my: Id, bs: seq<Bucket>, target: Id, v6: bool, now: int)
    requires TableOk(my, bs) && |bs| > 0 && |bs[FindBucket(bs, target)].nodes| >= SEARCH_NODES
    ensures Nearest.IsNearest(IdsOf(Filled(my, bs, [], target, v6, now)), NodeIds(AllNodes(bs)), target, SEARCH_NODES)
  {
    hide FillFrom, NodeIds, AllNodes, FindBucket, Closer, ShapeOk;
    var i := FindBucket(bs, target);
    var own, all := NodeIds(bs[i].nodes), NodeIds(AllNodes(bs));
    assert BucketOk(my, bs, i);
    DistinctSize(bs[i].nodes);
    FillNearest([], {}, target, v6, bs[i].nodes, now);
    assert {} + own == own;
    var list := IdsOf(Filled(my, bs, [], target, v6, now));
    Nearest.NearestSize(IdsOf(FillFrom([], target, v6, bs[i].nodes, now)), own, target, SEARCH_NODES);
    OwnInAll(bs, i);
    forall z | z in all && z !in list
      ensures forall k :: 0 <= k < |list| ==> Closer(list[k], z, target)
    {
      forall k | 0 <= k < |list|
        ensures Closer(list[k], z, target)
      {
        if z !in own {
          InOwnBucket(my, bs, target, z);
          InOwnBucket(my, bs, target, list[k]);
          OwnIsCloser(my, bs, target, list[k], z);
        }
      }
    }
  }

  // A blacklisted node.

  lemma {:induction false} BanIs(d: Dht, v6: bool, k: nat, id: Id)
    requires Fits(d) && k <= |d.searches|
    ensures var r := BanFrom(d, v6, k, id);
      forall i :: 0 <= i < |d.searches| ==> r.searches[i].s.list == if i < k then d.searches[i].s.list
        else Without(d.searches[i].s.list, id)
    decreases |d.searches| - k
  {
    hide Without;
    if k < |d.searches| { BanIs(Turn(d, v6, k, S.Broken(id)), v6, k + 1, id); }
  }

  /** After blacklist_node no search knows the node, and after the next expire_buckets the
      table does not either. */
  lemma BannedGone(my: Id, d: Dht, v6: bool, id: Id, now: int, here: bool)
    requires Ok(my, d) && Fits(d)
    ensures var r := Banned(d, v6, id, now, here);
      && (forall i :: 0 <= i < |r.searches| ==> forall n :: n in r.searches[i].s.list ==> n.id != id)
      && (here ==> !Knows(ExpireFrom(r.table, 0), id)) && (!here ==> r.table == d.table)
  {
    hide TableOk, Sound, Without, BlacklistNode, Knows, ExpireFrom, BanFrom;
    var d1 := if here then d.(table := BlacklistNode(d.table, id, now)) else d;
    BanIs(d1, v6, 0, id);
    var r := BanFrom(d1, v6, 0, id);
    forall i | 0 <= i < |r.searches|
      ensures forall n :: n in r.searches[i].s.list ==> n.id != id
    {
      WithoutIs(d.searches[i].s.list, id);
    }
    if here { BlacklistedGoes(my, d.table, id, now); }
  }
}
