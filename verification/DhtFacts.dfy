/** What a reply and a call of dht_search in dht.c mean for the searches: who is told, what a
    search starts with, and what is answered. */
module DhtFacts {
  import opened Ids
  import opened Wrappers
  import opened Table
  import opened TableOps
  import opened TableRuns
  import opened SearchSteps
  import opened Search
  import opened DhtRuns
  import R = SearchRecords
  import S = SearchRuns
  import Nearest

  // A node that replied.

  /** What the searches are told about the sender: only where it is. */
  function Mention(v6: bool, w: News): Report { Report(w.id, w.addr, v6, false, None, w.now) }

  lemma {:induction false} TellIs(d: Dht, v6: bool, i: nat, w: News, k: nat)
    requires Fits(d) && i <= |d.searches| && k < |d.searches|
    ensures var l := d.searches[k];
      TellFrom(d, v6, i, w).searches[k] ==
        if k < i then l else l.(s := l.s.(list := Met(l.s.list, l.target, Mention(v6, w), w.now)))
    decreases |d.searches| - i
  {
    hide Met, Count, Sends;
    if i < |d.searches| {
      TellIs(Turn(d, v6, i, S.Named(Mention(v6, w), w.now)), v6, i + 1, w, k);
    }
  }

  /** All requests this leads to. */
  function TellRequests(searches: seq<Slot>, v6: bool, w: News): seq<SNode>
    requires forall k :: 0 <= k < |searches| ==> |searches[k].s.list| <= SEARCH_NODES
  {
    if searches == [] then []
    else MetRequests(searches[0].s.list, searches[0].target, Mention(v6, w), w.now) + TellRequests(searches[1..], v6, w)
  }

  lemma {:induction false} CountConcat(bs: seq<Bucket>, a: seq<SNode>, b: seq<SNode>, now: int)
    requires |bs| > 0
    ensures Count(bs, a + b, now) == Count(Count(bs, a, now), b, now)
    decreases |a|
  {
    hide Pinged;
    if a == [] {
      assert a + b == b;
    } else {
      assert (a + b)[0] == a[0] && (a + b)[1..] == a[1..] + b;
      CountConcat(Pinged(bs, a[0].id, now), a[1..], b, now);
    }
  }

  lemma {:induction false} TellCounts(d: Dht, v6: bool, i: nat, w: News)
    requires Fits(d) && i <= |d.searches|
    ensures TellFrom(d, v6, i, w).table == Count(d.table, TellRequests(d.searches[i..], v6, w), w.now)
    decreases |d.searches| - i
  {
    hide MetRequests, Met, Count;
    if i < |d.searches| {
      var l, rest := d.searches[i], d.searches[i + 1..];
      var sent := MetRequests(l.s.list, l.target, Mention(v6, w), w.now);
      var next := Turn(d, v6, i, S.Named(Mention(v6, w), w.now));
      assert d.searches[i..][0] == l && d.searches[i..][1..] == rest == next.searches[i + 1..];
      TellCounts(next, v6, i + 1, w);
      CountConcat(d.table, sent, TellRequests(rest, v6, w), w.now);
    } else {
      NoCount(d.table, w.now);
      assert d.searches[i..] == [];
    }
  }

  lemma NoCount(bs: seq<Bucket>, now: int)
    requires |bs| > 0
    ensures Count(bs, [], now) == bs
  {}

  /** After a reply every search that is not full holds the sender, with its address; after
      anything else, and in full searches, nothing is different. */
  lemma ReplyReaches(my: Id, d: Dht, v6: bool, w: News, k: nat)
    requires Ok(my, d) && Fits(d) && k < |d.searches|
    ensures var r := Learnt(my, d, v6, w);
      var l, m := d.searches[k], r.searches[k];
      && |r.searches| == |d.searches| && m == l.(s := l.s.(list := m.s.list))
      && (if w.confirm == 2 && w.id != my && !w.rejected && |l.s.list| < SEARCH_NODES
          then exists n :: n in m.s.list && n.id == w.id && n.addr == w.addr
          else m == l)
  {
    hide TableOk, NewNode, TellFrom, Sound;
    var d1 := d.(table := NewNode(my, d.table, w).0);
    NewNodeDeepens(my, d.table, w);
    var l := d.searches[k];
    if w.confirm == 2 && w.id != my && !w.rejected {
      TellIs(d1, v6, 0, w, k);
      if |l.s.list| < SEARCH_NODES {
        MetHolds(l.s.list, l.target, Mention(v6, w), w.now);
      } else {
        S.MetFull(l.s.list, l.target, Mention(v6, w), w.now);
      }
    }
  }

  lemma MetHolds(list: seq<SNode>, target: Id, w: Report, now: int)
    requires Sound(list, target) && |list| < SEARCH_NODES
    ensures exists n :: n in Met(list, target, w, now) && n.id == w.id && n.addr == w.addr
  {
    hide InsertRecord, Met, Sound;
    var k := R.MetWrites(list, target, w, now);
    R.InsertWrites(list, target, w, k);
    assert Met(list, target, w, now)[k] in Met(list, target, w, now);
  }

  /** And its pings in the table are the requests that went to it. */
  lemma ReplyCounts(my: Id, d: Dht, v6: bool, w: News)
    requires Ok(my, d) && Fits(d)
    ensures var bs := NewNode(my, d.table, w).0;
      && |bs| > 0
      && Learnt(my, d, v6, w).table ==
        if w.confirm == 2 && w.id != my && !w.rejected then Count(bs, TellRequests(d.searches, v6, w), w.now) else bs
  {
    hide TableOk, NewNode, TellFrom, TellRequests, Count;
    NewNodeDeepens(my, d.table, w);
    TellCounts(d.(table := NewNode(my, d.table, w).0), v6, 0, w);
    assert d.searches[0..] == d.searches;
  }

  // dht_search.

  /** dht_search returns 0 exactly if a search for the hash is still running, and -1, with
      nothing changed, exactly if there is none for it and all slots have running ones. */
  lemma StartedCode(my: Id, d: Dht, v6: bool, target: Id, port: nat, now: int)
    requires Ok(my, d) && Fits(d)
    ensures var r := Started(my, d, v6, target, port, now);
      && (r.1 == 0 <==> exists k :: 0 <= k < |d.searches| && d.searches[k].target == target && !d.searches[k].s.done)
      && (r.1 == -1 <==> (|d.searches| == MAX_SEARCHES &&
            forall k :: 0 <= k < |d.searches| ==> d.searches[k].target != target && !d.searches[k].s.done))
      && (r.1 == -1 ==> r.0 == d) && r.1 in {-1, 0, 1}
  {
    hide TableOk, Begun, AllSound;
    NewPlaceIs(d.searches, now);
  }

  /** A record of a node of the table that nothing has been sent to. */
  ghost predicate Untried(list: seq<SNode>) {
    forall n :: n in list ==> n.pinged == 0 && !n.replied
  }

  lemma InsertUntried(list: seq<SNode>, target: Id, w: Report)
    requires |list| <= SEARCH_NODES && Untried(list) && !w.replied
    ensures Untried(InsertRecord(list, target, w)) && InsertRecord(list, target, w) != []
    ensures |InsertRecord(list, target, w)| >= |list|
  {
    hide Nearest.Spot;
    var i := Nearest.Spot(IdsOf(list), w.id, target, 0);
    var wide := list[..i] + [Updated(Blank(w.id), w)] + list[i..];
    assert forall n :: n in wide ==> n in list || n == Updated(Blank(w.id), w);
  }

  lemma {:induction false} FillUntried(list: seq<SNode>, target: Id, v6: bool, nodes: seq<Node>, now: int)
    requires |list| <= SEARCH_NODES && Untried(list)
    ensures Untried(FillFrom(list, target, v6, nodes, now)) && |FillFrom(list, target, v6, nodes, now)| >= |list|
    decreases |nodes|
  {
    hide InsertRecord;
    if nodes != [] {
      var w := Report(nodes[0].id, nodes[0].addr, v6, false, None, now);
      InsertUntried(list, target, w);
      FillUntried(InsertRecord(list, target, w), target, v6, nodes[1..], now);
    }
  }

  lemma FilledUntried(my: Id, bs: seq<Bucket>, list: seq<SNode>, target: Id, v6: bool, now: int)
    requires |list| <= SEARCH_NODES && |bs| > 0 && Untried(list)
    ensures Untried(Filled(my, bs, list, target, v6, now)) && |Filled(my, bs, list, target, v6, now)| >= |list|
  {
    hide Untried, FillFrom, Around, FindBucket;
    var l1 := FillFrom(list, target, v6, bs[FindBucket(bs, target)].nodes, now);
    FillUntried(list, target, v6, bs[FindBucket(bs, target)].nodes, now);
    var l2 := if |l1| < SEARCH_NODES then FillFrom(l1, target, v6, Around(bs, target), now) else l1;
    if |l1| < SEARCH_NODES { FillUntried(l1, target, v6, Around(bs, target), now); }
    if |l2| < SEARCH_NODES { FillUntried(l2, target, v6, bs[FindBucket(bs, my)].nodes, now); }
  }

  /** The first step of a search is its last exactly if it found nobody to ask. */
  lemma FirstStep(s: State, now: int)
    requires Untried(s.list) && !s.done
    ensures Step(s, now).done <==> s.list == []
    ensures |Step(s, now).list| == |s.list|
  {
    if s.list != [] { assert s.list[0] in s.list; }
  }

  /** The slot that dht_search begins with: unfinished, with the port, and no record that was
      tried since. */
  lemma PlacedIs(d: Dht, target: Id, port: nat, now: int)
    requires Fits(d) && Placed(d, target, port, now).Some?
    ensures var (d1, i) := Placed(d, target, port, now).value;
      && d1.searches[i].target == target && d1.searches[i].s.port == port && !d1.searches[i].s.done
      && Untried(d1.searches[i].s.list)
      && (forall k :: 0 <= k < |d.searches| && d.searches[k].target != target && !d.searches[k].s.done ==>
            d.searches[k] in d1.searches)
      && forall k :: 0 <= k < |d1.searches| && k != i ==> d1.searches[k] in d.searches
  {
    hide Reused, Oldest;
    var k := FindSearch(d.searches, target, 0);
    if k < |d.searches| {
      forall n | n in Reused(d.searches[k].s.list, now)
        ensures n.pinged == 0 && !n.replied
      {
        R.RestartForgets(d.searches[k].s.list, now, n);
      }
      OthersStay(d.searches, k, Placed(d, target, port, now).value.0.searches[k]);
    } else {
      var o := NewPlace(d.searches, now).value;
      OldestFrom(d.searches, 0, -1);
      if o == -1 {
        var r := [Slot(target, S.Fresh(port))] + d.searches;
        assert forall j :: 0 <= j < |d.searches| ==> r[j + 1] == d.searches[j];
      } else {
        OthersStay(d.searches, o, Slot(target, S.Fresh(port)));
      }
    }
  }

  lemma OthersStay(searches: seq<Slot>, o: nat, l: Slot)
    requires o < |searches|
    ensures forall k :: 0 <= k < |searches| && k != o ==> searches[k] in searches[o := l]
    ensures var r := searches[o := l]; forall k :: 0 <= k < |searches| && k != o ==> r[k] in searches
  {
    var r := searches[o := l];
    assert forall k :: 0 <= k < |searches| && k != o ==> r[k] == searches[k];
  }

  /** When dht_search returns, the search for the hash is there, with the port, and is not
      done unless no node is known to ask; the other searches that run are as before. */
  lemma StartedSearch(my: Id, d: Dht, v6: bool, target: Id, port: nat, now: int) returns (i: nat)
    requires Ok(my, d) && Fits(d) && Started(my, d, v6, target, port, now).1 != -1
    ensures var r := Started(my, d, v6, target, port, now).0;
      && i < |r.searches| && r.searches[i].target == target && r.searches[i].s.port == port
      && (r.searches[i].s.done <==> r.searches[i].s.list == [])
      && (forall k :: 0 <= k < |d.searches| && d.searches[k].target != target && !d.searches[k].s.done ==>
            d.searches[k] in r.searches)
      && forall k :: 0 <= k < |r.searches| && k != i ==> r.searches[k] in d.searches
  {
    hide TableOk, Sound, Placed, Filled, Count, Sends, Step, Untried;
    PlacedIs(d, target, port, now);
    var (d1, k) := Placed(d, target, port, now).value;
    i := k;
    var s := d1.searches[k].s;
    FilledUntried(my, d1.table, s.list, target, v6, now);
    FirstStep(s.(list := Filled(my, d1.table, s.list, target, v6, now)), now);
    var r := Started(my, d, v6, target, port, now).0;
    assert r.searches == d1.searches[k := r.searches[k]];
    OthersStay(d1.searches, k, r.searches[k]);
  }

  // What a new search starts with.

  /** A record made of a node of the table, with its address, that nothing has been sent to. */
  ghost predicate OfTable(bs: seq<Bucket>, m: SNode) {
    exists n :: n in AllNodes(bs) && m == SNode(n.id, n.addr, 0, 0, 0, [], false, false)
  }

  ghost predicate AllOfTable(bs: seq<Bucket>, list: seq<SNode>) {
    forall m :: m in list ==> OfTable(bs, m)
  }

  lemma InsertOfTable(bs: seq<Bucket>, list: seq<SNode>, target: Id, v6: bool, n: Node, now: int)
    requires |list| <= SEARCH_NODES && AllOfTable(bs, list) && n in AllNodes(bs)
    ensures AllOfTable(bs, InsertRecord(list, target, Report(n.id, n.addr, v6, false, None, now)))
  {
    hide Nearest.Spot, AllNodes;
    var i := Nearest.Spot(IdsOf(list), n.id, target, 0);
    var m := SNode(n.id, n.addr, 0, 0, 0, [], false, false);
    assert OfTable(bs, m);
    var wide := list[..i] + [m] + list[i..];
    assert forall x :: x in wide ==> x in list || x == m;
    if i < |list| && list[i].id == n.id {
      assert list[i] in list;
      assert forall x :: x in list[i := m] ==> x in list || x == m;
    }
  }

  lemma {:induction false} FillOfTable(bs: seq<Bucket>, list: seq<SNode>, target: Id, v6: bool, nodes: seq<Node>,
                                       now: int)
    requires |list| <= SEARCH_NODES && AllOfTable(bs, list) && forall n :: n in nodes ==> n in AllNodes(bs)
    ensures AllOfTable(bs, FillFrom(list, target, v6, nodes, now))
    decreases |nodes|
  {
    hide AllNodes, AllOfTable, InsertRecord;
    if nodes != [] {
      InsertOfTable(bs, list, target, v6, nodes[0], now);
      var l := InsertRecord(list, target, Report(nodes[0].id, nodes[0].addr, v6, false, None, now));
      FillOfTable(bs, l, target, v6, nodes[1..], now);
    }
  }

  lemma AroundInTable(bs: seq<Bucket>, target: Id)
    requires |bs| > 0
    ensures forall n :: n in Around(bs, target) ==> n in AllNodes(bs)
    ensures forall i, n :: 0 <= i < |bs| && n in bs[i].nodes ==> n in AllNodes(bs)
  {
    hide AllNodes;
    forall i, n | 0 <= i < |bs| && n in bs[i].nodes
      ensures n in AllNodes(bs)
    {
      NodeIsIn(bs, i, n);
    }
  }

  /** Every record of a new search is a node of the table, with its address. */
  lemma FilledOfTable(my: Id, bs: seq<Bucket>, target: Id, v6: bool, now: int)
    requires |bs| > 0
    ensures AllOfTable(bs, Filled(my, bs, [], target, v6, now))
  {
    hide AllNodes, OfTable, FillFrom, FindBucket, Around;
    AroundInTable(bs, target);
    var own := bs[FindBucket(bs, target)].nodes;
    var l1 := FillFrom([], target, v6, own, now);
    FillOfTable(bs, [], target, v6, own, now);
    var l2 := if |l1| < SEARCH_NODES then FillFrom(l1, target, v6, Around(bs, target), now) else l1;
    if |l1| < SEARCH_NODES { FillOfTable(bs, l1, target, v6, Around(bs, target), now); }
    if |l2| < SEARCH_NODES { FillOfTable(bs, l2, target, v6, bs[FindBucket(bs, my)].nodes, now); }
  }

  /** If a new search is not full, it has every node of the target's bucket, of the next and
      the previous one, and of our own. */
  lemma NotFullHasAll(my: Id, bs: seq<Bucket>, target: Id, v6: bool, now: int, j: nat, n: Node)
    requires |bs| > 0 && |Filled(my, bs, [], target, v6, now)| < SEARCH_NODES && j < |bs| && n in bs[j].nodes
    requires var i := FindBucket(bs, target); j == i || j == i + 1 || j + 1 == i || j == FindBucket(bs, my)
    ensures exists m :: m in Filled(my, bs, [], target, v6, now) && m.id == n.id
  {
    hide FillFrom, FindBucket, Untried;
    var i := FindBucket(bs, target);
    var own := bs[i].nodes;
    var l1 := FillFrom([], target, v6, own, now);
    NothingTried();
    FillUntried([], target, v6, own, now);
    var l2 := if |l1| < SEARCH_NODES then FillFrom(l1, target, v6, Around(bs, target), now) else l1;
    if |l1| < SEARCH_NODES { FillUntried(l1, target, v6, Around(bs, target), now); }
    if |l2| < SEARCH_NODES { FillUntried(l2, target, v6, bs[FindBucket(bs, my)].nodes, now); }
    FilledNearest(my, bs, [], {}, target, v6, now);
    IdIn(bs[j].nodes, n);
    if j == i + 1 || j + 1 == i { IdIn(Around(bs, target), n); }
    assert n.id in Offered(my, bs, [], target, v6, now);
    var list := Filled(my, bs, [], target, v6, now);
    var k :| 0 <= k < |list| && IdsOf(list)[k] == n.id;
    assert list[k] in list;
  }

  lemma NothingTried()
    ensures Untried([])
  {}

  lemma IdIn(nodes: seq<Node>, n: Node)
    requires n in nodes
    ensures n.id in NodeIds(nodes)
  {
    var a :| 0 <= a < |nodes| && nodes[a] == n;
  }
}
