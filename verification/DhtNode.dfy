/** dht.c at work for one address family: the routing table and the searches as objects,
    changed step by step. Each method is tied to the function of DhtRuns.dfy that says what it
    does to both. */
module DhtNode {
  import opened Ids
  import opened Wrappers
  import opened Table
  import opened TableOps
  import opened TableRuns
  import opened Routing
  import opened SearchSteps
  import opened Search
  import opened DhtRuns
  import S = SearchRuns

  lemma OtherTable(my: Id, d: Dht, bs: seq<Bucket>)
    requires Ok(my, d)
    ensures TableOk(my, bs) && |bs| > 0 ==> Ok(my, d.(table := bs))
  {
    hide TableOk, AllSound, OnePerTarget;
  }

  lemma NextFill(list: seq<SNode>, target: Id, v6: bool, bs: seq<Bucket>, now: int)
    requires |list| <= SEARCH_NODES && |bs| > 0
    ensures FillFrom(list, target, v6, [], now) == list
    ensures var i := FindBucket(bs, target);
      var l := if i + 1 < |bs| then FillFrom(list, target, v6, bs[i + 1].nodes, now) else list;
      FillFrom(list, target, v6, Around(bs, target), now) ==
        if i > 0 then FillFrom(l, target, v6, bs[i - 1].nodes, now) else l
  {
    hide FindBucket;
    var i := FindBucket(bs, target);
    FillConcat(list, target, v6, if i + 1 < |bs| then bs[i + 1].nodes else [], if i > 0 then bs[i - 1].nodes else [],
      now);
  }

  lemma NoSlot(d: Dht, target: Id, port: nat, now: int)
    requires Fits(d) && FindSearch(d.searches, target, 0) == |d.searches|
    ensures Placed(d, target, port, now).None? <==> NewPlace(d.searches, now).None?
  {}

  class LocalNode {
    const my: Id
    const v6: bool
    const table: RoutingTable
    var searches: seq<SearchSlot>
    /** What table and searches stand for. */
    ghost var state: Dht

    ghost predicate Is(k: nat)
      requires k < |searches| == |state.searches|
      reads this, searches[k], searches[k].nodes
    {
      && searches[k].Valid() && searches[k].v6 == v6
      && state.searches[k] == Slot(searches[k].id, searches[k].Abs())
    }

    ghost predicate Apart()
      reads this, searches
    {
      forall i, j :: 0 <= i < j < |searches| ==> searches[i] != searches[j] && searches[i].nodes != searches[j].nodes
    }

    ghost function Arrays(): set<array<SNode>>
      reads this, searches
    {
      set k | 0 <= k < |searches| :: searches[k].nodes
    }

    ghost predicate Valid()
      reads this, table, searches, Arrays()
    {
      && table.my == my && table.Valid() && state.table == table.buckets
      && |searches| == |state.searches| && Apart()
      && (forall k: nat | k < |searches| :: Is(k))
      && Ok(my, state) && Fits(state)
    }

    /** dht_init's part. */
    constructor (id: Id, v6: bool, now: int)
      ensures Valid() && my == id && this.v6 == v6 && state == DhtRuns.Run(id, v6, []) && searches == [] && fresh(table)
    {
      my, this.v6, searches := id, v6, [];
      table := new RoutingTable(id, now);
      state := DhtRuns.Run(id, v6, []);
      OkFits(id, DhtRuns.Run(id, v6, []));
    }

    /** pinged, for the nodes that requests went to. */
    method CountAll(sent: seq<SNode>, now: int)
      requires table.Valid() && |table.buckets| > 0
      modifies table`buckets
      ensures table.Valid() && table.buckets == Count(old(table.buckets), sent, now)
    {
      hide Pinged, TableOk;
      ghost var goal := Count(table.buckets, sent, now);
      assert sent[0..] == sent;
      var i := 0;
      while i < |sent|
        invariant i <= |sent| && table.Valid() && |table.buckets| > 0 && Count(table.buckets, sent[i..], now) == goal
      {
        assert sent[i..][1..] == sent[i + 1..];
        table.MarkPinged(sent[i].id, now);
        i := i + 1;
      }
    }

    /** search_step */
    method Step(k: nat, now: int)
      requires Valid() && k < |searches|
      modifies this`state, table`buckets, searches[k], searches[k].nodes
      ensures Valid() && state == Turn(old(state), v6, k, S.Tick(now))
    {
      hide TableOk, Sound, Requests, SearchSteps.Step, Count;
      TurnOk(my, state, v6, k, S.Tick(now));
      assert Is(k);
      var sent := searches[k].TakeStep(now);
      CountAll(sent, now);
      state := Turn(state, v6, k, S.Tick(now));
      forall j: nat | j < |searches|
        ensures Is(j)
      {
        assert old(Is(j));
      }
    }

    /** search_send_get_peers without a node, after a reply. */
    method Push(k: nat, now: int)
      requires Valid() && k < |searches|
      modifies this`state, table`buckets, searches[k], searches[k].nodes
      ensures Valid() && state == Turn(old(state), v6, k, S.Push(now))
    {
      hide TableOk, Sound, Requests, SearchSteps.Step, Count, LastEligible;
      TurnOk(my, state, v6, k, S.Push(now));
      assert Is(k);
      var sent := searches[k].AskAny(now);
      CountAll(sent, now);
      state := Turn(state, v6, k, S.Push(now));
      forall j: nat | j < |searches|
        ensures Is(j)
      {
        assert old(Is(j));
      }
    }

    /** add_search_node, for one search. */
    method AddNode(k: nat, w: Report, now: int)
      requires Valid() && k < |searches| && !w.replied && w.token.None?
      modifies this`state, table`buckets, searches[k], searches[k].nodes
      ensures Valid() && state == Turn(old(state), v6, k, S.Named(w, now))
    {
      hide TableOk, Sound, Requests, SearchSteps.Step, Count, InsertRecord;
      TurnOk(my, state, v6, k, S.Named(w, now));
      assert Is(k);
      var sent := searches[k].AddNode(w, now);
      CountAll(sent, now);
      state := Turn(state, v6, k, S.Named(w, now));
      forall j: nat | j < |searches|
        ensures Is(j)
      {
        assert old(Is(j));
      }
    }

    /** insert_search_node */
    method Hear(k: nat, w: Report)
      requires Valid() && k < |searches|
      modifies this`state, table`buckets, searches[k], searches[k].nodes
      ensures Valid() && state == Turn(old(state), v6, k, S.Heard(w))
    {
      hide TableOk, Sound, Requests, SearchSteps.Step, InsertRecord;
      TurnOk(my, state, v6, k, S.Heard(w));
      assert Is(k);
      var at := searches[k].Insert(w);
      state := Turn(state, v6, k, S.Heard(w));
      forall j: nat | j < |searches|
        ensures Is(j)
      {
        assert old(Is(j));
      }
    }

    /** A reply to announce_peer. */
    method Confirm(k: nat, node: Id, now: int)
      requires Valid() && k < |searches|
      modifies this`state, table`buckets, searches[k], searches[k].nodes
      ensures Valid() && state == Turn(old(state), v6, k, S.Acks(node, now))
    {
      hide TableOk, Sound, Requests, SearchSteps.Step;
      TurnOk(my, state, v6, k, S.Acks(node, now));
      assert Is(k);
      searches[k].Confirm(node, now);
      state := Turn(state, v6, k, S.Acks(node, now));
      forall j: nat | j < |searches|
        ensures Is(j)
      {
        assert old(Is(j));
      }
    }

    /** blacklist_node's loop over one search. */
    method Drop(k: nat, node: Id)
      requires Valid() && k < |searches|
      modifies this`state, table`buckets, searches[k], searches[k].nodes
      ensures Valid() && state == Turn(old(state), v6, k, S.Broken(node))
    {
      hide TableOk, Sound, Requests, SearchSteps.Step;
      TurnOk(my, state, v6, k, S.Broken(node));
      assert Is(k);
      searches[k].Drop(node);
      state := Turn(state, v6, k, S.Broken(node));
      forall j: nat | j < |searches|
        ensures Is(j)
      {
        assert old(Is(j));
      }
    }

    /** new_node, with the searches told of a node that replied. */
    method Learn(w: News) returns (node: bool)
      requires Valid()
      modifies this`state, table, searches, Arrays()
      ensures Valid() && state == Learnt(my, old(state), v6, w) && searches == old(searches)
      ensures node == NewNode(my, old(state).table, w).1
    {
      hide TableOk, Sound, NewNode, Turn, TellFrom, Ok;
      NewNodeDeepens(my, state.table, w);
      OtherTable(my, state, NewNode(my, state.table, w).0);
      var told;
      node, told := table.Learn(w);
      state := state.(table := table.buckets);
      assert table.buckets == NewNode(my, old(state).table, w).0;
      forall j: nat | j < |searches|
        ensures Is(j)
      {
        assert old(Is(j));
      }
      if told {
        TellAll(w);
      }
    }

    /** add_search_node */
    method TellAll(w: News)
      requires Valid()
      modifies this`state, table`buckets, searches, Arrays()
      ensures Valid() && state == TellFrom(old(state), v6, 0, w)
    {
      hide TableOk, Sound, Turn, Ok;
      var k := 0;
      while k < |searches|
        invariant Valid() && k <= |searches| == |state.searches|
        invariant TellFrom(state, v6, k, w) == TellFrom(old(state), v6, 0, w)
      {
        AddNode(k, Report(w.id, w.addr, v6, false, None, w.now), w.now);
        k := k + 1;
      }
    }

    /** blacklist_node; the table is that of the sender's address family. */
    method Ban(id: Id, now: int, here: bool)
      requires Valid()
      modifies this`state, table`buckets, searches, Arrays()
      ensures Valid() && state == Banned(old(state), v6, id, now, here)
    {
      hide TableOk, Sound, Turn, Ok, BlacklistNode;
      OtherTable(my, state, BlacklistNode(state.table, id, now));
      if here {
        table.Blacklist(id, now);
        state := state.(table := table.buckets);
        forall j: nat | j < |searches|
          ensures Is(j)
        {
          assert old(Is(j));
        }
      }
      var k := 0;
      while k < |searches|
        invariant Valid() && k <= |searches| == |state.searches|
        invariant BanFrom(state, v6, k, id) == Banned(old(state), v6, id, now, here)
      {
        Drop(k, id);
        k := k + 1;
      }
    }

    // dht_search.

    method FindSlot(target: Id) returns (k: nat)
      requires Valid()
      ensures k == FindSearch(state.searches, target, 0)
    {
      k := 0;
      while k < |searches| && searches[k].id != target
        invariant k <= |searches| && FindSearch(state.searches, target, k) == FindSearch(state.searches, target, 0)
      {
        assert Is(k);
        k := k + 1;
      }
      if k < |searches| { assert Is(k); }
    }

    /** The scan of new_search. */
    method OldestDone() returns (o: int)
      requires Valid()
      ensures o == Oldest(state.searches, 0, -1)
    {
      o := -1;
      var k := 0;
      while k < |searches|
        invariant k <= |searches| && -1 <= o < |searches|
        invariant Oldest(state.searches, k, o) == Oldest(state.searches, 0, -1)
      {
        assert Is(k);
        if o >= 0 { assert Is(o); }
        if searches[k].done && (o == -1 || searches[o].stepTime > searches[k].stepTime) {
          o := k;
        }
        k := k + 1;
      }
    }

    /** new_search: the slot to use, -1 for one of its own; nothing when all are in use. */
    method NewSearch(now: int) returns (r: Option<int>)
      requires Valid()
      ensures r == NewPlace(state.searches, now)
    {
      var o := OldestDone();
      if o >= 0 { assert Is(o); }
      if o >= 0 && searches[o].stepTime < now - SEARCH_EXPIRE {
        return Some(o);
      }
      if |searches| < MAX_SEARCHES {
        return Some(-1);
      }
      return if o >= 0 then Some(o) else None;
    }

    /** Slot k is restarted. */
    method Restart(k: nat, port: nat, now: int)
      requires Valid() && k < |searches| && k == FindSearch(state.searches, searches[k].id, 0)
      modifies this`state, searches[k], searches[k].nodes
      ensures Valid() && Placed(old(state), searches[k].id, port, now) == Some((state, k))
    {
      hide TableOk, Sound;
      var target := searches[k].id;
      PlacedOk(my, state, target, port, now);
      assert Is(k);
      searches[k].Restart(port, now);
      state := Placed(state, target, port, now).value.0;
      forall j: nat | j < |searches|
        ensures Is(j)
      {
        assert old(Is(j));
      }
    }

    /** Slot o, or one of its own at the head of the list, is set up for a new search. */
    method SetUp(target: Id, port: nat, now: int, o: int) returns (k: nat)
      requires Valid() && FindSearch(state.searches, target, 0) == |state.searches|
      requires NewPlace(state.searches, now) == Some(o)
      modifies this`state, this`searches
      ensures Valid() && Placed(old(state), target, port, now) == Some((state, k))
      ensures k < |searches| && fresh(searches[k]) && fresh(searches[k].nodes)
    {
      hide TableOk, Sound, FindSearch, NewPlace, S.After, OnePerTarget, AllSound;
      PlacedOk(my, state, target, port, now);
      var sr := new SearchSlot(target, v6, port);
      searches := if o == -1 then [sr] + searches else searches[o := sr];
      k := if o == -1 then 0 else o;
      state := Placed(state, target, port, now).value.0;
      forall j: nat | j < |searches|
        ensures Is(j)
      {
        if o == -1 && j > 0 { assert old(Is(j - 1)); }
        if o >= 0 && j != o { assert old(Is(j)); }
      }
    }

    /** insert_search_bucket */
    method Fill(k: nat, nodes: seq<Node>, now: int)
      requires Valid() && k < |searches|
      modifies this`state, table`buckets, searches[k], searches[k].nodes
      ensures Valid()
      ensures state == Refilled(old(state), k, FillFrom(old(state).searches[k].s.list, searches[k].id, v6, nodes, now))
    {
      hide TableOk, Sound, InsertRecord, Ok;
      assert Is(k);
      var i, target := 0, searches[k].id;
      ghost var start := state;
      assert nodes[0..] == nodes;
      while i < |nodes|
        invariant i <= |nodes| && Valid() && k < |state.searches| && searches[k].id == target
        invariant state == Refilled(start, k, state.searches[k].s.list)
        invariant FillFrom(state.searches[k].s.list, target, v6, nodes[i..], now) ==
          FillFrom(start.searches[k].s.list, target, v6, nodes, now)
      {
        assert nodes[i..][1..] == nodes[i + 1..];
        assert Is(k);
        Hear(k, Report(nodes[i].id, nodes[i].addr, v6, false, None, now));
        i := i + 1;
      }
    }

    /** The buckets next to the target's, as far as they exist. */
    method FillNext(k: nat, i: nat, now: int)
      requires Valid() && k < |searches| && i == FindBucket(state.table, searches[k].id)
      modifies this`state, table`buckets, searches[k], searches[k].nodes
      ensures Valid()
      ensures state == Refilled(old(state), k,
        FillFrom(old(state).searches[k].s.list, searches[k].id, v6, Around(old(state).table, searches[k].id), now))
    {
      hide TableOk, Sound, FillFrom, Ok, FindBucket;
      assert Is(k);
      ghost var bs, list, target := state.table, state.searches[k].s.list, searches[k].id;
      NextFill(list, target, v6, bs, now);
      if i + 1 < |table.buckets| {
        Fill(k, table.buckets[i + 1].nodes, now);
      }
      var p := table.Previous(i);
      if p.Some? {
        Fill(k, table.buckets[p.value].nodes, now);
      }
    }

    /** The insertions of dht_search. */
    method FillAround(k: nat, now: int)
      requires Valid() && k < |searches|
      modifies this`state, table`buckets, searches[k], searches[k].nodes
      ensures Valid()
      ensures state == Refilled(old(state), k,
        Filled(my, old(state).table, old(state).searches[k].s.list, searches[k].id, v6, now))
    {
      hide TableOk, Sound, FillFrom, Ok, FindBucket, Around;
      assert Is(k);
      var i := table.Find(searches[k].id);
      Fill(k, table.buckets[i].nodes, now);
      assert Is(k);
      if searches[k].numnodes < SEARCH_NODES {
        FillNext(k, i, now);
        assert Is(k);
      }
      if searches[k].numnodes < SEARCH_NODES {
        i := table.Find(my);
        Fill(k, table.buckets[i].nodes, now);
      }
    }

    method Begin(k: nat, now: int)
      requires Valid() && k < |searches|
      modifies this`state, table`buckets, searches[k], searches[k].nodes
      ensures Valid() && state == Begun(my, old(state), v6, k, now)
    {
      hide TableOk, Sound, Ok, Filled, Turn;
      assert Is(k);
      FillAround(k, now);
      Step(k, now);
    }

    /** dht_search: 1 for a new search or a finished one, 0 for one that is still running, -1
        if there is no slot. */
    method Search(target: Id, port: nat, now: int) returns (rc: int)
      requires Valid()
      modifies this`state, this`searches, table`buckets, searches, Arrays()
      ensures Valid() && (state, rc) == Started(my, old(state), v6, target, port, now)
    {
      hide TableOk, Sound, Ok, Begun, Placed;
      var k := FindSlot(target);
      rc := 1;
      if k < |searches| {
        assert Is(k);
        if !searches[k].done {
          rc := 0;
        }
        Restart(k, port, now);
      } else {
        var place := NewSearch(now);
        NoSlot(state, target, port, now);
        if place.None? {
          return -1;
        }
        k := SetUp(target, port, now, place.value);
      }
      Begin(k, now);
    }

    /** expire_buckets */
    method ExpireTable()
      requires Valid()
      modifies this`state, table`buckets
      ensures Valid() && state == old(state).(table := ExpireFrom(old(state).table, 0))
    {
      hide TableOk, Sound, ExpireFrom;
      OtherTable(my, state, ExpireFrom(state.table, 0));
      table.ExpireBuckets();
      state := state.(table := table.buckets);
      forall j: nat | j < |searches|
        ensures Is(j)
      {
        assert old(Is(j));
      }
    }

    /** expire_searches */
    method ExpireSearches(now: int)
      requires Valid()
      modifies this`state, this`searches
      ensures Valid() && state == old(state).(searches := Unexpired(old(state).searches, now))
    {
      hide TableOk, Sound, Unexpired, Ok;
      ghost var start := state;
      var k := 0;
      while k < |searches|
        invariant k <= |searches| && Valid() && state.table == start.table
        invariant Unexpired(state.searches, now) == Unexpired(start.searches, now)
        invariant forall i :: 0 <= i < k ==> state.searches[i].s.stepTime >= now - SEARCH_EXPIRE
        decreases |searches| - k
      {
        assert Is(k);
        if searches[k].stepTime < now - SEARCH_EXPIRE {
          UnexpiredDrop(state.searches, k, now);
          DropSlotOk(my, state, k);
          Unlink(k);
        } else {
          k := k + 1;
        }
      }
      UnexpiredAll(state.searches, now);
    }

    method Unlink(k: nat)
      requires Valid() && k < |searches|
      requires Ok(my, state.(searches := state.searches[..k] + state.searches[k + 1..]))
      modifies this`state, this`searches
      ensures Valid() && state == old(state).(searches := old(state).searches[..k] + old(state).searches[k + 1..])
      ensures searches == old(searches)[..k] + old(searches)[k + 1..]
    {
      hide TableOk, Sound, Ok;
      ghost var was := searches;
      searches := searches[..k] + searches[k + 1..];
      state := state.(searches := state.searches[..k] + state.searches[k + 1..]);
      assert forall i :: 0 <= i < |searches| ==> searches[i] == was[if i < k then i else i + 1];
      forall j: nat | j < |searches|
        ensures Is(j)
      {
        assert old(Is(if j < k then j else j + 1));
      }
    }
  }
}
