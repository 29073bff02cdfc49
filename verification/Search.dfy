/** A search as dht.c keeps it: fourteen records in an array, the first numnodes
    in use, shifted in place by insertions and removals. */
module Search {
  import opened Numbers
  import opened Ids
  import opened SearchSteps
  import Table
  import opened Wrappers
  import Nearest

  function IdsOf(list: seq<SNode>): (ids: seq<Id>)
    ensures |ids| == |list|
  {
    seq(|list|, i requires 0 <= i < |list| => list[i].id)
  }

  /** What a search learns about a node: where it is, by an address of which family, and in
      case it answered, when and with which token. */
  datatype Report = Report(id: Id, addr: Table.Addr, v6: bool, replied: bool, token: Option<seq<bv8>>, now: int)

  /** Every search, whatever has happened to it: at most fourteen records, strictly sorted
      by distance, none asked more than three times in vain. */
  ghost predicate Sound(list: seq<SNode>, target: Id) {
    |list| <= SEARCH_NODES && Nearest.Sorted(IdsOf(list), target) && PingedOk(list)
  }

  function Blank(id: Id): SNode {
    SNode(id, Table.Addr([], 0), 0, 0, 0, [], false, false)
  }

  /** The label `found` of insert_search_node: update the record. */
  function Updated(n: SNode, w: Report): SNode {
    var a := n.(addr := w.addr);
    var b := if w.replied then a.(replied := true, replyTime := w.now, requestTime := 0, pinged := 0) else a;
    if w.token.Some? && |w.token.value| < 40 then b.(token := w.token.value) else b
  }

  /** insert_search_node on the list of records. */
  function InsertRecord(list: seq<SNode>, target: Id, w: Report): (r: seq<SNode>)
    requires |list| <= SEARCH_NODES
    ensures |r| <= SEARCH_NODES
  {
    var i := Nearest.Spot(IdsOf(list), w.id, target, 0);
    if i < |list| && list[i].id == w.id then list[i := Updated(list[i], w)]
    else (list[..i] + [Updated(Blank(w.id), w)] + list[i..])[..Min(|list| + 1, SEARCH_NODES)]
  }

  lemma InsertRecordIds(list: seq<SNode>, target: Id, w: Report)
    requires |list| <= SEARCH_NODES
    ensures IdsOf(InsertRecord(list, target, w)) == Nearest.Insert(IdsOf(list), w.id, target, SEARCH_NODES)
  {
    hide Nearest.Spot, Updated, Closer;
    UpdatedId(w);
    var ids := IdsOf(list);
    var i := Nearest.Spot(ids, w.id, target, 0);
    var n := Updated(Blank(w.id), w);
    assert n.id == w.id;
    assert IdsOf(list[..i] + [n] + list[i..]) == ids[..i] + [w.id] + ids[i..];
  }

  function InsertAll(list: seq<SNode>, target: Id, ws: seq<Report>): (r: seq<SNode>)
    requires |list| <= SEARCH_NODES
    ensures |r| <= SEARCH_NODES
    decreases |ws|
  {
    if ws == [] then list else InsertAll(InsertRecord(list, target, ws[0]), target, ws[1..])
  }

  /** A search that starts empty and is only inserted into holds the fourteen
      nearest of all the ids it was ever offered, nearest first, none twice. */
  lemma {:induction false} SearchHoldsNearest(list: seq<SNode>, seen: set<Id>, target: Id, ws: seq<Report>)
    requires |list| <= SEARCH_NODES && Nearest.IsNearest(IdsOf(list), seen, target, SEARCH_NODES)
    ensures Nearest.IsNearest(IdsOf(InsertAll(list, target, ws)), seen + (set w | w in ws :: w.id), target,
      SEARCH_NODES)
    decreases |ws|
  {
    hide Nearest.IsNearest, InsertRecord;
    if ws == [] {
      assert seen + (set w | w in ws :: w.id) == seen;
    } else {
      InsertRecordIds(list, target, ws[0]);
      Nearest.InsertNearest(IdsOf(list), seen, ws[0].id, target, SEARCH_NODES);
      SearchHoldsNearest(InsertRecord(list, target, ws[0]), seen + {ws[0].id}, target, ws[1..]);
      OfferedIds(seen, ws);
    }
  }

  lemma OfferedIds(seen: set<Id>, ws: seq<Report>)
    requires ws != []
    ensures seen + {ws[0].id} + (set w | w in ws[1..] :: w.id) == seen + (set w | w in ws :: w.id)
  {
    assert forall w :: w in ws <==> w == ws[0] || w in ws[1..];
  }

  /** The list without its entries of one id. */
  function Without(list: seq<SNode>, id: Id): (r: seq<SNode>)
    ensures |r| <= |list|
  {
    if list == [] then [] else if list[0].id == id then Without(list[1..], id) else [list[0]] + Without(list[1..], id)
  }

  lemma {:induction false} WithoutIs(list: seq<SNode>, id: Id)
    ensures forall n :: n in Without(list, id) <==> n in list && n.id != id
  {
    if list != [] {
      WithoutIs(list[1..], id);
      assert forall n :: n in list <==> n == list[0] || n in list[1..];
    }
  }

  lemma {:induction false} WithoutAbsent(list: seq<SNode>, id: Id)
    requires forall k :: 0 <= k < |list| ==> list[k].id != id
    ensures Without(list, id) == list
  {
    if list != [] { WithoutAbsent(list[1..], id); }
  }

  lemma WithoutCons(n: SNode, list: seq<SNode>, id: Id)
    ensures Without([n] + list, id) == if n.id == id then Without(list, id) else [n] + Without(list, id)
  {
    assert ([n] + list)[1..] == list;
  }

  lemma {:induction false} WithoutConcat(a: seq<SNode>, b: seq<SNode>, id: Id)
    ensures Without(a + b, id) == Without(a, id) + Without(b, id)
  {
    hide Without;
    WithoutAbsent([], id);
    if a == [] {
      assert a + b == b;
    } else {
      var n, rest := a[0], a[1..];
      WithoutConcat(rest, b, id);
      WithoutCons(n, rest, id);
      WithoutCons(n, rest + b, id);
      assert a == [n] + rest && a + b == [n] + (rest + b);
    }
  }

  /** Nodes dht_search does not want to reuse. */
  predicate Doubtful(n: SNode, now: int) {
    n.pinged >= 3 || n.replyTime < now - 7200
  }

  function Reset(n: SNode): SNode {
    n.(pinged := 0, token := [], replied := false, acked := false)
  }

  /** The restart loop of dht_search, said at once: keep the sound nodes in order
      and forget what they answered. */
  function Reused(list: seq<SNode>, now: int): (r: seq<SNode>)
    ensures |r| <= |list|
  {
    if list == [] then []
    else if Doubtful(list[0], now) then Reused(list[1..], now)
    else [Reset(list[0])] + Reused(list[1..], now)
  }

  lemma ReusedCons(n: SNode, list: seq<SNode>, now: int)
    ensures Reused([n] + list, now) == if Doubtful(n, now) then Reused(list, now) else [Reset(n)] + Reused(list, now)
  {
    assert ([n] + list)[1..] == list;
  }

  lemma {:induction false} ReusedConcat(a: seq<SNode>, b: seq<SNode>, now: int)
    ensures Reused(a + b, now) == Reused(a, now) + Reused(b, now)
  {
    hide Reused;
    AllReset([], now);
    if a == [] {
      assert a + b == b;
    } else {
      var n, rest := a[0], a[1..];
      ReusedConcat(rest, b, now);
      ReusedCons(n, rest, now);
      ReusedCons(n, rest + b, now);
      assert a == [n] + rest && a + b == [n] + (rest + b);
    }
  }

  lemma ReusedOne(n: SNode, now: int)
    ensures Reused([n], now) == if Doubtful(n, now) then [] else [Reset(n)]
  {
    assert [n][1..] == [];
  }

  /** Resetting a sound node early changes nothing in the outcome. */
  lemma ReusedReset(list: seq<SNode>, i: nat, now: int)
    requires i < |list| && !Doubtful(list[i], now)
    ensures Reused(list[i := Reset(list[i])], now) == Reused(list, now)
  {
    var n := list[i];
    assert list == list[..i] + ([n] + list[i + 1..]);
    assert list[i := Reset(n)] == list[..i] + ([Reset(n)] + list[i + 1..]);
    ReusedConcat(list[..i], [n] + list[i + 1..], now);
    ReusedConcat(list[..i], [Reset(n)] + list[i + 1..], now);
    ReusedConcat([n], list[i + 1..], now);
    ReusedConcat([Reset(n)], list[i + 1..], now);
    ReusedOne(n, now);
    ReusedOne(Reset(n), now);
  }

  lemma ReusedDrop(list: seq<SNode>, i: nat, now: int)
    requires i < |list| && Doubtful(list[i], now)
    ensures Reused(list[..i] + list[i + 1..], now) == Reused(list, now)
  {
    var n := list[i];
    assert list == list[..i] + ([n] + list[i + 1..]);
    ReusedConcat(list[..i], list[i + 1..], now);
    ReusedConcat(list[..i], [n] + list[i + 1..], now);
    ReusedConcat([n], list[i + 1..], now);
    ReusedOne(n, now);
    assert [] + Reused(list[i + 1..], now) == Reused(list[i + 1..], now);
  }

  lemma {:induction false} AllReset(list: seq<SNode>, now: int)
    requires forall k :: 0 <= k < |list| ==> !Doubtful(list[k], now) && list[k] == Reset(list[k])
    ensures Reused(list, now) == list
  {
    if list != [] { AllReset(list[1..], now); }
  }

  /** search_send_get_peers without a node given asks the last eligible one. */
  function LastEligible(list: seq<SNode>, now: int): (k: int)
    ensures -1 <= k < |list|
    ensures k >= 0 ==> Eligible(list[k], now)
    ensures forall i :: k < i < |list| ==> !Eligible(list[i], now)
  {
    if list == [] then -1
    else if Eligible(list[|list| - 1], now) then |list| - 1
    else LastEligible(list[..|list| - 1], now)
  }

  /** A node named in a message, add_search_node: it is inserted and asked at once, unless
      the search is full. */
  function Met(list: seq<SNode>, target: Id, w: Report, now: int): (r: seq<SNode>)
    requires |list| <= SEARCH_NODES
    ensures |r| <= SEARCH_NODES
  {
    if |list| == SEARCH_NODES then list
    else
      var l, i := InsertRecord(list, target, w), Nearest.Spot(IdsOf(list), w.id, target, 0);
      if Eligible(l[i], now) then l[i := Asked(l[i], now)] else l
  }

  /** search_send_get_peers without a node. */
  function Pushed(list: seq<SNode>, now: int): (r: seq<SNode>)
    ensures |r| == |list|
  {
    var k := LastEligible(list, now);
    if k < 0 then list else list[k := Asked(list[k], now)]
  }

  // The requests of these two, as search_step has them in Requests.

  function MetRequests(list: seq<SNode>, target: Id, w: Report, now: int): seq<SNode>
    requires |list| <= SEARCH_NODES
  {
    if |list| == SEARCH_NODES then []
    else
      var l, i := InsertRecord(list, target, w), Nearest.Spot(IdsOf(list), w.id, target, 0);
      if Eligible(l[i], now) then [l[i]] else []
  }

  function PushRequests(list: seq<SNode>, now: int): seq<SNode> {
    var k := LastEligible(list, now);
    if k < 0 then [] else [list[k]]
  }

  /** A node has taken the announcement. */
  function Confirmed(n: SNode, now: int): SNode {
    n.(requestTime := 0, replyTime := now, acked := true, pinged := 0)
  }

  /** The loop over a search when a reply to announce_peer comes in. */
  function Acknowledge(list: seq<SNode>, node: Id, i: nat, now: int): (r: seq<SNode>)
    requires i <= |list|
    ensures |r| == |list|
    decreases |list| - i
  {
    if i == |list| then list
    else if list[i].id == node then list[i := Confirmed(list[i], now)]
    else Acknowledge(list, node, i + 1, now)
  }

  // What every operation keeps.

  lemma UpdateSound(list: seq<SNode>, target: Id, i: nat, n: SNode)
    requires Sound(list, target) && i < |list| && n.id == list[i].id && 0 <= n.pinged <= 3
    ensures Sound(list[i := n], target) && IdsOf(list[i := n]) == IdsOf(list)
  {
    hide Closer;
    assert IdsOf(list[i := n]) == IdsOf(list);
  }

  lemma RemoveSound(list: seq<SNode>, target: Id, i: nat)
    requires Sound(list, target) && i < |list|
    ensures Sound(list[..i] + list[i + 1..], target)
  {
    hide Closer;
    var ids, r := IdsOf(list), list[..i] + list[i + 1..];
    assert IdsOf(r) == ids[..i] + ids[i + 1..];
    assert forall k :: 0 <= k < |r| ==> r[k] == if k < i then list[k] else list[k + 1];
  }

  lemma InsertSound(list: seq<SNode>, target: Id, w: Report)
    requires Sound(list, target)
    ensures Sound(InsertRecord(list, target, w), target)
  {
    hide Closer, Nearest.Spot;
    InsertRecordIds(list, target, w);
    Nearest.InsertSorted(IdsOf(list), w.id, target, SEARCH_NODES);
  }

  lemma MetAt(list: seq<SNode>, target: Id, w: Report)
    requires |list| < SEARCH_NODES
    ensures var i := Nearest.Spot(IdsOf(list), w.id, target, 0);
      i < |InsertRecord(list, target, w)| && InsertRecord(list, target, w)[i].id == w.id
  {}

  lemma MetSound(list: seq<SNode>, target: Id, w: Report, now: int)
    requires Sound(list, target)
    ensures Sound(Met(list, target, w, now), target)
    ensures |list| < SEARCH_NODES ==> IdsOf(Met(list, target, w, now)) == IdsOf(InsertRecord(list, target, w))
  {
    hide Sound, InsertRecord, Nearest.Spot;
    InsertSound(list, target, w);
    SoundSize(list, target);
    if |list| < SEARCH_NODES {
      MetAt(list, target, w);
      var l, i := InsertRecord(list, target, w), Nearest.Spot(IdsOf(list), w.id, target, 0);
      SoundAt(l, target, i);
      if Eligible(l[i], now) { UpdateSound(l, target, i, Asked(l[i], now)); }
    }
  }

  lemma SoundAt(list: seq<SNode>, target: Id, i: nat)
    requires Sound(list, target) && i < |list|
    ensures 0 <= list[i].pinged <= 3
  {}

  lemma PushedSound(list: seq<SNode>, target: Id, now: int)
    requires Sound(list, target)
    ensures Sound(Pushed(list, now), target) && IdsOf(Pushed(list, now)) == IdsOf(list)
  {
    hide Sound;
    var k := LastEligible(list, now);
    if k >= 0 {
      SoundAt(list, target, k);
      UpdateSound(list, target, k, Asked(list[k], now));
    }
  }

  lemma {:induction false} AcknowledgeSound(list: seq<SNode>, target: Id, node: Id, i: nat, now: int)
    requires Sound(list, target) && i <= |list|
    ensures Sound(Acknowledge(list, node, i, now), target) && IdsOf(Acknowledge(list, node, i, now)) == IdsOf(list)
    decreases |list| - i
  {
    hide Sound;
    if i < |list| {
      if list[i].id == node {
        UpdateSound(list, target, i, Confirmed(list[i], now));
      } else {
        AcknowledgeSound(list, target, node, i + 1, now);
      }
    }
  }

  lemma {:induction false} AnnounceSound(list: seq<SNode>, target: Id, i: nat, j: nat, now: int)
    requires Sound(list, target) && i <= |list|
    ensures Sound(Announce(list, i, j, now).0, target) && IdsOf(Announce(list, i, j, now).0) == IdsOf(list)
    decreases |list| - i
  {
    hide Sound;
    if i < |list| && j < 8 {
      SoundAt(list, target, i);
      if list[i].pinged >= 3 {
        AnnounceSound(list, target, i + 1, j, now);
      } else {
        var n := Excused(list[i]);
        var m := if n.acked then n else Asked(n, now);
        UpdateSound(list, target, i, m);
        AnnounceSound(list[i := m], target, i + 1, j + 1, now);
      }
    }
  }

  lemma {:induction false} AskSound(list: seq<SNode>, target: Id, i: nat, j: nat, now: int)
    requires Sound(list, target) && i <= |list|
    ensures Sound(AskFrom(list, i, j, now), target) && IdsOf(AskFrom(list, i, j, now)) == IdsOf(list)
    decreases |list| - i
  {
    hide Sound;
    if i < |list| {
      SoundAt(list, target, i);
      var sent := Eligible(list[i], now);
      var next := if sent then list[i := Asked(list[i], now)] else list;
      if sent { UpdateSound(list, target, i, Asked(list[i], now)); }
      if (if sent then j + 1 else j) < INFLIGHT { AskSound(next, target, i + 1, if sent then j + 1 else j, now); }
    }
  }

  /** A step changes no id and keeps the search sound. */
  lemma StepSound(s: State, target: Id, now: int)
    requires Sound(s.list, target)
    ensures Sound(Step(s, now).list, target) && IdsOf(Step(s, now).list) == IdsOf(s.list)
  {
    hide Sound;
    AnnounceSound(s.list, target, 0, 0, now);
    AskSound(s.list, target, 0, 0, now);
  }

  lemma FirstOff(list: seq<SNode>, target: Id)
    requires Sound(list, target) && list != []
    ensures Sound(list[1..], target) && forall n :: n in list[1..] ==> Closer(list[0].id, n.id, target)
  {
    hide Closer;
    RemoveSound(list, target, 0);
    assert list[..0] + list[1..] == list[1..];
    var ids := IdsOf(list);
    forall n | n in list[1..]
      ensures Closer(list[0].id, n.id, target)
    {
      var k :| 0 <= k < |list[1..]| && list[1..][k] == n;
      assert ids[k + 1] == n.id && ids[0] == list[0].id;
    }
  }

  lemma FirstOn(n: SNode, list: seq<SNode>, target: Id)
    requires Sound(list, target) && |list| < SEARCH_NODES && 0 <= n.pinged <= 3
    requires forall m :: m in list ==> Closer(n.id, m.id, target)
    ensures Sound([n] + list, target)
  {
    hide Closer;
    var r := [n] + list;
    assert forall k :: 0 < k < |r| ==> r[k] == list[k - 1] && r[k] in list && IdsOf(r)[k] == IdsOf(list)[k - 1];
    assert IdsOf(r)[0] == n.id;
  }

  lemma {:induction false} WithoutSound(list: seq<SNode>, target: Id, id: Id)
    requires Sound(list, target)
    ensures Sound(Without(list, id), target)
  {
    hide Closer, Sound;
    if list != [] {
      FirstOff(list, target);
      SoundAt(list, target, 0);
      WithoutSound(list[1..], target, id);
      WithoutIs(list[1..], id);
      SoundSize(list, target);
      if list[0].id != id { FirstOn(list[0], Without(list[1..], id), target); }
    }
  }

  lemma SoundSize(list: seq<SNode>, target: Id)
    requires Sound(list, target)
    ensures |list| <= SEARCH_NODES
  {}

  /** A reused record is a sound record of the list, reset. */
  lemma {:induction false} ReusedIs(list: seq<SNode>, now: int)
    ensures forall n :: n in Reused(list, now) <==> exists m :: m in list && !Doubtful(m, now) && n == Reset(m)
  {
    if list != [] {
      ReusedIs(list[1..], now);
      assert forall n :: n in list <==> n == list[0] || n in list[1..];
      var rest := Reused(list[1..], now);
      if Doubtful(list[0], now) {
        assert Reused(list, now) == rest;
      } else {
        assert forall n :: n in Reused(list, now) <==> n == Reset(list[0]) || n in rest;
      }
    }
  }

  lemma {:induction false} ReusedSound(list: seq<SNode>, target: Id, now: int)
    requires Sound(list, target)
    ensures Sound(Reused(list, now), target)
  {
    hide Closer, Sound;
    if list != [] {
      FirstOff(list, target);
      ReusedSound(list[1..], target, now);
      ReusedIs(list[1..], now);
      SoundSize(list, target);
      if !Doubtful(list[0], now) { FirstOn(Reset(list[0]), Reused(list[1..], now), target); }
    }
  }

  class SearchSlot {
    const id: Id
    const v6: bool
    var port: nat
    var stepTime: int
    var done: bool
    const nodes: array<SNode>
    var numnodes: nat

    ghost predicate Shape()
      reads this
    {
      nodes.Length == SEARCH_NODES && numnodes <= SEARCH_NODES
    }

    ghost predicate Valid()
      reads this, nodes
    {
      Shape() && Sound(List(), id)
    }

    ghost function List(): (l: seq<SNode>)
      requires Shape()
      reads this, nodes
      ensures |l| == numnodes
    {
      nodes[..numnodes]
    }

    ghost function Abs(): State
      requires Shape()
      reads this, nodes
    {
      State(List(), port, stepTime, done)
    }

    /** The part of dht_search that sets up a new slot. */
    constructor (id: Id, v6: bool, port: nat)
      ensures Valid() && this.id == id && this.v6 == v6 && Abs() == State([], port, 0, false) && fresh(nodes)
    {
      this.id, this.v6, this.port, stepTime, done, numnodes := id, v6, port, 0, false, 0;
      nodes := new SNode[SEARCH_NODES](_ => Blank(id));
    }

    /** The scan of insert_search_node. */
    method Scan(node: Id) returns (i: nat)
      requires Shape()
      ensures i == Nearest.Spot(IdsOf(List()), node, id, 0)
    {
      ghost var ids := IdsOf(List());
      i := 0;
      while i < numnodes && nodes[i].id != node && !Closer(node, nodes[i].id, id)
        invariant i <= numnodes && Nearest.Spot(ids, node, id, i) == Nearest.Spot(ids, node, id, 0)
      {
        i := i + 1;
      }
    }

    /** insert_search_node: where the record is, or -1 where the code returns NULL. */
    method Insert(w: Report) returns (at: int)
      requires Valid()
      modifies this`numnodes, nodes
      ensures Valid() && List() == if w.v6 == v6 then InsertRecord(old(List()), id, w) else old(List())
      ensures -1 <= at < numnodes
      ensures at >= 0 ==> at == Nearest.Spot(IdsOf(old(List())), w.id, id, 0) && List()[at].id == w.id
      ensures at >= 0 <==> w.v6 == v6 && w.id in IdsOf(List())
    {
      hide Nearest.Spot, Closer, Updated, Sound;
      if w.v6 != v6 {
        return -1;
      }
      ghost var list := List();
      InsertRecordHas(list, id, w);
      InsertSound(list, id, w);
      var i := Scan(w.id);
      UpdatedId(w);
      if i < numnodes && nodes[i].id == w.id {
        nodes[i] := Updated(nodes[i], w);
        assert List() == InsertRecord(list, id, w);
        return i;
      }
      if i == SEARCH_NODES {
        assert (list[..i] + [Updated(Blank(w.id), w)] + list[i..])[..SEARCH_NODES] == list;
        return -1;
      }
      Place(i, Updated(Blank(w.id), w));
      return i;
    }

    /** add_search_node, for this search. */
    method AddNode(w: Report, now: int) returns (sent: seq<SNode>)
      requires Valid() && !w.replied && w.token.None?
      modifies this`numnodes, nodes
      ensures Valid() && List() == if w.v6 == v6 then Met(old(List()), id, w, now) else old(List())
      ensures sent == if w.v6 == v6 then MetRequests(old(List()), id, w, now) else []
    {
      hide Nearest.Spot, Sound, InsertRecord;
      sent := [];
      if w.v6 != v6 || numnodes == SEARCH_NODES {
        return;
      }
      ghost var i := Nearest.Spot(IdsOf(List()), w.id, id, 0);
      MetAt(List(), id, w);
      var n := Insert(w);
      assert IdsOf(List())[i] == w.id;
      var record := nodes[n];
      var count := Ask(n, now);
      if count == 1 {
        sent := [record];
      }
    }

    /** Making room at entry i for a new record; the last one may fall off. */
    method Place(i: nat, n: SNode)
      requires Shape() && i <= numnodes && i < SEARCH_NODES
      modifies this`numnodes, nodes
      ensures Shape()
      ensures List() == (old(List())[..i] + [n] + old(List())[i..])[..Min(|old(List())| + 1, SEARCH_NODES)]
    {
      ghost var list, wide := List(), List()[..i] + [n] + List()[i..];
      if numnodes < SEARCH_NODES {
        numnodes := numnodes + 1;
      }
      ghost var before := nodes[..];
      ShiftUp(i);
      nodes[i] := n;
      forall k | 0 <= k < numnodes
        ensures nodes[k] == wide[k]
      {
        if k > i { assert nodes[k] == before[k - 1] == list[k - 1]; }
      }
      assert List() == wide[..numnodes];
    }

    /** The shifting loop of insert_search_node. */
    method ShiftUp(i: nat)
      requires Shape() && i < numnodes
      modifies nodes
      ensures forall k :: 0 <= k <= i ==> nodes[k] == old(nodes[k])
      ensures forall k :: i < k < numnodes ==> nodes[k] == old(nodes[k - 1])
      ensures forall k :: numnodes <= k < nodes.Length ==> nodes[k] == old(nodes[k])
    {
      var j := numnodes - 1;
      while j > i
        invariant i <= j < numnodes
        invariant forall k :: 0 <= k <= j ==> nodes[k] == old(nodes[k])
        invariant forall k :: j < k < numnodes ==> nodes[k] == old(nodes[k - 1])
        invariant forall k :: numnodes <= k < nodes.Length ==> nodes[k] == old(nodes[k])
      {
        nodes[j] := nodes[j - 1];
        j := j - 1;
      }
    }

    /** flush_search_node */
    method Flush(i: nat)
      requires Valid() && i < numnodes
      modifies this`numnodes, nodes
      ensures Valid() && List() == old(List())[..i] + old(List())[i + 1..]
    {
      hide Sound;
      ghost var list := List();
      RemoveSound(list, id, i);
      var j := i;
      while j < numnodes - 1
        invariant i <= j < numnodes && numnodes == old(numnodes)
        invariant forall k :: 0 <= k < i ==> nodes[k] == old(nodes[k])
        invariant forall k :: i <= k < j ==> nodes[k] == old(nodes[k + 1])
        invariant forall k :: j < k < numnodes ==> nodes[k] == old(nodes[k])
      {
        nodes[j] := nodes[j + 1];
        j := j + 1;
      }
      numnodes := numnodes - 1;
      assert List() == list[..i] + list[i + 1..];
    }

    /** blacklist_node's loop over a search. After a removal it looks at the entry
        after the next one, which is safe because no id is in the list twice. */
    method Drop(bad: Id)
      requires Valid()
      modifies this`numnodes, nodes
      ensures Valid() && List() == Without(old(List()), bad)
    {
      hide Sound;
      ghost var list := List();
      OnceOnly(list, id);
      var i := 0;
      while i < numnodes
        invariant Valid() && i <= numnodes + 1
        invariant if numnodes == |list| then List() == list && forall k :: 0 <= k < i && k < numnodes ==>
          list[k].id != bad
                  else List() == Without(list, bad)
        decreases numnodes - i
      {
        assert nodes[i] == List()[i];
        WithoutIs(list, bad);
        if nodes[i].id == bad {
          DropOne(list, i, bad);
          Flush(i);
        }
        i := i + 1;
      }
      if numnodes == |list| { WithoutAbsent(list, bad); }
    }

    /** The restart loop of dht_search over an old search. */
    method Reuse(now: int)
      requires Valid()
      modifies this`numnodes, nodes, this`done
      ensures Valid() && !done && List() == Reused(old(List()), now)
    {
      hide Sound;
      done := false;
      ghost var goal := Reused(List(), now);
      var i := 0;
      while i < numnodes
        invariant Valid() && i <= numnodes && !done
        invariant Reused(List(), now) == goal
        invariant forall k :: 0 <= k < i ==> !Doubtful(nodes[k], now) && nodes[k] == Reset(nodes[k])
        decreases numnodes, numnodes - i
      {
        if Doubtful(nodes[i], now) {
          ReusedDrop(List(), i, now);
          Flush(i);
          i := 0;
        } else {
          ReusedReset(List(), i, now);
          ghost var list := List();
          UpdateSound(list, id, i, Reset(list[i]));
          nodes[i] := Reset(nodes[i]);
          assert List() == list[i := Reset(list[i])];
          i := i + 1;
        }
      }
      assert forall k :: 0 <= k < numnodes ==> List()[k] == nodes[k];
      AllReset(List(), now);
    }

    /** dht_search for a hash that is searched for already. */
    method Restart(newPort: nat, now: int)
      requires Valid()
      modifies this`numnodes, nodes, this`done, this`port
      ensures Valid() && Abs() == State(Reused(old(List()), now), newPort, old(stepTime), false)
    {
      Reuse(now);
      port := newPort;
    }

    /** A reply to announce_peer: its sender's record is confirmed. */
    method Confirm(node: Id, now: int)
      requires Valid()
      modifies nodes
      ensures Valid() && List() == Acknowledge(old(List()), node, 0, now)
    {
      hide Sound;
      ghost var list := List();
      AcknowledgeSound(list, id, node, 0, now);
      var i := 0;
      while i < numnodes
        invariant i <= numnodes && List() == list && Acknowledge(list, node, i, now) == Acknowledge(list, node, 0, now)
      {
        if nodes[i].id == node {
          nodes[i] := Confirmed(nodes[i], now);
          assert List() == list[i := Confirmed(list[i], now)];
          return;
        }
        i := i + 1;
      }
    }

    /** search_send_get_peers on entry i: 1 if a request was sent. */
    method Ask(i: nat, now: int) returns (sent: nat)
      requires Valid() && i < numnodes
      modifies nodes
      ensures Valid()
      ensures sent == if Eligible(old(nodes[i]), now) then 1 else 0
      ensures List() == if sent == 1 then old(List())[i := Asked(old(nodes[i]), now)] else old(List())
    {
      hide Sound;
      var n := nodes[i];
      SoundAt(List(), id, i);
      if n.pinged >= 3 || n.replied || n.requestTime >= now - RETRANSMIT {
        return 0;
      }
      UpdateSound(List(), id, i, Asked(n, now));
      nodes[i] := n.(pinged := n.pinged + 1, requestTime := now);
      assert List() == old(List())[i := Asked(old(nodes[i]), now)];
      return 1;
    }

    /** search_send_get_peers without a node. */
    method AskAny(now: int) returns (sent: seq<SNode>)
      requires Valid()
      modifies nodes
      ensures Valid() && List() == Pushed(old(List()), now)
      ensures sent == PushRequests(old(List()), now)
    {
      hide Sound;
      var n, i := -1, 0;
      while i < numnodes
        invariant i <= numnodes && n == LastEligible(nodes[..i], now)
      {
        assert nodes[..i + 1][..i] == nodes[..i];
        if nodes[i].pinged < 3 && !nodes[i].replied && nodes[i].requestTime < now - RETRANSMIT {
          n := i;
        }
        i := i + 1;
      }
      if n < 0 {
        return [];
      }
      sent := [nodes[n]];
      var count := Ask(n, now);
    }

    /** The check at the head of search_step. */
    method CheckReplies() returns (allDone: bool)
      requires Shape()
      ensures allDone == AllReplied(List(), 0, 0)
    {
      var i, j := 0, 0;
      while i < numnodes && j < 8
        invariant i <= numnodes && AllReplied(List(), i, j) == AllReplied(List(), 0, 0)
      {
        if nodes[i].pinged < 3 {
          if !nodes[i].replied {
            return false;
          }
          j := j + 1;
        }
        i := i + 1;
      }
      return true;
    }

    /** A live record in the announcing loop: whether a request is sent. */
    method AnnounceTurn(i: nat, now: int) returns (asked: bool)
      requires Shape() && i < numnodes
      modifies nodes
      ensures asked <==> !Excused(old(nodes[i])).acked
      ensures List() ==
        old(List())[i := if asked then Asked(Excused(old(nodes[i])), now) else Excused(old(nodes[i]))]
    {
      ghost var list := List();
      if nodes[i].token == [] {
        nodes[i] := nodes[i].(acked := true);
      }
      assert List() == list[i := Excused(list[i])];
      if nodes[i].acked {
        return false;
      }
      nodes[i] := nodes[i].(pinged := nodes[i].pinged + 1, requestTime := now);
      assert List() == list[i := Asked(Excused(list[i]), now)];
      return true;
    }

    /** The announcing loop of search_step. */
    method AnnounceLoop(now: int) returns (allAcked: bool, sent: seq<SNode>)
      requires Valid()
      modifies nodes
      ensures Valid() && (List(), allAcked) == Announce(old(List()), 0, 0, now) && sent == AnnounceTo(old(List()), 0)
    {
      hide Sound, Announce, AnnounceTo;
      AnnounceSound(List(), id, 0, 0, now);
      var i, j := 0, 0;
      allAcked, sent := true, [];
      ghost var sends := AnnounceTo(List(), 0);
      AnnounceEnd(List(), 0, now);
      ghost var goal := Announce(List(), 0, 0, now);
      while i < numnodes && j < 8
        invariant Shape() && i <= numnodes
        invariant goal == (Announce(List(), i, j, now).0, allAcked && Announce(List(), i, j, now).1)
        invariant sends == sent + AnnounceTo(List()[i..], j)
        decreases numnodes - i
      {
        AnnounceAt(List(), i, j, now);
        ghost var rest := List()[i + 1..];
        if nodes[i].pinged < 3 {
          var n := nodes[i];
          var asked := AnnounceTurn(i, now);
          if asked {
            allAcked, sent := false, sent + [n];
          }
          assert List()[i + 1..] == rest;
          j := j + 1;
        }
        i := i + 1;
      }
      AnnounceEnd(List(), j, now);
    }

    /** The asking loop of search_step. */
    method AskLoop(now: int) returns (sent: seq<SNode>)
      requires Valid()
      modifies nodes
      ensures Valid() && List() == AskFrom(old(List()), 0, 0, now) && sent == AskTo(old(List()), 0, now)
    {
      hide Sound, AskTo;
      var i, j := 0, 0;
      sent := [];
      ghost var sends := AskTo(List(), 0, now);
      AskToEnd(List(), 0, now);
      while i < numnodes
        invariant Valid() && i <= numnodes && j < INFLIGHT
        invariant AskFrom(List(), i, j, now) == AskFrom(old(List()), 0, 0, now)
        invariant sends == sent + AskTo(List()[i..], j, now)
        decreases numnodes - i
      {
        AskToAt(List(), i, j, now);
        ghost var rest := List()[i + 1..];
        var n := nodes[i];
        var count := Ask(i, now);
        assert List()[i + 1..] == rest;
        if count == 1 {
          sent := sent + [n];
        }
        j := j + count;
        if j >= INFLIGHT {
          return;
        }
        i := i + 1;
      }
      AskToEnd(List(), j, now);
    }

    /** search_step */
    method TakeStep(now: int) returns (sent: seq<SNode>)
      requires Valid()
      modifies this`stepTime, this`done, nodes
      ensures Valid() && Abs() == Step(old(Abs()), now) && sent == Requests(old(Abs()), now)
    {
      hide Sound;
      sent := [];
      var allDone := CheckReplies();
      if allDone {
        var allAcked := true;
        if port != 0 {
          allAcked, sent := AnnounceLoop(now);
        }
        if allAcked {
          done := true;
        }
        stepTime := now;
        return;
      }
      if stepTime + RETRANSMIT >= now {
        return;
      }
      sent := AskLoop(now);
      stepTime := now;
    }
  }

  lemma AnnounceAt(list: seq<SNode>, i: nat, j: nat, now: int)
    requires i < |list| && j < 8
    ensures var n := Excused(list[i]);
      AnnounceTo(list[i..], j) ==
        if list[i].pinged >= 3 then AnnounceTo(list[i + 1..], j)
        else (if n.acked then [] else [list[i]]) + AnnounceTo(list[i + 1..], j + 1)
    ensures var n := Excused(list[i]);
      Announce(list, i, j, now) ==
        if list[i].pinged >= 3 then Announce(list, i + 1, j, now)
        else if n.acked then Announce(list[i := n], i + 1, j + 1, now)
        else (Announce(list[i := Asked(n, now)], i + 1, j + 1, now).0, false)
  {
    assert list[i..][1..] == list[i + 1..];
  }

  lemma AnnounceEnd(list: seq<SNode>, j: nat, now: int)
    ensures list[0..] == list && AnnounceTo(list[|list|..], j) == [] && Announce(list, |list|, j, now) == (list, true)
    ensures j >= 8 ==>
      forall i: nat | i <= |list| :: AnnounceTo(list[i..], j) == [] && Announce(list, i, j, now) == (list, true)
  {}

  lemma AskToAt(list: seq<SNode>, i: nat, j: nat, now: int)
    requires i < |list|
    ensures AskTo(list[i..], j, now) ==
      if !Eligible(list[i], now) then AskTo(list[i + 1..], j, now)
      else if j + 1 >= INFLIGHT then [list[i]]
      else [list[i]] + AskTo(list[i + 1..], j + 1, now)
  {
    assert list[i..][1..] == list[i + 1..];
  }

  lemma AskToEnd(list: seq<SNode>, j: nat, now: int)
    ensures list[0..] == list && AskTo(list[|list|..], j, now) == []
  {}

  lemma UpdatedId(w: Report)
    ensures forall n :: Updated(n, w).id == n.id
  {}

  lemma InsertRecordHas(list: seq<SNode>, target: Id, w: Report)
    requires |list| <= SEARCH_NODES
    ensures w.id in IdsOf(InsertRecord(list, target, w)) <==> Nearest.Spot(IdsOf(list), w.id, target, 0) < SEARCH_NODES
  {
    var i := Nearest.Spot(IdsOf(list), w.id, target, 0);
    var r := InsertRecord(list, target, w);
    if i < SEARCH_NODES {
      assert Updated(Blank(w.id), w).id == w.id;
      assert IdsOf(r)[i] == w.id;
    } else {
      assert r == list;
    }
  }

  lemma OnceOnly(list: seq<SNode>, target: Id)
    requires Sound(list, target)
    ensures forall i, j :: 0 <= i < j < |list| ==> list[i].id != list[j].id
  {
    var ids := IdsOf(list);
    forall i, j | 0 <= i < j < |list|
      ensures list[i].id != list[j].id
    {
      CloserTotal(ids[i], ids[j], target);
    }
  }

  lemma DropOne(list: seq<SNode>, i: nat, bad: Id)
    requires i < |list| && list[i].id == bad && forall a, b :: 0 <= a < b < |list| ==> list[a].id != list[b].id
    ensures Without(list, bad) == list[..i] + list[i + 1..]
    ensures forall k :: 0 <= k < |list| && k != i ==> list[k].id != bad
  {
    var n := list[i];
    assert list == list[..i] + ([n] + list[i + 1..]);
    WithoutConcat(list[..i], [n] + list[i + 1..], bad);
    WithoutConcat([n], list[i + 1..], bad);
    assert [n][1..] == [];
    WithoutAbsent(list[..i], bad);
    WithoutAbsent(list[i + 1..], bad);
  }
}
