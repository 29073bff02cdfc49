/** What the routines of dht.c on searches write into each record, field by field, and which
    records they leave alone. */
module SearchRecords {
  import opened Ids
  import opened SearchSteps
  import opened Search
  import Table
  import Nearest

  // insert_search_node.

  /** What the search had on the id before: its record, or an empty one. */
  function Former(list: seq<SNode>, id: Id): SNode {
    if list == [] then SNode(id, Table.Addr([], 0), 0, 0, 0, [], false, false)
    else if list[0].id == id then list[0]
    else Former(list[1..], id)
  }

  lemma {:induction false} FormerIs(list: seq<SNode>, id: Id, k: nat)
    requires k < |list| && list[k].id == id && forall i :: 0 <= i < k ==> list[i].id != id
    ensures Former(list, id) == list[k]
  {
    if k > 0 { FormerIs(list[1..], id, k - 1); }
  }

  lemma {:induction false} FormerNone(list: seq<SNode>, id: Id)
    requires forall i :: 0 <= i < |list| ==> list[i].id != id
    ensures Former(list, id) == SNode(id, Table.Addr([], 0), 0, 0, 0, [], false, false)
  {
    if list != [] { FormerNone(list[1..], id); }
  }

  /** The place of the id, or the place where it would go, and whether it is there. */
  lemma SpotFinds(list: seq<SNode>, target: Id, id: Id) returns (i: nat)
    requires Sound(list, target)
    ensures i == Nearest.Spot(IdsOf(list), id, target, 0) <= |list|
    ensures forall k :: 0 <= k < |list| && k != i ==> list[k].id != id
    ensures if i < |list| && list[i].id == id then Former(list, id) == list[i]
      else Former(list, id) == SNode(id, Table.Addr([], 0), 0, 0, 0, [], false, false)
  {
    hide Closer, Nearest.Spot;
    i := Nearest.Spot(IdsOf(list), id, target, 0);
    Nearest.SpotSplits(IdsOf(list), id, target);
    OnceOnly(list, target);
    SpotApart(list, target, id, i);
    if i < |list| && list[i].id == id { FormerIs(list, id, i); } else { FormerNone(list, id); }
  }

  lemma SpotApart(list: seq<SNode>, target: Id, id: Id, i: nat)
    requires Sound(list, target) && i == Nearest.Spot(IdsOf(list), id, target, 0)
    ensures forall k :: 0 <= k < |list| && k != i ==> list[k].id != id
    ensures i < |list| && list[i].id != id ==> forall k :: 0 <= k < |list| ==> list[k].id != id
  {
    hide Closer, Nearest.Spot;
    var ids := IdsOf(list);
    Nearest.SpotSplits(ids, id, target);
    OnceOnly(list, target);
    forall k | 0 <= k < |list| && (k != i || list[i].id != id)
      ensures list[k].id != id
    {
      assert ids[k] == list[k].id;
      CloserTotal(ids[k], id, target);
      if i < |list| && list[i].id == id { assert list[k].id != list[i].id; }
    }
  }

  /** The record of the id afterwards: the new address; from a reply the time and a clean
      count; the token, unless it has forty bytes or more; and what was there before. */
  lemma InsertWrites(list: seq<SNode>, target: Id, w: Report, k: nat)
    requires Sound(list, target) && |list| <= SEARCH_NODES
    requires k < |InsertRecord(list, target, w)| && InsertRecord(list, target, w)[k].id == w.id
    ensures var n := Former(list, w.id);
      InsertRecord(list, target, w)[k] == SNode(w.id, w.addr,
        if w.replied then 0 else n.requestTime,
        if w.replied then w.now else n.replyTime,
        if w.replied then 0 else n.pinged,
        if w.token.Some? && |w.token.value| < 40 then w.token.value else n.token,
        w.replied || n.replied,
        n.acked)
  {
    hide Nearest.Spot, Sound, Former;
    var i := SpotFinds(list, target, w.id);
    var r := InsertRecord(list, target, w);
    if i < |list| && list[i].id == w.id {
      assert k == i;
    } else {
      assert forall q :: 0 <= q < |r| && q != i ==> r[q] == list[if q < i then q else q - 1];
      assert k == i;
    }
  }

  /** All other records stay as they are and in order; only the farthest one of a full search
      may go, for a new one. */
  lemma InsertOthers(list: seq<SNode>, target: Id, w: Report)
    requires Sound(list, target) && |list| <= SEARCH_NODES
    ensures var r := InsertRecord(list, target, w);
      |r| == if w.id !in IdsOf(list) && |list| < SEARCH_NODES then |list| + 1 else |list|
    ensures var r := InsertRecord(list, target, w);
      if w.id in IdsOf(list) then Without(r, w.id) == Without(list, w.id)
      else (Without(r, w.id) <= list && |Without(r, w.id)| == if w.id in IdsOf(r) then |r| - 1 else |r|)
  {
    hide Nearest.Spot, Sound, Former, Without, Updated;
    var i := SpotFinds(list, target, w.id);
    var r := InsertRecord(list, target, w);
    InsertRecordHas(list, target, w);
    UpdatedId(w);
    if i < |list| && list[i].id == w.id {
      assert IdsOf(list)[i] == w.id;
      DropAt(list, i, w.id);
      DropAt(r, i, w.id);
      assert r[..i] == list[..i] && r[i + 1..] == list[i + 1..];
    } else if i == SEARCH_NODES {
      assert r == list;
      WithoutAbsent(list, w.id);
    } else {
      assert r[i].id == w.id;
      forall k | 0 <= k < |r| && k != i
        ensures r[k] == list[if k < i then k else k - 1]
      {}
      DropAt(r, i, w.id);
      assert r[..i] + r[i + 1..] == list[..|r| - 1];
    }
  }

  lemma DropAt(list: seq<SNode>, i: nat, id: Id)
    requires i < |list| && list[i].id == id && forall k :: 0 <= k < |list| && k != i ==> list[k].id != id
    ensures Without(list, id) == list[..i] + list[i + 1..]
  {
    hide Without;
    assert list == list[..i] + ([list[i]] + list[i + 1..]);
    WithoutConcat(list[..i], [list[i]] + list[i + 1..], id);
    WithoutCons(list[i], list[i + 1..], id);
    WithoutAbsent(list[..i], id);
    WithoutAbsent(list[i + 1..], id);
  }

  // The restart of a search.

  predicate Kept(n: SNode, m: SNode, now: int) {
    n.pinged < 3 && n.replyTime >= now - 7200 &&
      m == SNode(n.id, n.addr, n.requestTime, n.replyTime, 0, [], false, false)
  }

  /** Every record that is kept is one that had not failed three requests and had replied
      within two hours. Its id, address and times stay; what it answered is forgotten. */
  lemma RestartForgets(list: seq<SNode>, now: int, m: SNode)
    ensures m in Reused(list, now) <==> exists n :: n in list && Kept(n, m, now)
  {
    ReusedIs(list, now);
    forall n
      ensures Kept(n, m, now) <==> !Doubtful(n, now) && m == Reset(n)
    {}
  }

  // The reply to an announcement.

  /** Only the sender's record changes: it is acked, with a clean count. */
  lemma {:induction false} ConfirmWrites(list: seq<SNode>, node: Id, i: nat, now: int, k: nat)
    requires i <= |list| && k < |list|
    requires forall a, b :: 0 <= a < b < |list| ==> list[a].id != list[b].id
    ensures Acknowledge(list, node, i, now)[k] ==
      if k >= i && list[k].id == node
      then SNode(node, list[k].addr, 0, now, 0, list[k].token, list[k].replied, true)
      else list[k]
    decreases |list| - i
  {
    if i < |list| && list[i].id != node { ConfirmWrites(list, node, i + 1, now, k); }
  }

  // Requests.

  /** A node may be asked if it has not failed three requests, has not answered yet, and was
      not asked in the last ten seconds. */
  predicate MayAsk(n: SNode, now: int) {
    n.pinged <= 2 && !n.replied && n.requestTime < now - 10
  }

  function OneMore(n: SNode, now: int): SNode {
    SNode(n.id, n.addr, now, n.replyTime, n.pinged + 1, n.token, n.replied, n.acked)
  }

  /** add_search_node: the record is that of insert_search_node, asked at once if it may be. */
  lemma MetWrites(list: seq<SNode>, target: Id, w: Report, now: int) returns (k: nat)
    requires Sound(list, target) && |list| < SEARCH_NODES
    ensures var l := InsertRecord(list, target, w);
      && k < |l| && l[k].id == w.id
      && Met(list, target, w, now) == (if MayAsk(l[k], now) then l[k := OneMore(l[k], now)] else l)
      && MetRequests(list, target, w, now) == if MayAsk(l[k], now) then [l[k]] else []
  {
    hide InsertRecord, Nearest.Spot;
    MetAt(list, target, w);
    k := Nearest.Spot(IdsOf(list), w.id, target, 0);
  }

  /** search_send_get_peers without a node asks the farthest one that may be asked. */
  lemma PushWrites(list: seq<SNode>, now: int)
    ensures if exists k :: 0 <= k < |list| && MayAsk(list[k], now) then
        exists k :: IsLast(list, now, k) && Pushed(list, now) == list[k := OneMore(list[k], now)]
          && PushRequests(list, now) == [list[k]]
      else Pushed(list, now) == list && PushRequests(list, now) == []
  {
    var k := LastEligible(list, now);
    if k >= 0 {
      assert MayAsk(list[k], now) && IsLast(list, now, k);
    }
  }

  ghost predicate IsLast(list: seq<SNode>, now: int, k: int) {
    0 <= k < |list| && MayAsk(list[k], now) && forall i :: k < i < |list| ==> !MayAsk(list[i], now)
  }

  /** How many of the records before i may be asked. */
  function Askable(list: seq<SNode>, i: nat, now: int): nat
    requires i <= |list|
  {
    if i == 0 then 0 else Askable(list, i - 1, now) + if MayAsk(list[i - 1], now) then 1 else 0
  }

  lemma {:induction false} AskableGrows(list: seq<SNode>, i: nat, k: nat, now: int)
    requires i <= k <= |list|
    ensures Askable(list, i, now) <= Askable(list, k, now)
  {
    if i < k { AskableGrows(list, i, k - 1, now); }
  }

  /** The asking pass of search_step asks the first four nodes that may be asked; nothing else
      changes. */
  lemma {:induction false} AskWrites(first: seq<SNode>, list: seq<SNode>, i: nat, now: int, k: nat)
    requires i <= |list| == |first| && list[i..] == first[i..] && Askable(first, i, now) < INFLIGHT && k < |list|
    ensures AskFrom(list, i, Askable(first, i, now), now)[k] ==
      if k >= i && MayAsk(first[k], now) && Askable(first, k, now) < 4 then OneMore(first[k], now) else list[k]
    decreases |list| - i
  {
    if i < |list| {
      assert list[i..][0] == first[i..][0];
      var next := if Eligible(list[i], now) then list[i := Asked(list[i], now)] else list;
      assert next[i + 1..] == list[i..][1..] == first[i..][1..] == first[i + 1..];
      if Askable(first, i + 1, now) < INFLIGHT {
        AskWrites(first, next, i + 1, now, k);
      } else if k > i {
        AskableGrows(first, i + 1, k, now);
      }
    }
  }

  /** One of the eight nearest live records that has neither acked nor left out the token. */
  ghost predicate MustAnnounce(list: seq<SNode>, k: nat)
    requires k < |list|
  {
    list[k].pinged <= 2 && Rank(list, k) < 8 && !list[k].acked && list[k].token != []
  }

  ghost function Announced(list: seq<SNode>, k: nat, now: int): SNode
    requires k < |list|
  {
    if MustAnnounce(list, k) then OneMore(list[k], now)
    else if list[k].pinged <= 2 && Rank(list, k) < 8 && list[k].token == [] then list[k].(acked := true)
    else list[k]
  }

  /** The announcing pass sends an announcement to each of these; of the eight nearest, those
      without a token are excused; nothing else changes. */
  lemma {:induction false} AnnounceWrites(first: seq<SNode>, list: seq<SNode>, i: nat, now: int, k: nat)
    requires i <= |list| == |first| && list[i..] == first[i..] && k < |list|
    ensures Announce(list, i, Rank(first, i), now).0[k] ==
      if k < i then list[k] else Announced(first, k, now)
    decreases |list| - i
  {
    assert k >= i ==> list[k] == list[i..][k - i] == first[i..][k - i] == first[k];
    if i < |list| && Rank(first, i) < 8 {
      assert list[i] == list[i..][0] == first[i..][0] == first[i];
      var n := Excused(list[i]);
      var next := if list[i].pinged >= 3 then list else list[i := if n.acked then n else Asked(n, now)];
      assert next[i + 1..] == list[i..][1..] == first[i..][1..] == first[i + 1..];
      AnnounceWrites(first, next, i + 1, now, k);
    } else if i <= k {
      RankGrows(first, i, k);
    }
  }

  /** Who is announced to. */
  lemma {:induction false} AnnounceToIs(list: seq<SNode>, i: nat, n: SNode)
    requires i <= |list|
    ensures n in AnnounceTo(list[i..], Rank(list, i)) <==>
      exists k :: i <= k < |list| && list[k] == n && MustAnnounce(list, k)
    decreases |list| - i
  {
    if i < |list| && Rank(list, i) < 8 {
      assert list[i..][0] == list[i] && list[i..][1..] == list[i + 1..];
      AnnounceToIs(list, i + 1, n);
    } else {
      forall k | i <= k < |list|
        ensures !MustAnnounce(list, k)
      {
        RankGrows(list, i, k);
      }
    }
  }

  /** Who is asked: the first four that may be. */
  lemma {:induction false} AskToWhom(list: seq<SNode>, i: nat, now: int, n: SNode)
    requires i <= |list| && Askable(list, i, now) < INFLIGHT
    ensures n in AskTo(list[i..], Askable(list, i, now), now) <==>
      exists k :: i <= k < |list| && list[k] == n && MayAsk(n, now) && Askable(list, k, now) < 4
    decreases |list| - i
  {
    if i < |list| {
      assert list[i..][0] == list[i] && list[i..][1..] == list[i + 1..];
      if Askable(list, i + 1, now) < INFLIGHT {
        AskToWhom(list, i + 1, now, n);
      } else {
        forall k | i < k < |list|
          ensures Askable(list, k, now) >= 4
        {
          AskableGrows(list, i + 1, k, now);
        }
      }
    }
  }

  /** All of the eight nearest live records have replied. */
  ghost predicate NearestReplied(list: seq<SNode>) {
    forall k :: 0 <= k < |list| && Live(list[k]) && Rank(list, k) < 8 ==> list[k].replied
  }

  /** search_step, record by record: within ten seconds of the last step nothing, unless the
      nearest have replied; then the announcements, if a port is given; else the questions. */
  lemma StepWrites(s: State, now: int, k: nat)
    requires k < |s.list|
    ensures var r, n := Step(s, now), s.list[k];
      && r.port == s.port
      && (NearestReplied(s.list) || s.stepTime + 10 < now ==> r.stepTime == now)
      && (!NearestReplied(s.list) && s.stepTime + 10 >= now ==> r == s)
      && (NearestReplied(s.list) && s.port == 0 ==> r.list == s.list)
      && (NearestReplied(s.list) && s.port != 0 ==> r.list[k] == Announced(s.list, k, now))
      && (!NearestReplied(s.list) && s.stepTime + 10 < now ==>
            r.list[k] == (if MayAsk(n, now) && Askable(s.list, k, now) < 4 then OneMore(n, now) else n))
  {
    hide Announce, AskFrom, Rank, Askable, MustAnnounce;
    AllRepliedIs(s.list, 0);
    RankStart(s.list, now);
    AnnounceWrites(s.list, s.list, 0, now, k);
    AskWrites(s.list, s.list, 0, now, k);
  }

  lemma RankStart(list: seq<SNode>, now: int)
    ensures Rank(list, 0) == 0 && Askable(list, 0, now) == 0
  {}
}
