/** One search of dht.c as a value: its list of candidates and what search_step
    makes of it. The class that owns the list is in Search.dfy. */
module SearchSteps {
  import opened Ids
  import Table

  /** struct search_node; token holds the first token_len bytes. */
  datatype SNode = SNode(id: Id, addr: Table.Addr, requestTime: int, replyTime: int, pinged: int,
                         token: seq<bv8>, replied: bool, acked: bool)

  const SEARCH_NODES := 14
  const RETRANSMIT := 10
  const INFLIGHT := 4

  /** struct search, without its list links and its transaction id. */
  datatype State = State(list: seq<SNode>, port: nat, stepTime: int, done: bool)

  /** A node that may be sent (another) get_peers now. */
  predicate Eligible(n: SNode, now: int) {
    n.pinged < 3 && !n.replied && n.requestTime < now - RETRANSMIT
  }

  function Asked(n: SNode, now: int): SNode {
    n.(pinged := n.pinged + 1, requestTime := now)
  }

  /** Have the first eight live nodes replied? From entry i on, j seen so far. */
  predicate AllReplied(list: seq<SNode>, i: nat, j: nat)
    requires i <= |list|
    decreases |list| - i
  {
    if i == |list| || j >= 8 then true
    else if list[i].pinged >= 3 then AllReplied(list, i + 1, j)
    else list[i].replied && AllReplied(list, i + 1, j + 1)
  }

  /** A node without a token needs no announcement. */
  function Excused(n: SNode): SNode {
    if n.token == [] then n.(acked := true) else n
  }

  /** The announcing pass: announce_peer to those of the first eight live nodes
      that have not acked; also whether all have. */
  function Announce(list: seq<SNode>, i: nat, j: nat, now: int): (r: (seq<SNode>, bool))
    requires i <= |list|
    ensures |r.0| == |list|
    decreases |list| - i
  {
    if i == |list| || j >= 8 then (list, true)
    else if list[i].pinged >= 3 then Announce(list, i + 1, j, now)
    else
      var n := Excused(list[i]);
      if n.acked then Announce(list[i := n], i + 1, j + 1, now)
      else (Announce(list[i := Asked(n, now)], i + 1, j + 1, now).0, false)
  }

  /** The asking pass: get_peers to at most four eligible nodes. */
  function AskFrom(list: seq<SNode>, i: nat, j: nat, now: int): (r: seq<SNode>)
    requires i <= |list|
    ensures |r| == |list|
    decreases |list| - i
  {
    if i == |list| then list
    else
      var sent := Eligible(list[i], now);
      var next := if sent then list[i := Asked(list[i], now)] else list;
      var j' := if sent then j + 1 else j;
      if j' >= INFLIGHT then next else AskFrom(next, i + 1, j', now)
  }

  // The requests a step sends, to records as they stand at that moment.

  /** The announcing pass over the records that are left, j live ones seen before. */
  function AnnounceTo(rest: seq<SNode>, j: nat): seq<SNode> {
    if rest == [] || j >= 8 then []
    else if rest[0].pinged >= 3 then AnnounceTo(rest[1..], j)
    else (if Excused(rest[0]).acked then [] else [rest[0]]) + AnnounceTo(rest[1..], j + 1)
  }

  /** The asking pass, j requests sent before. */
  function AskTo(rest: seq<SNode>, j: nat, now: int): seq<SNode> {
    if rest == [] then []
    else if !Eligible(rest[0], now) then AskTo(rest[1..], j, now)
    else if j + 1 >= INFLIGHT then [rest[0]]
    else [rest[0]] + AskTo(rest[1..], j + 1, now)
  }

  function Requests(s: State, now: int): seq<SNode> {
    if AllReplied(s.list, 0, 0) then if s.port == 0 then [] else AnnounceTo(s.list, 0)
    else if s.stepTime + RETRANSMIT >= now then []
    else AskTo(s.list, 0, now)
  }

  /** search_step */
  function Step(s: State, now: int): (r: State)
    ensures |r.list| == |s.list| && r.port == s.port
  {
    if AllReplied(s.list, 0, 0) then
      if s.port == 0 then s.(done := true, stepTime := now)
      else
        var (list, allAcked) := Announce(s.list, 0, 0, now);
        if allAcked then s.(list := list, done := true, stepTime := now)
        else s.(list := list, stepTime := now)
    else if s.stepTime + RETRANSMIT >= now then s
    else s.(list := AskFrom(s.list, 0, 0, now), stepTime := now)
  }

  /** The step does something: it is not turned away by the time guard. */
  predicate Acts(s: State, now: int) {
    AllReplied(s.list, 0, 0) || s.stepTime + RETRANSMIT < now
  }

  ghost predicate PingedOk(list: seq<SNode>) {
    forall i :: 0 <= i < |list| ==> 0 <= list[i].pinged <= 3
  }

  /** How many requests the search may still send: the sum of 3 - pinged. */
  ghost function Work(list: seq<SNode>): int {
    if list == [] then 0 else Work(list[..|list| - 1]) + 3 - list[|list| - 1].pinged
  }

  lemma {:induction false} WorkBounds(list: seq<SNode>)
    requires PingedOk(list)
    ensures 0 <= Work(list) <= 3 * |list|
  {
    if list != [] { WorkBounds(list[..|list| - 1]); }
  }

  lemma {:induction false} WorkUpdate(list: seq<SNode>, i: nat, n: SNode)
    requires i < |list|
    ensures Work(list[i := n]) == Work(list) + list[i].pinged - n.pinged
  {
    var k := |list| - 1;
    if i < k {
      WorkUpdate(list[..k], i, n);
      assert list[i := n][..k] == list[..k][i := n];
    } else {
      assert list[i := n][..k] == list[..k];
    }
  }

  lemma {:induction false} AnnounceWork(list: seq<SNode>, i: nat, j: nat, now: int)
    requires i <= |list| && PingedOk(list)
    ensures PingedOk(Announce(list, i, j, now).0)
    ensures Announce(list, i, j, now).1 ==> Work(Announce(list, i, j, now).0) == Work(list)
    ensures !Announce(list, i, j, now).1 ==> Work(Announce(list, i, j, now).0) < Work(list)
    decreases |list| - i
  {
    if i < |list| && j < 8 {
      if list[i].pinged >= 3 {
        AnnounceWork(list, i + 1, j, now);
      } else {
        var n := Excused(list[i]);
        var m := if n.acked then n else Asked(n, now);
        WorkUpdate(list, i, m);
        AnnounceWork(list[i := m], i + 1, j + 1, now);
      }
    }
  }

  lemma {:induction false} AskWork(list: seq<SNode>, i: nat, j: nat, now: int)
    requires i <= |list| && PingedOk(list) && j < INFLIGHT
    ensures PingedOk(AskFrom(list, i, j, now))
    ensures Work(AskFrom(list, i, j, now)) <= Work(list)
    ensures Work(AskFrom(list, i, j, now)) < Work(list) <==> exists k :: i <= k < |list| && Eligible(list[k], now)
    decreases |list| - i
  {
    if i < |list| {
      var sent := Eligible(list[i], now);
      var next := if sent then list[i := Asked(list[i], now)] else list;
      if sent { WorkUpdate(list, i, Asked(list[i], now)); }
      if !(sent && j + 1 >= INFLIGHT) {
        AskWork(next, i + 1, if sent then j + 1 else j, now);
        assert forall k :: i + 1 <= k < |list| ==> next[k] == list[k];
      }
    }
  }

  /** Every step keeps pinged within 0..3; a step that acts either finishes the
      search, or sends requests, exactly when some node may be sent one. */
  lemma StepWork(s: State, now: int)
    requires PingedOk(s.list) && !s.done
    ensures PingedOk(Step(s, now).list)
    ensures Work(Step(s, now).list) <= Work(s.list)
    ensures AllReplied(s.list, 0, 0) ==> Step(s, now).done || Work(Step(s, now).list) < Work(s.list)
    ensures Acts(s, now) && !AllReplied(s.list, 0, 0) ==>
      (Work(Step(s, now).list) < Work(s.list) <==> exists k :: 0 <= k < |s.list| && Eligible(s.list[k], now))
  {
    if AllReplied(s.list, 0, 0) {
      AnnounceWork(s.list, 0, 0, now);
    } else {
      AskWork(s.list, 0, 0, now);
    }
  }

  // What is sent.

  function Eligibles(list: seq<SNode>, now: int): seq<SNode> {
    if list == [] then [] else (if Eligible(list[0], now) then [list[0]] else []) + Eligibles(list[1..], now)
  }

  /** The asking pass asks the first four nodes that may be asked, or all of them. */
  lemma {:induction false} AskToIs(rest: seq<SNode>, j: nat, now: int)
    requires j < INFLIGHT
    ensures var e := Eligibles(rest, now);
      AskTo(rest, j, now) == if |e| <= INFLIGHT - j then e else e[..INFLIGHT - j]
  {
    if rest != [] {
      if !Eligible(rest[0], now) {
        AskToIs(rest[1..], j, now);
      } else if j + 1 < INFLIGHT {
        AskToIs(rest[1..], j + 1, now);
      }
    }
  }

  lemma {:induction false} AskCount(list: seq<SNode>, i: nat, j: nat, now: int)
    requires i <= |list| && j < INFLIGHT
    ensures Work(AskFrom(list, i, j, now)) == Work(list) - |AskTo(list[i..], j, now)|
    decreases |list| - i
  {
    if i < |list| {
      var sent := Eligible(list[i], now);
      var next := if sent then list[i := Asked(list[i], now)] else list;
      assert list[i..][1..] == next[i + 1..];
      if sent { WorkUpdate(list, i, Asked(list[i], now)); }
      if !(sent && j + 1 >= INFLIGHT) { AskCount(next, i + 1, if sent then j + 1 else j, now); }
    }
  }

  lemma {:induction false} AnnounceCount(list: seq<SNode>, i: nat, j: nat, now: int)
    requires i <= |list|
    ensures var sends := AnnounceTo(list[i..], j);
      && Work(Announce(list, i, j, now).0) == Work(list) - |sends| && (j <= 8 ==> |sends| <= 8 - j)
      && (Announce(list, i, j, now).1 <==> sends == [])
    decreases |list| - i
  {
    if i < |list| && j < 8 {
      if list[i].pinged >= 3 {
        assert list[i..][1..] == list[i + 1..];
        AnnounceCount(list, i + 1, j, now);
      } else {
        var n := Excused(list[i]);
        var m := if n.acked then n else Asked(n, now);
        assert list[i..][1..] == list[i := m][i + 1..];
        WorkUpdate(list, i, m);
        AnnounceCount(list[i := m], i + 1, j + 1, now);
      }
    }
  }

  /** Every request is counted once: what a step takes from the requests the search may still
      send is what it sends, at most eight announcements or four questions, and a step that
      announces nothing more ends the search. */
  lemma StepRequests(s: State, now: int)
    ensures Work(Step(s, now).list) == Work(s.list) - |Requests(s, now)|
    ensures |Requests(s, now)| <= if AllReplied(s.list, 0, 0) then 8 else INFLIGHT
    ensures !s.done ==> (Step(s, now).done <==> AllReplied(s.list, 0, 0) && Requests(s, now) == [])
  {
    hide Work, Announce, AskFrom, AnnounceTo, AskTo, Eligibles;
    AnnounceCount(s.list, 0, 0, now);
    AskCount(s.list, 0, 0, now);
    AskToIs(s.list, 0, now);
    assert s.list[0..] == s.list;
  }

  // Runs without new candidates or replies.

  /** No node was asked after the last step that acted. */
  ghost predicate Calm(s: State) {
    Recent(s.list, s.stepTime)
  }

  ghost predicate Recent(list: seq<SNode>, t: int) {
    forall i :: 0 <= i < |list| ==> list[i].requestTime <= t
  }

  lemma {:induction false} Unanswered(list: seq<SNode>, i: nat, j: nat) returns (k: nat)
    requires i <= |list| && !AllReplied(list, i, j)
    ensures i <= k < |list| && list[k].pinged < 3 && !list[k].replied
    decreases |list| - i
  {
    if list[i].pinged >= 3 {
      k := Unanswered(list, i + 1, j);
    } else if list[i].replied {
      k := Unanswered(list, i + 1, j + 1);
    } else {
      k := i;
    }
  }

  lemma {:induction false} AnnounceRecent(list: seq<SNode>, i: nat, j: nat, now: int)
    requires i <= |list| && Recent(list, now)
    ensures Recent(Announce(list, i, j, now).0, now)
    decreases |list| - i
  {
    if i < |list| && j < 8 {
      if list[i].pinged >= 3 {
        AnnounceRecent(list, i + 1, j, now);
      } else {
        var n := Excused(list[i]);
        AnnounceRecent(list[i := if n.acked then n else Asked(n, now)], i + 1, j + 1, now);
      }
    }
  }

  lemma {:induction false} AskRecent(list: seq<SNode>, i: nat, j: nat, now: int)
    requires i <= |list| && Recent(list, now)
    ensures Recent(AskFrom(list, i, j, now), now)
    decreases |list| - i
  {
    if i < |list| {
      var sent := Eligible(list[i], now);
      AskRecent(if sent then list[i := Asked(list[i], now)] else list, i + 1, if sent then j + 1 else j, now);
    }
  }

  lemma StepRecent(s: State, now: int)
    requires Recent(s.list, now)
    ensures Recent(Step(s, now).list, now)
    ensures Acts(s, now) ==> Calm(Step(s, now))
    ensures !Acts(s, now) ==> Step(s, now) == s
  {
    AnnounceRecent(s.list, 0, 0, now);
    AskRecent(s.list, 0, 0, now);
  }

  /** Steps at the given times, until the search is done. */
  function RunSteps(s: State, times: seq<int>): State
    decreases |times|
  {
    if times == [] || s.done then s else RunSteps(Step(s, times[0]), times[1..])
  }

  function ActingSteps(s: State, times: seq<int>): nat
    decreases |times|
  {
    if times == [] || s.done then 0
    else (if Acts(s, times[0]) then 1 else 0) + ActingSteps(Step(s, times[0]), times[1..])
  }

  ghost predicate Clock(times: seq<int>) {
    forall i, j :: 0 <= i < j < |times| ==> times[i] <= times[j]
  }

  /** Searches finish: as long as the search is not done, the steps that act are
      at most as many as the requests it may still send, at most 42 for fourteen
      nodes; one more if a node was asked after the last acting step. */
  lemma {:induction false} SearchFinishes(s: State, times: seq<int>)
    requires PingedOk(s.list) && Clock(times) && (times != [] ==> Recent(s.list, times[0]))
    ensures RunSteps(s, times).done || ActingSteps(s, times) <= Work(s.list) + if Calm(s) then 0 else 1
    decreases |times|
  {
    WorkBounds(s.list);
    if times != [] && !s.done {
      var now := times[0];
      var r := Step(s, now);
      StepWork(s, now);
      StepRecent(s, now);
      if times[1..] != [] { LaterRecent(r.list, now, times[1]); }
      SearchFinishes(r, times[1..]);
      if Acts(s, now) && !AllReplied(s.list, 0, 0) && Calm(s) {
        var k := Unanswered(s.list, 0, 0);
        assert Eligible(s.list[k], now);
      }
    }
  }

  lemma LaterRecent(list: seq<SNode>, t: int, u: int)
    requires Recent(list, t) && t <= u
    ensures Recent(list, u)
  {}

  lemma FortyTwo(s: State, times: seq<int>)
    requires |s.list| <= SEARCH_NODES && PingedOk(s.list) && Clock(times) && (times != [] ==> Recent(s.list, times[0]))
    requires Calm(s) && ActingSteps(s, times) > 42
    ensures RunSteps(s, times).done
  {
    WorkBounds(s.list);
    SearchFinishes(s, times);
  }

  // What it means to be done.

  predicate Live(n: SNode) { n.pinged < 3 }

  /** How many live nodes are nearer than entry i. */
  ghost function Rank(list: seq<SNode>, i: nat): nat
    requires i <= |list|
  {
    if i == 0 then 0 else Rank(list, i - 1) + if Live(list[i - 1]) then 1 else 0
  }

  lemma {:induction false} RankGrows(list: seq<SNode>, i: nat, k: nat)
    requires i <= k <= |list|
    ensures Rank(list, i) <= Rank(list, k)
    ensures i < k && Live(list[i]) ==> Rank(list, i) < Rank(list, k)
  {
    if i < k { RankGrows(list, i, k - 1); }
  }

  lemma {:induction false} AllRepliedIs(list: seq<SNode>, i: nat)
    requires i <= |list|
    ensures AllReplied(list, i, Rank(list, i)) <==>
      forall k :: i <= k < |list| && Live(list[k]) && Rank(list, k) < 8 ==> list[k].replied
    decreases |list| - i
  {
    if Rank(list, i) >= 8 {
      forall k | i <= k < |list|
        ensures Rank(list, k) >= 8
      {
        RankGrows(list, i, k);
      }
    } else if i < |list| {
      AllRepliedIs(list, i + 1);
    }
  }

  /** The announcing pass changes neither who is live nor who replied. */
  ghost predicate SameLife(a: seq<SNode>, b: seq<SNode>) {
    |a| == |b| && forall k :: 0 <= k < |a| ==>
      Live(a[k]) == Live(b[k]) && a[k].replied == b[k].replied && a[k].id == b[k].id
  }

  lemma {:induction false} SameRank(a: seq<SNode>, b: seq<SNode>, k: nat)
    requires SameLife(a, b) && k <= |a|
    ensures Rank(a, k) == Rank(b, k)
  {
    if k > 0 { SameRank(a, b, k - 1); }
  }

  predicate Acked(n: SNode) { n.acked || n.token == [] }

  lemma {:induction false} AnnounceAcks(list: seq<SNode>, i: nat, now: int)
    requires i <= |list|
    ensures Announce(list, i, Rank(list, i), now).1 <==>
      forall k :: i <= k < |list| && Live(list[k]) && Rank(list, k) < 8 ==> Acked(list[k])
    ensures Announce(list, i, Rank(list, i), now).1 ==> SameLife(list, Announce(list, i, Rank(list, i), now).0)
    ensures Announce(list, i, Rank(list, i), now).1 ==>
      forall k :: i <= k < |list| && Live(list[k]) && Rank(list, k) < 8 ==>
        Announce(list, i, Rank(list, i), now).0[k].acked
    ensures forall k :: 0 <= k < i ==> Announce(list, i, Rank(list, i), now).0[k] == list[k]
    decreases |list| - i, 2
  {
    if Rank(list, i) >= 8 {
      forall k | i <= k < |list|
        ensures Rank(list, k) >= 8
      {
        RankGrows(list, i, k);
      }
    } else if i < |list| {
      if list[i].pinged >= 3 {
        AnnounceAcks(list, i + 1, now);
      } else {
        AnnounceOne(list, i, now);
      }
    }
  }

  lemma {:induction false} AnnounceOne(list: seq<SNode>, i: nat, now: int)
    requires i < |list| && Live(list[i]) && Rank(list, i) < 8
    ensures var r := Announce(list, i, Rank(list, i), now);
      && (r.1 <==> forall k :: i <= k < |list| && Live(list[k]) && Rank(list, k) < 8 ==> Acked(list[k]))
      && (r.1 ==> SameLife(list, r.0))
      && (r.1 ==> forall k :: i <= k < |list| && Live(list[k]) && Rank(list, k) < 8 ==> r.0[k].acked)
      && (forall k :: 0 <= k < i ==> r.0[k] == list[k])
    decreases |list| - i, 1
  {
    var n := Excused(list[i]);
    if n.acked {
      AnnounceExcused(list, i, now);
    } else {
      AnnounceBefore(list[i := Asked(n, now)], i + 1, Rank(list, i) + 1, now);
    }
  }

  /** An acked entry is passed over without changing who is nearest. */
  lemma AnnounceOn(list: seq<SNode>, i: nat, now: int)
    requires i < |list| && Live(list[i]) && Rank(list, i) < 8 && Excused(list[i]).acked
    ensures var next := list[i := Excused(list[i])];
      && SameLife(list, next) && (forall k: nat | k <= |list| :: Rank(next, k) == Rank(list, k))
      && Announce(list, i, Rank(list, i), now) == Announce(next, i + 1, Rank(next, i + 1), now)
  {
    var next := list[i := Excused(list[i])];
    assert SameLife(list, next);
    forall k: nat | k <= |list|
      ensures Rank(next, k) == Rank(list, k)
    {
      SameRank(list, next, k);
    }
  }

  lemma {:induction false} AnnounceExcused(list: seq<SNode>, i: nat, now: int)
    requires i < |list| && Live(list[i]) && Rank(list, i) < 8 && Excused(list[i]).acked
    ensures var r := Announce(list, i, Rank(list, i), now);
      && (r.1 <==> forall k :: i <= k < |list| && Live(list[k]) && Rank(list, k) < 8 ==> Acked(list[k]))
      && (r.1 ==> SameLife(list, r.0))
      && (r.1 ==> forall k :: i <= k < |list| && Live(list[k]) && Rank(list, k) < 8 ==> r.0[k].acked)
      && (forall k :: 0 <= k < i ==> r.0[k] == list[k])
    decreases |list| - i, 0
  {
    hide Announce, Rank, Live;
    AnnounceOn(list, i, now);
    AnnounceAcks(list[i := Excused(list[i])], i + 1, now);
  }

  lemma {:induction false} AnnounceBefore(list: seq<SNode>, i: nat, j: nat, now: int)
    requires i <= |list|
    ensures forall k :: 0 <= k < i ==> Announce(list, i, j, now).0[k] == list[k]
    decreases |list| - i
  {
    if i < |list| && j < 8 {
      if list[i].pinged >= 3 {
        AnnounceBefore(list, i + 1, j, now);
      } else {
        var n := Excused(list[i]);
        AnnounceBefore(list[i := if n.acked then n else Asked(n, now)], i + 1, j + 1, now);
      }
    }
  }

  /** A step finishes the search exactly when the eight nearest live nodes (all of
      them, if fewer) have replied and, for an announcing search, have acked or
      gave no token; each of them is then marked acked. */
  lemma DoneMeans(s: State, now: int)
    requires !s.done
    ensures Step(s, now).done <==>
      forall k :: 0 <= k < |s.list| && Live(s.list[k]) && Rank(s.list, k) < 8 ==>
        s.list[k].replied && (s.port == 0 || Acked(s.list[k]))
    ensures Step(s, now).done && s.port != 0 ==>
      forall k :: 0 <= k < |s.list| && Live(s.list[k]) && Rank(s.list, k) < 8 ==>
        Step(s, now).list[k].acked && Step(s, now).list[k].replied
  {
    AllRepliedIs(s.list, 0);
    AnnounceAcks(s.list, 0, now);
  }
}
