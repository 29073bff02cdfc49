/** The whole life of a search of dht.c: whatever it hears, sends, drops, or is restarted with, in
    any order. */
module SearchRuns {
  import opened Ids
  import opened Wrappers
  import opened SearchSteps
  import opened Search
  import Table
  import Nearest

  /** What can happen to a search. */
  datatype Event =
    | Heard(w: Report)
    | Named(w: Report, now: int)
    | Push(now: int)
    | Acks(node: Id, now: int)
    | Broken(node: Id)
    | Again(port: nat, now: int)
    | Tick(now: int)

  /** What it makes of a search for the target in one address family. */
  function After(s: State, target: Id, v6: bool, e: Event): (r: State)
    requires |s.list| <= SEARCH_NODES
    ensures |r.list| <= SEARCH_NODES
  {
    match e
    case Heard(w) => if w.v6 == v6 then s.(list := InsertRecord(s.list, target, w)) else s
    case Named(w, now) => if w.v6 == v6 then s.(list := Met(s.list, target, w, now)) else s
    case Push(now) => s.(list := Pushed(s.list, now))
    case Acks(node, now) => s.(list := Acknowledge(s.list, node, 0, now))
    case Broken(node) => s.(list := Without(s.list, node))
    case Again(port, now) => State(Reused(s.list, now), port, s.stepTime, false)
    case Tick(now) => Step(s, now)
  }

  function Run(s: State, target: Id, v6: bool, es: seq<Event>): (r: State)
    requires |s.list| <= SEARCH_NODES
    ensures |r.list| <= SEARCH_NODES
    decreases |es|
  {
    if es == [] then s else Run(After(s, target, v6, es[0]), target, v6, es[1..])
  }

  function Fresh(port: nat): State { State([], port, 0, false) }

  lemma AfterSound(s: State, target: Id, v6: bool, e: Event)
    requires Sound(s.list, target)
    ensures Sound(After(s, target, v6, e).list, target)
  {
    hide Sound;
    match e
    case Heard(w) => InsertSound(s.list, target, w);
    case Named(w, now) => MetSound(s.list, target, w, now);
    case Push(now) => PushedSound(s.list, target, now);
    case Acks(node, now) => AcknowledgeSound(s.list, target, node, 0, now);
    case Broken(node) => WithoutSound(s.list, target, node);
    case Again(_, now) => ReusedSound(s.list, target, now);
    case Tick(now) => StepSound(s, target, now);
  }

  /** In every run the search stays sorted, bounded and without an id twice, and no record
      counts more than three requests. */
  lemma {:induction false} RunSound(s: State, target: Id, v6: bool, es: seq<Event>)
    requires Sound(s.list, target)
    ensures Sound(Run(s, target, v6, es).list, target)
    decreases |es|
  {
    hide Sound, After;
    if es != [] {
      SoundSize(s.list, target);
      AfterSound(s, target, v6, es[0]);
      RunSound(After(s, target, v6, es[0]), target, v6, es[1..]);
    }
  }

  // Which ids a search holds.

  /** The ids among which a search holds the nearest: those offered to it since it last lost
      a record, and those it had left then. A full search is not offered nodes that are only
      named in a message. */
  function Candidates(s: State, target: Id, v6: bool, seen: set<Id>, e: Event): set<Id>
    requires |s.list| <= SEARCH_NODES
  {
    match e
    case Heard(w) => if w.v6 == v6 then seen + {w.id} else seen
    case Named(w, _) => if w.v6 == v6 && |s.list| < SEARCH_NODES then seen + {w.id} else seen
    case Broken(_) => Left(s, After(s, target, v6, e), seen)
    case Again(_, _) => Left(s, After(s, target, v6, e), seen)
    case _ => seen
  }

  function Left(s: State, r: State, seen: set<Id>): set<Id> {
    if IdsOf(r.list) == IdsOf(s.list) then seen else Nearest.IdSet(IdsOf(r.list))
  }

  function AllCandidates(s: State, target: Id, v6: bool, seen: set<Id>, es: seq<Event>): set<Id>
    requires |s.list| <= SEARCH_NODES
    decreases |es|
  {
    if es == [] then seen
    else AllCandidates(After(s, target, v6, es[0]), target, v6, Candidates(s, target, v6, seen, es[0]), es[1..])
  }

  lemma LeftNearest(s: State, r: State, target: Id, seen: set<Id>)
    requires Nearest.IsNearest(IdsOf(s.list), seen, target, SEARCH_NODES) && Sound(r.list, target)
    ensures Nearest.IsNearest(IdsOf(r.list), Left(s, r, seen), target, SEARCH_NODES)
  {}

  lemma AfterNearest(s: State, target: Id, v6: bool, seen: set<Id>, e: Event)
    requires Sound(s.list, target) && Nearest.IsNearest(IdsOf(s.list), seen, target, SEARCH_NODES)
    ensures Nearest.IsNearest(IdsOf(After(s, target, v6, e).list), Candidates(s, target, v6, seen, e), target,
      SEARCH_NODES)
  {
    hide Nearest.IsNearest, InsertRecord, Without, Reused, Met, Pushed, Step, Sound;
    AfterSound(s, target, v6, e);
    SoundSize(s.list, target);
    match e
    case Heard(w) =>
      InsertRecordIds(s.list, target, w);
      Nearest.InsertNearest(IdsOf(s.list), seen, w.id, target, SEARCH_NODES);
    case Named(w, now) =>
      MetSound(s.list, target, w, now);
      MetFull(s.list, target, w, now);
      InsertRecordIds(s.list, target, w);
      Nearest.InsertNearest(IdsOf(s.list), seen, w.id, target, SEARCH_NODES);
    case Push(now) => PushedSound(s.list, target, now);
    case Acks(node, now) => AcknowledgeSound(s.list, target, node, 0, now);
    case Broken(_) => LeftNearest(s, After(s, target, v6, e), target, seen);
    case Again(_, _) => LeftNearest(s, After(s, target, v6, e), target, seen);
    case Tick(now) => StepSound(s, target, now);
  }

  lemma MetFull(list: seq<SNode>, target: Id, w: Report, now: int)
    requires |list| <= SEARCH_NODES
    ensures |list| == SEARCH_NODES ==> Met(list, target, w, now) == list
  {}

  /** In every run the search holds the fourteen nearest of its candidates. */
  lemma {:induction false} RunHoldsNearest(s: State, target: Id, v6: bool, seen: set<Id>, es: seq<Event>)
    requires Sound(s.list, target) && Nearest.IsNearest(IdsOf(s.list), seen, target, SEARCH_NODES)
    ensures Nearest.IsNearest(IdsOf(Run(s, target, v6, es).list), AllCandidates(s, target, v6, seen, es), target,
      SEARCH_NODES)
    decreases |es|
  {
    hide Nearest.IsNearest, After, Candidates, Sound;
    SoundSize(s.list, target);
    if es != [] {
      AfterSound(s, target, v6, es[0]);
      AfterNearest(s, target, v6, seen, es[0]);
      RunHoldsNearest(After(s, target, v6, es[0]), target, v6, Candidates(s, target, v6, seen, es[0]), es[1..]);
    }
  }

  // Searches finish, after any run.

  predicate By(e: Event, t: int) {
    match e
    case Heard(_) => true
    case Broken(_) => true
    case Named(_, now) => now <= t
    case Push(now) => now <= t
    case Acks(_, now) => now <= t
    case Again(_, now) => now <= t
    case Tick(now) => now <= t
  }

  lemma AfterRecent(s: State, target: Id, v6: bool, e: Event, t: int)
    requires |s.list| <= SEARCH_NODES && Recent(s.list, t) && By(e, t) && 0 <= t
    ensures Recent(After(s, target, v6, e).list, t)
  {
    hide InsertRecord, Without, Reused, Met, Step, Acknowledge;
    match e
    case Heard(w) => InsertRecent(s.list, target, w, t);
    case Named(w, now) => MetRecent(s.list, target, w, now, t);
    case Push(now) =>
    case Acks(node, now) => AcknowledgeRecent(s.list, node, 0, now, t);
    case Broken(node) => WithoutRecent(s.list, node, t);
    case Again(_, now) => ReusedRecent(s.list, now, t);
    case Tick(now) => StepBy(s, now, t);
  }

  lemma InsertRecent(list: seq<SNode>, target: Id, w: Report, t: int)
    requires |list| <= SEARCH_NODES && Recent(list, t) && 0 <= t
    ensures Recent(InsertRecord(list, target, w), t)
  {
    hide Nearest.Spot;
    var i := Nearest.Spot(IdsOf(list), w.id, target, 0);
    var n := Updated(Blank(w.id), w);
    var wide := list[..i] + [n] + list[i..];
    assert forall k :: 0 <= k < |wide| ==> wide[k] == if k < i then list[k] else if k == i then n else list[k - 1];
  }

  lemma MetRecent(list: seq<SNode>, target: Id, w: Report, now: int, t: int)
    requires |list| <= SEARCH_NODES && Recent(list, t) && 0 <= t && now <= t
    ensures Recent(Met(list, target, w, now), t)
  {
    hide InsertRecord, Nearest.Spot;
    InsertRecent(list, target, w, t);
    if |list| < SEARCH_NODES { MetAt(list, target, w); }
  }

  lemma {:induction false} AcknowledgeRecent(list: seq<SNode>, node: Id, i: nat, now: int, t: int)
    requires Recent(list, t) && 0 <= t && i <= |list|
    ensures Recent(Acknowledge(list, node, i, now), t)
    decreases |list| - i
  {
    if i < |list| && list[i].id != node { AcknowledgeRecent(list, node, i + 1, now, t); }
  }

  lemma WithoutRecent(list: seq<SNode>, node: Id, t: int)
    requires Recent(list, t)
    ensures Recent(Without(list, node), t)
  {
    WithoutIs(list, node);
    var r := Without(list, node);
    assert forall k :: 0 <= k < |r| ==> r[k] in r;
  }

  lemma ReusedRecent(list: seq<SNode>, now: int, t: int)
    requires Recent(list, t)
    ensures Recent(Reused(list, now), t)
  {
    ReusedIs(list, now);
    var r := Reused(list, now);
    assert forall k :: 0 <= k < |r| ==> r[k] in r;
  }

  lemma {:induction false} AnnounceBy(list: seq<SNode>, i: nat, j: nat, now: int, t: int)
    requires i <= |list| && Recent(list, t) && now <= t
    ensures Recent(Announce(list, i, j, now).0, t)
    decreases |list| - i
  {
    if i < |list| && j < 8 {
      if list[i].pinged >= 3 {
        AnnounceBy(list, i + 1, j, now, t);
      } else {
        var n := Excused(list[i]);
        AnnounceBy(list[i := if n.acked then n else Asked(n, now)], i + 1, j + 1, now, t);
      }
    }
  }

  lemma {:induction false} AskBy(list: seq<SNode>, i: nat, j: nat, now: int, t: int)
    requires i <= |list| && Recent(list, t) && now <= t
    ensures Recent(AskFrom(list, i, j, now), t)
    decreases |list| - i
  {
    if i < |list| {
      var sent := Eligible(list[i], now);
      AskBy(if sent then list[i := Asked(list[i], now)] else list, i + 1, if sent then j + 1 else j, now, t);
    }
  }

  lemma StepBy(s: State, now: int, t: int)
    requires Recent(s.list, t) && now <= t
    ensures Recent(Step(s, now).list, t)
  {
    AnnounceBy(s.list, 0, 0, now, t);
    AskBy(s.list, 0, 0, now, t);
  }

  lemma {:induction false} RunRecent(s: State, target: Id, v6: bool, es: seq<Event>, t: int)
    requires |s.list| <= SEARCH_NODES && Recent(s.list, t) && 0 <= t && forall k :: 0 <= k < |es| ==> By(es[k], t)
    ensures Recent(Run(s, target, v6, es).list, t)
    decreases |es|
  {
    hide After, Recent;
    if es != [] {
      AfterRecent(s, target, v6, es[0], t);
      RunRecent(After(s, target, v6, es[0]), target, v6, es[1..], t);
    }
  }

  /** Whatever has happened to a search by time t, if then only steps follow it is done after
      at most 43 that act. */
  lemma RunFinishes(port: nat, target: Id, v6: bool, es: seq<Event>, t: int, times: seq<int>)
    requires 0 <= t && (forall k :: 0 <= k < |es| ==> By(es[k], t)) && Clock(times) && (times != [] ==> t <= times[0])
    ensures var s := Run(Fresh(port), target, v6, es);
      RunSteps(s, times).done || ActingSteps(s, times) <= Work(s.list) + 1 <= 43
  {
    hide Run, By;
    var s := Run(Fresh(port), target, v6, es);
    RunSound(Fresh(port), target, v6, es);
    RunRecent(Fresh(port), target, v6, es, t);
    if times != [] { LaterRecent(s.list, t, times[0]); }
    WorkBounds(s.list);
    SearchFinishes(s, times);
  }

  // A step can act without any effect.

  /** The events, for two nodes heard of: the first is asked by a step, and when its answer
      comes in, naming the second, that one is asked at once; or else the second node is
      named in a message. */
  function Late(a: Id, b: Id, addr: Table.Addr, token: Option<seq<bv8>>, named: bool): seq<Event> {
    var news := Report(b, addr, false, false, None, 55);
    [Heard(Report(a, addr, false, false, None, 50)), Tick(50)]
    + (if named then [Named(news, 55)] else [Heard(news), Push(55)])
    + [Heard(Report(a, addr, false, true, token, 55))]
  }

  /** The record of the first node before it is asked, and of the second one. */
  function New(id: Id, addr: Table.Addr): SNode { SNode(id, addr, 0, 0, 0, [], false, false) }

  function Pair(x: SNode, y: SNode, target: Id): seq<SNode> { if Closer(y.id, x.id, target) then [y, x] else [x, y] }

  lemma FirstHeard(port: nat, target: Id, w: Report)
    requires !w.replied && w.token.None?
    ensures After(Fresh(port), target, w.v6, Heard(w)) == Fresh(port).(list := [New(w.id, w.addr)])
  {
    assert InsertRecord([], target, w) == [New(w.id, w.addr)];
  }

  lemma FirstAsked(port: nat, n: SNode)
    requires Eligible(n, 50)
    ensures Step(Fresh(port).(list := [n]), 50) == State([Asked(n, 50)], port, 50, false)
  {
    assert !AllReplied([n], 0, 0);
    assert AskFrom([Asked(n, 50)], 1, 1, 50) == [Asked(n, 50)];
    assert [n][0 := Asked(n, 50)] == [Asked(n, 50)];
  }

  lemma SecondHeard(n: SNode, target: Id, w: Report)
    requires n.id != w.id && !w.replied && w.token.None?
    ensures InsertRecord([n], target, w) == Pair(n, New(w.id, w.addr), target)
  {
    hide Closer;
    var m := New(w.id, w.addr);
    assert Updated(Blank(w.id), w) == m;
    var i := Nearest.Spot(IdsOf([n]), w.id, target, 0);
    assert i == if Closer(w.id, n.id, target) then 0 else 1;
    assert [n][..i] + [m] + [n][i..] == Pair(n, m, target);
  }

  /** Either way the second node is asked at 55. */
  lemma SecondAsked(x: SNode, y: SNode, target: Id)
    requires !Eligible(x, 55) && Eligible(y, 55)
    ensures Pushed(Pair(x, y, target), 55) == Pair(x, Asked(y, 55), target)
  {
    hide Closer;
    var list := Pair(x, y, target);
    var k, p := LastEligible(list, 55), if Closer(y.id, x.id, target) then 0 else 1;
    assert list[p] == y && list[1 - p] == x;
  }

  lemma SecondNamed(n: SNode, target: Id, w: Report)
    requires n.id != w.id && !w.replied && w.token.None?
    ensures Met([n], target, w, 55) == Pair(n, Asked(New(w.id, w.addr), 55), target)
  {
    hide Closer, InsertRecord;
    SecondHeard(n, target, w);
    MetAt([n], target, w);
    var m := New(w.id, w.addr);
    assert Eligible(m, 55);
    var l := Pair(n, m, target);
    var i := Nearest.Spot(IdsOf([n]), w.id, target, 0);
    assert l[i] == m && l[i := Asked(m, 55)] == Pair(n, Asked(m, 55), target);
  }

  lemma FirstAnswers(x: SNode, y: SNode, target: Id, w: Report)
    requires w.id == x.id && x.id != y.id
    ensures InsertRecord(Pair(x, y, target), target, w) == Pair(Updated(x, w), y, target)
  {
    hide Closer;
    CloserTotal(x.id, y.id, target);
    var list := Pair(x, y, target);
    var ids, p := IdsOf(list), if Closer(y.id, x.id, target) then 1 else 0;
    assert ids[p] == x.id && ids[1 - p] == y.id;
    var i := Nearest.Spot(ids, w.id, target, 0);
    assert list[i] == x;
    assert list[i := Updated(x, w)] == Pair(Updated(x, w), y, target);
  }

  lemma NothingToAsk(x: SNode, y: SNode, target: Id, s: State, now: int)
    requires s.list == Pair(x, y, target) && x.pinged < 3 && x.replied && y.pinged < 3 && !y.replied
    requires !Eligible(y, now) && s.stepTime + RETRANSMIT < now
    ensures Acts(s, now) && Step(s, now) == s.(stepTime := now)
  {
    hide Closer;
    assert !AllReplied(s.list, 0, 0);
    assert AskFrom(s.list, 2, 0, now) == s.list && AskFrom(s.list, 1, 0, now) == s.list;
  }

  lemma TwoEvents(s: State, target: Id, v6: bool, e: Event, es: seq<Event>)
    requires |s.list| <= SEARCH_NODES
    ensures Run(s, target, v6, [e] + es) == Run(After(s, target, v6, e), target, v6, es)
  {
    assert ([e] + es)[1..] == es;
  }

  /** The next step acts and has no effect, because the second node was asked after the last
      step, but not by it, and may not be asked again yet. */
  lemma IdleStepExists(target: Id, port: nat, a: Id, b: Id, addr: Table.Addr, token: Option<seq<bv8>>, named: bool)
    requires a != b
    ensures var s := Run(Fresh(port), target, false, Late(a, b, addr, token, named));
      !s.done && Acts(s, 61) && !Step(s, 61).done && Step(s, 61).list == s.list
  {
    hide After, Step, Acts;
    LateRun(target, port, a, b, addr, token, named);
    var answer := Report(a, addr, false, true, token, 55);
    var x, y := Updated(Asked(New(a, addr), 50), answer), Asked(New(b, addr), 55);
    NothingToAsk(x, y, target, State(Pair(x, y, target), port, 50, false), 61);
  }

  lemma LateRun(target: Id, port: nat, a: Id, b: Id, addr: Table.Addr, token: Option<seq<bv8>>, named: bool)
    requires a != b
    ensures var x := Updated(Asked(New(a, addr), 50), Report(a, addr, false, true, token, 55));
      var y := Asked(New(b, addr), 55);
      Run(Fresh(port), target, false, Late(a, b, addr, token, named)) == State(Pair(x, y, target), port, 50, false)
  {
    hide After, Pair, Run, Updated;
    var n := New(a, addr);
    var x, y := Asked(n, 50), Asked(New(b, addr), 55);
    var asked := Report(a, addr, false, false, None, 50);
    var answer := Report(a, addr, false, true, token, 55);
    var s1, s2 := Fresh(port).(list := [n]), State([x], port, 50, false);
    var s4 := s2.(list := Pair(x, y, target));
    var es := [Heard(answer)];
    FirstHeard(port, target, asked);
    FirstAsked(port, n);
    AfterTick(s1, target, 50);
    var rest := SecondEvents(s2, target, x, b, addr, named, es);
    PairAnswers(s4, target, x, y, answer);
    RunOne(s4, target, Heard(answer));
    TwoEvents(s1, target, false, Tick(50), rest + es);
    TwoEvents(Fresh(port), target, false, Heard(asked), [Tick(50)] + (rest + es));
    assert Late(a, b, addr, token, named) == [Heard(asked)] + ([Tick(50)] + (rest + es));
  }

  lemma AfterTick(s: State, target: Id, now: int)
    requires |s.list| <= SEARCH_NODES
    ensures After(s, target, false, Tick(now)) == Step(s, now)
  {}

  lemma RunOne(s: State, target: Id, e: Event)
    requires |s.list| <= SEARCH_NODES
    ensures Run(s, target, false, [e]) == After(s, target, false, e)
  {}

  lemma PairAnswers(s: State, target: Id, x: SNode, y: SNode, w: Report)
    requires s.list == Pair(x, y, target) && w.id == x.id && x.id != y.id && !w.v6
    ensures |s.list| == 2 && After(s, target, false, Heard(w)) == s.(list := Pair(Updated(x, w), y, target))
  {
    hide InsertRecord;
    FirstAnswers(x, y, target, w);
  }

  lemma SecondEvents(s: State, target: Id, x: SNode, b: Id, addr: Table.Addr, named: bool, es: seq<Event>)
    returns (rest: seq<Event>)
    requires s.list == [x] && x.id != b && !Eligible(x, 55)
    ensures var news := Report(b, addr, false, false, None, 55);
      rest == if named then [Named(news, 55)] else [Heard(news), Push(55)]
    ensures var s4 := s.(list := Pair(x, Asked(New(b, addr), 55), target));
      |s4.list| == 2 && Run(s, target, false, rest + es) == Run(s4, target, false, es)
  {
    hide Run, InsertRecord, Met, Pushed;
    var news := Report(b, addr, false, false, None, 55);
    if named {
      rest := [Named(news, 55)];
      SecondNamed(x, target, news);
      TwoEvents(s, target, false, Named(news, 55), es);
    } else {
      rest := [Heard(news), Push(55)];
      var s3 := s.(list := Pair(x, New(b, addr), target));
      SecondHeard(x, target, news);
      SecondAsked(x, New(b, addr), target);
      TwoEvents(s3, target, false, Push(55), es);
      TwoEvents(s, target, false, Heard(news), [Push(55)] + es);
      assert rest + es == [Heard(news)] + ([Push(55)] + es);
    }
  }
}
