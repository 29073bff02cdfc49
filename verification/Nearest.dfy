/** Bounded lists of the ids nearest to a target, as insert_search_node (14) and
    insert_closest_node (8) of dht.c build them one candidate at a time. */
module Nearest {
  import opened Sets
  import opened Numbers
  import opened Ids

  /** Where the scan of both routines stops: at the id itself, or before the first
      entry that is farther away, or at the end. */
  function Spot(list: seq<Id>, id: Id, target: Id, i: nat): (r: nat)
    requires i <= |list|
    ensures i <= r <= |list|
    ensures forall k :: i <= k < r ==> list[k] != id && !Closer(id, list[k], target)
    ensures r < |list| ==> list[r] == id || Closer(id, list[r], target)
    decreases |list| - i
  {
    if i == |list| || list[i] == id || Closer(id, list[i], target) then i else Spot(list, id, target, i + 1)
  }

  /** Inserting a candidate into a list that keeps at most cap ids. */
  function Insert(list: seq<Id>, id: Id, target: Id, cap: nat): (r: seq<Id>)
    requires |list| <= cap
    ensures |r| <= cap
  {
    var i := Spot(list, id, target, 0);
    if i < |list| && list[i] == id then list
    else (list[..i] + [id] + list[i..])[..Min(|list| + 1, cap)]
  }

  function Offer(list: seq<Id>, ids: seq<Id>, target: Id, cap: nat): (r: seq<Id>)
    requires |list| <= cap
    ensures |r| <= cap
    decreases |ids|
  {
    if ids == [] then list else Offer(Insert(list, ids[0], target, cap), ids[1..], target, cap)
  }

  function IdSet(ids: seq<Id>): set<Id> { set x | x in ids }

  ghost predicate Sorted(list: seq<Id>, target: Id) {
    forall i, j :: 0 <= i < j < |list| ==> Closer(list[i], list[j], target)
  }

  /** The list is the cap nearest of the given ids, nearest first; there is only
      one such list, see NearestUnique. */
  ghost predicate IsNearest(list: seq<Id>, ids: set<Id>, target: Id, cap: nat) {
    && Sorted(list, target)
    && (forall x :: x in list ==> x in ids)
    && |list| <= cap
    && (forall x :: x in ids && x !in list ==>
          |list| == cap && forall k :: 0 <= k < |list| ==> Closer(list[k], x, target))
  }

  lemma SpotSplits(list: seq<Id>, id: Id, target: Id)
    requires Sorted(list, target)
    ensures var i := Spot(list, id, target, 0);
      && (forall k :: 0 <= k < i ==> Closer(list[k], id, target))
      && (i == |list| || list[i] != id ==> forall k :: i <= k < |list| ==> Closer(id, list[k], target))
  {
    var i := Spot(list, id, target, 0);
    forall k | 0 <= k < i
      ensures Closer(list[k], id, target)
    {
      CloserTotal(id, list[k], target);
    }
    if i < |list| && list[i] != id {
      forall k | i <= k < |list|
        ensures Closer(id, list[k], target)
      {
        if i < k { CloserTransitive(id, list[i], list[k], target); }
      }
    }
  }

  /** The list before it is cut to its bound. */
  function Widened(list: seq<Id>, id: Id, i: nat): (r: seq<Id>)
    requires i <= |list|
    ensures |r| == |list| + 1
    ensures forall k :: 0 <= k < |r| ==> r[k] == (if k < i then list[k] else if k == i then id else list[k - 1])
  {
    list[..i] + [id] + list[i..]
  }

  lemma WidenedSorted(list: seq<Id>, id: Id, i: nat, target: Id)
    requires Sorted(list, target) && i <= |list|
    requires forall k :: 0 <= k < i ==> Closer(list[k], id, target)
    requires forall k :: i <= k < |list| ==> Closer(id, list[k], target)
    ensures Sorted(Widened(list, id, i), target)
  {}

  lemma InsertSorted(list: seq<Id>, id: Id, target: Id, cap: nat)
    requires Sorted(list, target) && |list| <= cap
    ensures Sorted(Insert(list, id, target, cap), target)
  {
    hide Closer, Spot;
    var i := Spot(list, id, target, 0);
    SpotSplits(list, id, target);
    if i == |list| || list[i] != id {
      WidenedSorted(list, id, i, target);
      assert Widened(list, id, i) == list[..i] + [id] + list[i..];
    }
  }

  lemma WidenedMembers(list: seq<Id>, id: Id, i: nat, x: Id)
    requires i <= |list|
    ensures x in Widened(list, id, i) <==> x == id || x in list
  {
    var w := Widened(list, id, i);
    assert w[i] == id;
    if x in list {
      var k :| 0 <= k < |list| && list[k] == x;
      assert w[if k < i then k else k + 1] == x;
    }
  }

  /** One more candidate: the list is again the nearest of all offered so far. */
  lemma InsertNearest(list: seq<Id>, ids: set<Id>, id: Id, target: Id, cap: nat)
    requires IsNearest(list, ids, target, cap) && 0 < cap
    ensures IsNearest(Insert(list, id, target, cap), ids + {id}, target, cap)
  {
    hide Closer, Spot;
    var i := Spot(list, id, target, 0);
    SpotSplits(list, id, target);
    if i == |list| || list[i] != id {
      var w := Widened(list, id, i);
      WidenedSorted(list, id, i, target);
      assert w == list[..i] + [id] + list[i..];
      CutNearest(list, ids, id, target, cap, i);
    }
  }

  lemma CutNearest(list: seq<Id>, ids: set<Id>, id: Id, target: Id, cap: nat, i: nat)
    requires IsNearest(list, ids, target, cap) && 0 < cap && i <= |list| && Sorted(Widened(list, id, i), target)
    ensures IsNearest(Widened(list, id, i)[..Min(|list| + 1, cap)], ids + {id}, target, cap)
  {
    hide Closer;
    var w := Widened(list, id, i);
    var r := w[..Min(|list| + 1, cap)];
    forall x | x in r
      ensures x in ids + {id}
    {
      WidenedMembers(list, id, i, x);
    }
    forall x | x in ids + {id} && x !in r
      ensures |r| == cap && forall k :: 0 <= k < |r| ==> Closer(r[k], x, target)
    {
      CutOut(list, ids, id, target, cap, i, x);
    }
  }

  /** An id that is not kept is farther than everything that is. */
  lemma CutOut(list: seq<Id>, ids: set<Id>, id: Id, target: Id, cap: nat, i: nat, x: Id)
    requires IsNearest(list, ids, target, cap) && 0 < cap && i <= |list| && Sorted(Widened(list, id, i), target)
    requires x in ids + {id} && x !in Widened(list, id, i)[..Min(|list| + 1, cap)]
    ensures |list| == cap && forall k :: 0 <= k < cap ==> Closer(Widened(list, id, i)[k], x, target)
  {
    hide Closer;
    var w := Widened(list, id, i);
    WidenedMembers(list, id, i, x);
    var n := Min(|list| + 1, cap);
    var kept := w[..n];
    assert n == |w| ==> kept == w;
    if x in w {
      var m: nat :| m < |w| && w[m] == x;
      InTake(w, m, n);
    } else {
      BeforeId(w, i, id, list, x, target);
    }
  }

  lemma InTake(w: seq<Id>, m: nat, n: nat)
    requires m < |w| && n <= |w|
    ensures m < n ==> w[m] in w[..n]
  {
    if m < n { assert w[..n][m] == w[m]; }
  }

  lemma BeforeId(w: seq<Id>, i: nat, id: Id, list: seq<Id>, x: Id, target: Id)
    requires i <= |list| && w == Widened(list, id, i) && Sorted(w, target)
    requires forall k :: 0 <= k < |list| ==> Closer(list[k], x, target)
    ensures forall k :: 0 <= k < |list| ==> Closer(w[k], x, target)
  {
    forall k | 0 <= k < |list|
      ensures Closer(w[k], x, target)
    {
      if k == i {
        assert w[i + 1] == list[i];
        CloserTransitive(w[i], w[i + 1], x, target);
      }
    }
  }

  /** Streaming: whatever is offered in whatever order, with repetitions, the list
      is the nearest of everything offered. */
  lemma {:induction false} OfferNearest(list: seq<Id>, seen: set<Id>, ids: seq<Id>, target: Id, cap: nat)
    requires |list| <= cap && IsNearest(list, seen, target, cap) && 0 < cap
    ensures IsNearest(Offer(list, ids, target, cap), seen + IdSet(ids), target, cap)
    decreases |ids|
  {
    hide IsNearest, Insert;
    if ids == [] {
      assert seen + (set x | x in ids) == seen;
    } else {
      InsertNearest(list, seen, ids[0], target, cap);
      OfferNearest(Insert(list, ids[0], target, cap), seen + {ids[0]}, ids[1..], target, cap);
      assert seen + {ids[0]} + (set x | x in ids[1..]) == seen + (set x | x in ids);
    }
  }

  lemma NearestSize(list: seq<Id>, ids: set<Id>, target: Id, cap: nat)
    requires IsNearest(list, ids, target, cap)
    ensures |list| == Min(|ids|, cap)
  {
    var members := set x | x in list;
    SortedDistinct(list, target);
    SubsetSize(members, ids);
    if |list| < cap {
      assert members == ids;
    }
  }

  lemma {:induction false} SortedDistinct(list: seq<Id>, target: Id)
    requires Sorted(list, target)
    ensures |set x | x in list| == |list|
  {
    if list != [] {
      var k := |list| - 1;
      SortedDistinct(list[..k], target);
      forall i | 0 <= i < k
        ensures list[i] != list[k]
      {
        CloserTotal(list[i], list[k], target);
      }
      assert (set x | x in list) == (set x | x in list[..k]) + {list[k]};
    }
  }

  lemma {:induction false} NearestUnique(a: seq<Id>, b: seq<Id>, ids: set<Id>, target: Id, cap: nat)
    requires IsNearest(a, ids, target, cap) && IsNearest(b, ids, target, cap)
    ensures a == b
  {
    NearestSize(a, ids, target, cap);
    NearestSize(b, ids, target, cap);
    SameFrom(a, b, ids, target, cap, |a|);
  }

  lemma {:induction false} SameFrom(a: seq<Id>, b: seq<Id>, ids: set<Id>, target: Id, cap: nat, n: nat)
    requires IsNearest(a, ids, target, cap) && IsNearest(b, ids, target, cap) && |a| == |b| >= n
    ensures a[..n] == b[..n]
  {
    if n > 0 {
      SameFrom(a, b, ids, target, cap, n - 1);
      var x, y := a[n - 1], b[n - 1];
      NotBefore(a, b, ids, target, cap, n - 1);
      NotBefore(b, a, ids, target, cap, n - 1);
      CloserTotal(x, y, target);
    }
  }

  lemma NotBefore(a: seq<Id>, b: seq<Id>, ids: set<Id>, target: Id, cap: nat, n: nat)
    requires IsNearest(a, ids, target, cap) && IsNearest(b, ids, target, cap) && |a| == |b| > n && a[..n] == b[..n]
    ensures !Closer(a[n], b[n], target)
  {
    var x := a[n];
    assert x in a;
    if x in b {
      var k :| 0 <= k < |b| && b[k] == x;
      if k < n { assert a[k] == a[..n][k] == b[..n][k] == x; CloserTotal(a[k], a[n], target); }
      if k > n { CloserTotal(b[n], b[k], target); }
      if k == n { CloserTotal(x, x, target); }
    } else {
      assert Closer(b[n], x, target);
      CloserTotal(b[n], x, target);
    }
  }
}
