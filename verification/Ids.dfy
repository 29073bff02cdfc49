/** Node ids of dht.c as paths of 160 bits, most significant bit first, with the
    comparisons the routing code makes on them. IdBytes.dfy ties these to the
    byte loops. */
module Ids {
  import opened Sets
  import opened Powers

  const WIDTH := 160

  type Id = s: seq<bool> | |s| == WIDTH witness seq(WIDTH, _ => false)

  /** The number of leading bits two equally long bit strings share. */
  function Common(a: seq<bool>, b: seq<bool>): (k: nat)
    requires |a| == |b|
    ensures k <= |a|
    ensures forall i :: 0 <= i < k ==> a[i] == b[i]
    ensures k < |a| ==> a[k] != b[k]
  {
    if |a| == 0 || a[0] != b[0] then 0
    else
      var k := 1 + Common(a[1..], b[1..]);
      assert forall i :: 1 <= i < k ==> a[i] == a[1..][i - 1] && b[i] == b[1..][i - 1];
      k
  }

  lemma CommonIs(a: seq<bool>, b: seq<bool>, k: nat)
    requires |a| == |b| && k <= |a|
    requires forall i :: 0 <= i < k ==> a[i] == b[i]
    requires k < |a| ==> a[k] != b[k]
    ensures Common(a, b) == k && Common(b, a) == k
  {}

  lemma CommonAll(a: seq<bool>, b: seq<bool>)
    requires |a| == |b|
    ensures Common(a, b) == |a| <==> a == b
  {}

  /** id_cmp(a, b) < 0: the byte-wise order is the order of the paths. */
  predicate Less(a: Id, b: Id) {
    var k := Common(a, b);
    k < WIDTH && b[k]
  }

  /** xorcmp(a, b, ref) < 0: at the first bit where they differ, a agrees with ref. */
  predicate Closer(a: Id, b: Id, ref: Id) {
    var k := Common(a, b);
    k < WIDTH && a[k] == ref[k]
  }

  lemma CloserTotal(a: Id, b: Id, ref: Id)
    ensures a == b || Closer(a, b, ref) || Closer(b, a, ref)
    ensures !(Closer(a, b, ref) && Closer(b, a, ref))
    ensures Closer(a, b, ref) ==> a != b
  {
    CommonIs(a, b, Common(a, b));
    CommonAll(a, b);
  }

  lemma CloserTransitive(a: Id, b: Id, c: Id, ref: Id)
    requires Closer(a, b, ref) && Closer(b, c, ref)
    ensures Closer(a, c, ref)
  {
    var j, k := Common(a, b), Common(b, c);
    CommonIs(a, c, if j < k then j else k);
  }

  /** Ids sharing more leading bits with ref are closer to it. */
  lemma MoreCommonIsCloser(a: Id, b: Id, ref: Id)
    requires Common(a, ref) > Common(b, ref)
    ensures Closer(a, b, ref)
  {
    CommonIs(a, b, Common(b, ref));
  }

  /** The index of the last 1 bit, -1 if there is none. */
  function LowBit(s: seq<bool>): (k: int)
    ensures -1 <= k < |s|
    ensures k >= 0 ==> s[k]
    ensures forall i :: k < i < |s| ==> !s[i]
  {
    if |s| == 0 then -1
    else if s[|s| - 1] then |s| - 1
    else LowBit(s[..|s| - 1])
  }

  lemma LowBitIs(s: seq<bool>, k: int)
    requires -1 <= k < |s| && (k >= 0 ==> s[k]) && forall i :: k < i < |s| ==> !s[i]
    ensures LowBit(s) == k
  {}

  /** A subtree of the id space, given by the bits its ids begin with. */
  type Prefix = p: seq<bool> | |p| <= WIDTH

  /** The smallest id of a subtree. */
  function Pad(p: Prefix): (id: Id)
    ensures p <= id && forall i :: |p| <= i < WIDTH ==> !id[i]
  {
    p + seq(WIDTH - |p|, _ => false)
  }

  lemma PadIs(p: Prefix, id: Id)
    requires p <= id && forall i :: |p| <= i < WIDTH ==> !id[i]
    ensures id == Pad(p)
  {}

  lemma PrefixIff(p: Prefix, id: Id)
    ensures p <= id <==> Common(id, Pad(p)) >= |p|
  {
    assert p <= id <==> forall i :: 0 <= i < |p| ==> id[i] == p[i];
  }

  /** Subtree q begins right where subtree p ends: they part at some bit, below
      which p only goes right and q only goes left. */
  ghost predicate Adjacent(p: Prefix, q: Prefix) {
    exists c: nat :: PartAt(p, q, c)
  }

  ghost predicate PartAt(p: Prefix, q: Prefix, c: nat) {
    && c < |p| && c < |q| && p[..c] == q[..c] && !p[c] && q[c]
    && (forall i :: c < i < |p| ==> p[i])
    && (forall i :: c < i < |q| ==> !q[i])
  }

  /** The range from p's smallest id up to the next subtree's smallest id, the
      way in_bucket tests it, holds exactly the ids that begin with p. */
  lemma RangeIsSubtree(p: Prefix, q: Prefix, id: Id)
    requires Adjacent(p, q)
    ensures !Less(id, Pad(p)) && Less(id, Pad(q)) <==> p <= id
  {
    var c: nat :| PartAt(p, q, c);
    if p <= id {
      CommonIs(id, Pad(q), c);
    } else {
      var k := Common(id, Pad(p));
      PrefixIff(p, id);
      if !Less(id, Pad(p)) {
        assert !p[k] && id[k];
        if k < c {
          assert q[k] == q[..c][k] == p[..c][k] == p[k];
          assert forall i :: 0 <= i < k ==> id[i] == p[i] == p[..c][i] == q[..c][i] == q[i];
          CommonIs(id, Pad(q), k);
        } else {
          assert k == c;
          assert forall i :: 0 <= i < c ==> id[i] == p[i] == p[..c][i] == q[..c][i] == q[i];
        }
      }
    }
  }

  /** The same for the last subtree, which has no upper bound to test. */
  lemma LastRangeIsSubtree(p: Prefix, id: Id)
    requires forall i :: 0 <= i < |p| ==> p[i]
    ensures !Less(id, Pad(p)) <==> p <= id
  {
    PrefixIff(p, id);
  }

  lemma NothingBelowZero(id: Id)
    ensures !Less(id, Pad([]))
  {}

  // Counting ids: a subtree of prefix length d holds at most 2^(160 - d) of them.

  lemma {:induction false} SubtreeSize(ids: set<Id>, p: Prefix)
    requires forall id :: id in ids ==> p <= id
    ensures |ids| <= Pow2(WIDTH - |p|)
    decreases WIDTH - |p|
  {
    if |p| == WIDTH {
      assert forall id :: id in ids ==> id == id[..|p|] == p;
      assert ids <= {p};
      SubsetSize(ids, {p});
    } else {
      var left := set id | id in ids && !id[|p|];
      var right := set id | id in ids && id[|p|];
      SubtreeSize(left, p + [false]);
      SubtreeSize(right, p + [true]);
      assert ids == left + right;
    }
  }

  /** Ten ids under one prefix leave at least four bits below it. */
  lemma TenIdsNeedFourBits(ids: set<Id>, p: Prefix)
    requires |ids| >= 10 && forall id :: id in ids ==> p <= id
    ensures |p| <= WIDTH - 4
  {
    SubtreeSize(ids, p);
    assert Pow2(0) == 1 && Pow2(1) == 2 && Pow2(2) == 4 && Pow2(3) == 8;
  }
}
