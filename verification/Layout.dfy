/** The shape a routing table always has. Splitting only ever cuts the subtree
    that holds our own id, so a table of depth d is the list of the d subtrees
    that branch off our own path, in id order, with our own subtree among them:
    the k-bucket array of Kademlia as dht.c's sorted list of buckets. */
module Layout {
  import opened Numbers
  import opened Ids

  /** Subtree k < d: the ids sharing exactly k leading bits with my;
      subtree d: those sharing at least d. */
  function PrefixOf(my: Id, k: nat, d: nat): Prefix
    requires k <= d <= WIDTH
  {
    if k == d then my[..d] else my[..k] + [!my[k]]
  }

  /** Which of the d + 1 subtrees an id belongs to. */
  function Label(my: Id, id: Id, d: nat): nat {
    Min(Common(id, my), d)
  }

  lemma LabelIsPrefix(my: Id, id: Id, k: nat, d: nat)
    requires k <= d <= WIDTH
    ensures PrefixOf(my, k, d) <= id <==> Label(my, id, d) == k
  {
    var p, c := PrefixOf(my, k, d), Common(id, my);
    assert p <= id <==> forall i :: 0 <= i < |p| ==> id[i] == p[i];
    if k < d {
      assert p[k] == !my[k];
      assert forall i :: 0 <= i < k ==> p[i] == my[i];
    }
  }

  /** How many ids branch off to our left above depth d: the index of our bucket. */
  function OwnIndex(my: Id, d: nat): (o: nat)
    requires d <= WIDTH
    ensures o <= d
  {
    if d == 0 then 0 else OwnIndex(my, d - 1) + if my[d - 1] then 1 else 0
  }

  /** The labels of the buckets from left to right. */
  function Order(my: Id, d: nat): (q: seq<nat>)
    requires d <= WIDTH
    ensures |q| == d + 1
  {
    if d == 0 then [0] else SplitLabel(Order(my, d - 1), OwnIndex(my, d - 1), my[d - 1], d)
  }

  /** Splitting bucket o, labelled d - 1: the half holding my id gets label d. */
  function SplitLabel(q: seq<nat>, o: nat, right: bool, d: nat): (r: seq<nat>)
    requires o < |q| && d > 0
    ensures |r| == |q| + 1
  {
    q[..o] + (if right then [d - 1, d] else [d, d - 1]) + q[o + 1..]
  }

  ghost predicate IsPermutation(q: seq<nat>, d: nat) {
    && |q| == d + 1
    && (forall i :: 0 <= i <= d ==> q[i] <= d)
    && (forall i, j :: 0 <= i < j <= d ==> q[i] != q[j])
    && (forall k: nat :: k <= d ==> k in q)
  }

  lemma SplitLabelIs(q: seq<nat>, o: nat, right: bool, d: nat, i: nat)
    requires o < |q| && d > 0 && i <= |q|
    ensures i < o ==> SplitLabel(q, o, right, d)[i] == q[i]
    ensures i == o ==> SplitLabel(q, o, right, d)[i] == if right then d - 1 else d
    ensures i == o + 1 ==> SplitLabel(q, o, right, d)[i] == if right then d else d - 1
    ensures i > o + 1 ==> SplitLabel(q, o, right, d)[i] == q[i - 1]
  {}

  lemma SplitLabelPermutes(q: seq<nat>, o: nat, right: bool, d: nat)
    requires d > 0 && IsPermutation(q, d - 1) && o < d && q[o] == d - 1
    ensures IsPermutation(SplitLabel(q, o, right, d), d)
  {
    var r := SplitLabel(q, o, right, d);
    forall i: nat | i <= d
      ensures r[i] <= d
    {
      SplitLabelIs(q, o, right, d, i);
    }
    forall i: nat, j: nat | i < j <= d
      ensures r[i] != r[j]
    {
      SplitLabelIs(q, o, right, d, i);
      SplitLabelIs(q, o, right, d, j);
    }
    forall k: nat | k <= d
      ensures k in r
    {
      SplitLabelIs(q, o, right, d, o);
      SplitLabelIs(q, o, right, d, o + 1);
      if k < d - 1 {
        assert k in q;
        var i: nat :| i < |q| && q[i] == k;
        SplitLabelIs(q, o, right, d, if i < o then i else i + 1);
      }
    }
  }

  /** Each label occurs once, and our own bucket is where OwnIndex says. */
  lemma {:induction false} OrderIsPermutation(my: Id, d: nat)
    requires d <= WIDTH
    ensures Order(my, d)[OwnIndex(my, d)] == d
    ensures IsPermutation(Order(my, d), d)
  {
    if d > 0 {
      OrderIsPermutation(my, d - 1);
      SplitLabelPermutes(Order(my, d - 1), OwnIndex(my, d - 1), my[d - 1], d);
      SplitLabelIs(Order(my, d - 1), OwnIndex(my, d - 1), my[d - 1], d, OwnIndex(my, d));
    }
  }

  /** The prefixes of the buckets from left to right. */
  function Subtrees(my: Id, d: nat): (ps: seq<Prefix>)
    requires d <= WIDTH
    ensures |ps| == d + 1
  {
    OrderBound(my, d);
    seq(d + 1, i requires 0 <= i <= d => PrefixOf(my, Order(my, d)[i], d))
  }

  lemma OrderBound(my: Id, d: nat)
    requires d <= WIDTH
    ensures forall i :: 0 <= i <= d ==> Order(my, d)[i] <= d
  {
    OrderIsPermutation(my, d);
  }

  ghost predicate AllBits(p: Prefix, b: bool) {
    forall i :: 0 <= i < |p| ==> p[i] == b
  }

  /** A list of subtrees that covers the id space from end to end without gap or
      overlap. */
  ghost predicate Tiles(ps: seq<Prefix>) {
    && |ps| > 0
    && AllBits(ps[0], false) && AllBits(ps[|ps| - 1], true)
    && (forall i :: 0 <= i < |ps| - 1 ==> Adjacent(ps[i], ps[i + 1]))
  }

  function Cut(ps: seq<Prefix>, o: nat): (r: seq<Prefix>)
    requires o < |ps| && |ps[o]| < WIDTH
    ensures |r| == |ps| + 1
  {
    ps[..o] + [ps[o] + [false], ps[o] + [true]] + ps[o + 1..]
  }

  /** Cutting any one subtree in half keeps the tiling. */
  lemma CutTiles(ps: seq<Prefix>, o: nat)
    requires Tiles(ps) && o < |ps| && |ps[o]| < WIDTH
    ensures Tiles(Cut(ps, o))
  {
    var r, p := Cut(ps, o), ps[o];
    forall i | 0 <= i < |r| - 1
      ensures Adjacent(r[i], r[i + 1])
    {
      if i < o - 1 {
        assert r[i] == ps[i] && r[i + 1] == ps[i + 1];
      } else if i == o - 1 {
        var c: nat :| PartAt(ps[i], p, c);
        assert PartAt(r[i], p + [false], c);
      } else if i == o {
        assert PartAt(p + [false], p + [true], |p|);
      } else if i == o + 1 {
        var c: nat :| PartAt(p, ps[o + 1], c);
        assert PartAt(p + [true], r[i + 1], c);
      } else {
        assert r[i] == ps[i - 1] && r[i + 1] == ps[i];
      }
    }
  }

  lemma OwnSubtree(my: Id, d: nat)
    requires d <= WIDTH
    ensures OwnIndex(my, d) < |Subtrees(my, d)| && Subtrees(my, d)[OwnIndex(my, d)] == my[..d]
  {
    OrderIsPermutation(my, d);
  }

  /** The labels of the other buckets, which a split leaves alone. */
  lemma OtherLabels(my: Id, d: nat, i: nat)
    requires d <= WIDTH && i <= d && i != OwnIndex(my, d)
    ensures Order(my, d)[i] < d
  {
    OrderIsPermutation(my, d);
  }

  lemma NextSubtree(my: Id, d: nat, i: nat)
    requires d < WIDTH && i <= d + 1 && OwnIndex(my, d) <= d && |Subtrees(my, d)[OwnIndex(my, d)]| == d
    requires Subtrees(my, d)[OwnIndex(my, d)] == my[..d]
    ensures Subtrees(my, d + 1)[i] == Cut(Subtrees(my, d), OwnIndex(my, d))[i]
  {
    hide OwnIndex, SplitLabel;
    var q, o := Order(my, d), OwnIndex(my, d);
    SplitLabelIs(q, o, my[d], d + 1, i);
    if i < o {
      OtherLabels(my, d, i);
    } else if i > o + 1 {
      OtherLabels(my, d, i - 1);
    } else {
      assert my[..d + 1] == my[..d] + [my[d]];
    }
  }

  lemma NextSubtrees(my: Id, d: nat)
    requires d < WIDTH
    ensures OwnIndex(my, d) < |Subtrees(my, d)| && Subtrees(my, d)[OwnIndex(my, d)] == my[..d]
    ensures Subtrees(my, d + 1) == Cut(Subtrees(my, d), OwnIndex(my, d))
  {
    hide OwnIndex, Order, Cut, Subtrees;
    OwnSubtree(my, d);
    forall i | 0 <= i <= d + 1
      ensures Subtrees(my, d + 1)[i] == Cut(Subtrees(my, d), OwnIndex(my, d))[i]
    {
      NextSubtree(my, d, i);
    }
  }

  lemma {:induction false} SubtreesTile(my: Id, d: nat)
    requires d <= WIDTH
    ensures Tiles(Subtrees(my, d))
  {
    if d == 0 {
      assert Subtrees(my, 0) == [my[..0]];
    } else {
      SubtreesTile(my, d - 1);
      NextSubtrees(my, d - 1);
      CutTiles(Subtrees(my, d - 1), OwnIndex(my, d - 1));
    }
  }

  // Ranges as the code sees them: bucket i begins at firsts[i] and ends where
  // the next one begins.

  predicate InRange(firsts: seq<Id>, i: nat, id: Id)
    requires i < |firsts|
  {
    !Less(id, firsts[i]) && (i + 1 == |firsts| || Less(id, firsts[i + 1]))
  }

  ghost predicate BeginAt(firsts: seq<Id>, ps: seq<Prefix>) {
    |firsts| == |ps| && forall i :: 0 <= i < |ps| ==> firsts[i] == Pad(ps[i])
  }

  lemma RangesAreSubtrees(firsts: seq<Id>, ps: seq<Prefix>, i: nat, id: Id)
    requires Tiles(ps) && BeginAt(firsts, ps) && i < |ps|
    ensures InRange(firsts, i, id) <==> ps[i] <= id
  {
    if i + 1 == |ps| {
      LastRangeIsSubtree(ps[i], id);
    } else {
      RangeIsSubtree(ps[i], ps[i + 1], id);
    }
  }

  /** In the table of depth d, the range of a bucket holds exactly the ids with
      the bucket's label. */
  lemma RangeIsLabel(my: Id, d: nat, firsts: seq<Id>, i: nat, id: Id)
    requires d <= WIDTH && BeginAt(firsts, Subtrees(my, d)) && i <= d
    ensures InRange(firsts, i, id) <==> Order(my, d)[i] == Label(my, id, d)
  {
    SubtreesTile(my, d);
    RangesAreSubtrees(firsts, Subtrees(my, d), i, id);
    OrderIsPermutation(my, d);
    LabelIsPrefix(my, id, Order(my, d)[i], d);
  }

  /** The bit bucket_middle sets: one past the lower of the lowest 1 bits of the
      bucket's first id and of the next bucket's. */
  function MiddleBit(firsts: seq<Id>, i: nat): (bit: int)
    requires i < |firsts|
    ensures 0 <= bit <= WIDTH
  {
    var bit1 := LowBit(firsts[i]);
    var bit2 := if i + 1 < |firsts| then LowBit(firsts[i + 1]) else -1;
    (if bit1 >= bit2 then bit1 else bit2) + 1
  }

  /** In every tiling that bit is exactly the length of the bucket's prefix. */
  lemma MiddleBitIsDepth(firsts: seq<Id>, ps: seq<Prefix>, i: nat)
    requires Tiles(ps) && BeginAt(firsts, ps) && i < |ps|
    ensures MiddleBit(firsts, i) == |ps[i]|
  {
    var p := ps[i];
    var bit1 := LowBit(Pad(p));
    assert bit1 < |p|;
    if i + 1 < |ps| {
      var q := ps[i + 1];
      var c: nat :| PartAt(p, q, c);
      LowBitIs(Pad(q), c);
      if c < |p| - 1 { LowBitIs(Pad(p), |p| - 1); }
    } else if |p| > 0 {
      LowBitIs(Pad(p), |p| - 1);
    }
  }

  /** bucket_middle's id is the first id of the upper half. */
  function MiddleId(first: Id, bit: nat): Id
    requires bit < WIDTH
  {
    first[bit := true]
  }

  lemma MiddleIdIsHalf(p: Prefix)
    requires |p| < WIDTH
    ensures MiddleId(Pad(p), |p|) == Pad(p + [true])
    ensures Pad(p) == Pad(p + [false])
  {
    PadIs(p + [true], MiddleId(Pad(p), |p|));
    PadIs(p + [false], Pad(p));
  }
}
