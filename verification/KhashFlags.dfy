/** The packed flag words of khash.h: two bits a bucket, sixteen buckets a 32-bit
    word. The high bit of a pair means "never used", the low bit "deleted". */
module KhashFlags {

  /** Number of words needed for m buckets (__ac_fsize). */
  function FSize(m: nat): nat {
    if m < 16 then 1 else m / 16
  }

  /** (i & 0xf) << 1, the position of bucket i's pair inside its word. */
  function Shift(i: nat): (s: bv32)
    ensures s < 32 && s & 1 == 0
  {
    var r := i % 16;
    if r == 0 then 0 else if r == 1 then 2 else if r == 2 then 4 else if r == 3 then 6
    else if r == 4 then 8 else if r == 5 then 10 else if r == 6 then 12 else if r == 7 then 14
    else if r == 8 then 16 else if r == 9 then 18 else if r == 10 then 20 else if r == 11 then 22
    else if r == 12 then 24 else if r == 13 then 26 else if r == 14 then 28 else 30
  }

  lemma ShiftsDiffer(i: nat, j: nat)
    requires i != j && i / 16 == j / 16
    ensures Shift(i) != Shift(j)
  {
    assert i % 16 != j % 16;
  }

  /** The pair of bits of word w at position s. */
  function Pair(w: bv32, s: bv32): bv32
    requires s < 32
  {
    (w >> s) & 3
  }

  function PairAt(flags: seq<bv32>, i: nat): bv32
    requires i / 16 < |flags|
  {
    Pair(flags[i / 16], Shift(i))
  }

  predicate IsEmpty(flags: seq<bv32>, i: nat)
    requires i / 16 < |flags|
  {
    PairAt(flags, i) & 2 != 0
  }

  predicate IsDel(flags: seq<bv32>, i: nat)
    requires i / 16 < |flags|
  {
    PairAt(flags, i) & 1 != 0
  }

  predicate IsEither(flags: seq<bv32>, i: nat)
    requires i / 16 < |flags|
  {
    PairAt(flags, i) != 0
  }

  // Seen through a pair, | and & act pair by pair, and a mask moved to pair s is
  // seen in full by pair s and not at all by any other pair t.

  lemma OrPair(a: bv32, b: bv32, t: bv32)
    requires t < 32 && t & 1 == 0
    ensures Pair(a | b, t) == Pair(a, t) | Pair(b, t)
  {}

  lemma AndPair(a: bv32, b: bv32, t: bv32)
    requires t < 32 && t & 1 == 0
    ensures Pair(a & b, t) == Pair(a, t) & Pair(b, t)
  {}

  lemma MaskElsewhere(s: bv32, t: bv32)
    requires s < 32 && t < 32 && s & 1 == 0 && t & 1 == 0 && s != t
    ensures Pair((1 as bv32) << s, t) == 0
    ensures Pair(!((2 as bv32) << s), t) == 3
    ensures Pair(!((3 as bv32) << s), t) == 3
  {}

  lemma MaskHere(s: bv32)
    requires s < 32 && s & 1 == 0
    ensures Pair((1 as bv32) << s, s) == 1
    ensures Pair(!((2 as bv32) << s), s) == 1
    ensures Pair(!((3 as bv32) << s), s) == 0
  {}

  lemma PairIs(w: bv32, t: bv32)
    requires t < 32
    ensures Pair(w, t) | 0 == Pair(w, t) && Pair(w, t) & 3 == Pair(w, t) && Pair(w, t) & 0 == 0
  {}

  /** Bucket i's pair became p and no other pair changed. */
  ghost predicate PairSet(before: seq<bv32>, after: seq<bv32>, i: nat, p: bv32) {
    && |after| == |before|
    && i / 16 < |after| && PairAt(after, i) == p
    && forall j: nat :: j / 16 < |before| && j != i ==> PairAt(after, j) == PairAt(before, j)
  }

  /** Word v is word w with p in the pair at s. */
  ghost predicate WordSet(w: bv32, v: bv32, s: bv32, p: bv32)
    requires s < 32
  {
    && Pair(v, s) == p
    && forall t: bv32 :: t < 32 && t & 1 == 0 && t != s ==> Pair(v, t) == Pair(w, t)
  }

  lemma OrElsewhere(w: bv32, mask: bv32, t: bv32)
    requires t < 32 && t & 1 == 0 && Pair(mask, t) == 0
    ensures Pair(w | mask, t) == Pair(w, t)
  {
    OrPair(w, mask, t);
    PairIs(w, t);
  }

  lemma AndElsewhere(w: bv32, mask: bv32, t: bv32)
    requires t < 32 && t & 1 == 0 && Pair(mask, t) == 3
    ensures Pair(w & mask, t) == Pair(w, t)
  {
    AndPair(w, mask, t);
    PairIs(w, t);
  }

  lemma OrHere(w: bv32, mask: bv32, s: bv32, p: bv32)
    requires s < 32 && s & 1 == 0 && Pair(mask, s) == p
    ensures Pair(w | mask, s) == Pair(w, s) | p
  {
    OrPair(w, mask, s);
  }

  lemma AndHere(w: bv32, mask: bv32, s: bv32, p: bv32)
    requires s < 32 && s & 1 == 0 && Pair(mask, s) == p
    ensures Pair(w & mask, s) == Pair(w, s) & p
  {
    AndPair(w, mask, s);
  }

  method OrDel(w: bv32, s: bv32) returns (v: bv32)
    requires s < 32 && s & 1 == 0
    ensures WordSet(w, v, s, Pair(w, s) | 1)
  {
    hide Pair;
    var mask := (1 as bv32) << s;
    v := w | mask;
    MaskHere(s);
    OrHere(w, mask, s, 1);
    forall t: bv32 | t < 32 && t & 1 == 0 && t != s
      ensures Pair(v, t) == Pair(w, t)
    {
      MaskElsewhere(s, t);
      OrElsewhere(w, mask, t);
    }
  }

  method ClearEmpty(w: bv32, s: bv32) returns (v: bv32)
    requires s < 32 && s & 1 == 0
    ensures WordSet(w, v, s, Pair(w, s) & 1)
  {
    hide Pair;
    var mask := !((2 as bv32) << s);
    v := w & mask;
    MaskHere(s);
    AndHere(w, mask, s, 1);
    forall t: bv32 | t < 32 && t & 1 == 0 && t != s
      ensures Pair(v, t) == Pair(w, t)
    {
      MaskElsewhere(s, t);
      AndElsewhere(w, mask, t);
    }
  }

  method ClearBoth(w: bv32, s: bv32) returns (v: bv32)
    requires s < 32 && s & 1 == 0
    ensures WordSet(w, v, s, 0)
  {
    hide Pair;
    var mask := !((3 as bv32) << s);
    v := w & mask;
    MaskHere(s);
    AndHere(w, mask, s, 0);
    PairIs(w, s);
    forall t: bv32 | t < 32 && t & 1 == 0 && t != s
      ensures Pair(v, t) == Pair(w, t)
    {
      MaskElsewhere(s, t);
      AndElsewhere(w, mask, t);
    }
  }

  lemma UpdateWord(flags: seq<bv32>, i: nat, v: bv32, p: bv32)
    requires i / 16 < |flags| && WordSet(flags[i / 16], v, Shift(i), p)
    ensures PairSet(flags, flags[i / 16 := v], i, p)
  {
    forall j: nat | j / 16 < |flags| && j != i
      ensures PairAt(flags[i / 16 := v], j) == PairAt(flags, j)
    {
      if j / 16 == i / 16 { ShiftsDiffer(i, j); }
    }
  }

  /** __ac_set_isdel_true. */
  method SetIsDelTrue(flags: array<bv32>, i: nat)
    requires i / 16 < flags.Length
    modifies flags
    ensures PairSet(old(flags[..]), flags[..], i, PairAt(old(flags[..]), i) | 1)
  {
    var v := OrDel(flags[i / 16], Shift(i));
    UpdateWord(flags[..], i, v, PairAt(flags[..], i) | 1);
    flags[i / 16] := v;
  }

  /** __ac_set_isempty_false. */
  method SetIsEmptyFalse(flags: array<bv32>, i: nat)
    requires i / 16 < flags.Length
    modifies flags
    ensures PairSet(old(flags[..]), flags[..], i, PairAt(old(flags[..]), i) & 1)
  {
    var v := ClearEmpty(flags[i / 16], Shift(i));
    UpdateWord(flags[..], i, v, PairAt(flags[..], i) & 1);
    flags[i / 16] := v;
  }

  /** __ac_set_isboth_false. */
  method SetIsBothFalse(flags: array<bv32>, i: nat)
    requires i / 16 < flags.Length
    modifies flags
    ensures PairSet(old(flags[..]), flags[..], i, 0)
  {
    var v := ClearBoth(flags[i / 16], Shift(i));
    UpdateWord(flags[..], i, v, 0);
    flags[i / 16] := v;
  }

  /** A flag array filled with the byte 0xaa marks every bucket empty. */
  lemma AllEmpty(flags: seq<bv32>)
    requires forall k :: 0 <= k < |flags| ==> flags[k] == 0xaaaa_aaaa
    ensures forall i: nat :: i / 16 < |flags| ==> PairAt(flags, i) == 2
  {
    forall i: nat | i / 16 < |flags|
      ensures PairAt(flags, i) == 2
    {
      EmptyWord(Shift(i));
    }
  }

  lemma EmptyWord(s: bv32)
    requires s < 32 && s & 1 == 0
    ensures Pair(0xaaaa_aaaa, s) == 2
  {}
}
