/** The byte loops of dht.c on 20-byte ids, tied to the bit paths of Ids.dfy. */
module IdBytes {
  import opened Ids

  type Bytes = s: seq<bv8> | |s| == 20 witness seq(20, _ => 0)

  /** 0x80 >> j */
  function Mask(j: nat): (m: bv8)
    requires j < 8
  {
    if j == 0 then 0x80 else if j == 1 then 0x40 else if j == 2 then 0x20 else if j == 3 then 0x10
    else if j == 4 then 0x08 else if j == 5 then 0x04 else if j == 6 then 0x02 else 0x01
  }

  predicate Bit(x: bv8, j: nat)
    requires j < 8
  {
    x & Mask(j) != 0
  }

  /** The path a 20-byte id stands for. */
  function Bits(b: Bytes): (id: Id)
  {
    seq(WIDTH, i requires 0 <= i < WIDTH => Bit(b[i / 8], i % 8))
  }

  lemma BitAt(b: Bytes, i: nat, j: nat)
    requires i < 20 && j < 8
    ensures Bits(b)[8 * i + j] == Bit(b[i], j)
  {
    assert (8 * i + j) / 8 == i && (8 * i + j) % 8 == j;
  }

  lemma ZeroByte(x: bv8)
    ensures x == 0 <==> forall j: nat :: j < 8 ==> !Bit(x, j)
  {
    if forall j: nat :: j < 8 ==> !Bit(x, j) {
      assert !Bit(x, 0) && !Bit(x, 1) && !Bit(x, 2) && !Bit(x, 3);
      assert !Bit(x, 4) && !Bit(x, 5) && !Bit(x, 6) && !Bit(x, 7);
    }
  }

  /** lowbit */
  method LowBitOf(id: Bytes) returns (bit: int)
    ensures bit == LowBit(Bits(id))
  {
    var i := 19;
    while i >= 0 && id[i] == 0
      invariant -1 <= i <= 19
      invariant forall k :: 8 * (i + 1) <= k < WIDTH ==> !Bits(id)[k]
    {
      ZeroByte(id[i]);
      i := i - 1;
    }
    if i < 0 {
      LowBitIs(Bits(id), -1);
      return -1;
    }
    ZeroByte(id[i]);
    var j := 7;
    while j >= 0 && id[i] & Mask(j) == 0
      invariant -1 <= j <= 7
      invariant forall k: nat :: j < k < 8 ==> !Bit(id[i], k)
    {
      j := j - 1;
    }
    assert j >= 0;
    BitAt(id, i, j);
    forall k | 8 * i + j < k < WIDTH
      ensures !Bits(id)[k]
    {
      if k < 8 * (i + 1) { BitAt(id, i, k - 8 * i); }
    }
    LowBitIs(Bits(id), 8 * i + j);
    return 8 * i + j;
  }

  /** The first bit in which two different bytes differ. */
  function FirstDiff(x: bv8, y: bv8): (j: nat)
    requires x != y
    ensures j < 8
  {
    var d := x ^ y;
    if d & 0x80 != 0 then 0 else if d & 0x40 != 0 then 1 else if d & 0x20 != 0 then 2 else if d & 0x10 != 0 then 3
    else if d & 0x08 != 0 then 4 else if d & 0x04 != 0 then 5 else if d & 0x02 != 0 then 6 else 7
  }

  lemma FirstDiffIs(x: bv8, y: bv8)
    requires x != y
    ensures Bit(x, FirstDiff(x, y)) != Bit(y, FirstDiff(x, y))
    ensures forall k: nat :: k < FirstDiff(x, y) ==> Bit(x, k) == Bit(y, k)
  {
    XorBits(x, y);
  }

  lemma XorBits(x: bv8, y: bv8)
    ensures (x ^ y) & 0x80 != 0 <==> (x & 0x80 != 0) != (y & 0x80 != 0)
    ensures (x ^ y) & 0x40 != 0 <==> (x & 0x40 != 0) != (y & 0x40 != 0)
    ensures (x ^ y) & 0x20 != 0 <==> (x & 0x20 != 0) != (y & 0x20 != 0)
    ensures (x ^ y) & 0x10 != 0 <==> (x & 0x10 != 0) != (y & 0x10 != 0)
    ensures (x ^ y) & 0x08 != 0 <==> (x & 0x08 != 0) != (y & 0x08 != 0)
    ensures (x ^ y) & 0x04 != 0 <==> (x & 0x04 != 0) != (y & 0x04 != 0)
    ensures (x ^ y) & 0x02 != 0 <==> (x & 0x02 != 0) != (y & 0x02 != 0)
    ensures (x ^ y) & 0x01 != 0 <==> (x & 0x01 != 0) != (y & 0x01 != 0)
    ensures x != y ==> x ^ y != 0
  {}

  /** memcmp's order on bytes is decided by their first different bit. */
  lemma ByteOrder(x: bv8, y: bv8)
    requires x != y
    ensures x < y <==> Bit(y, FirstDiff(x, y))
  {}

  /** So is the order of the distances to a third byte. */
  lemma ByteDistance(x: bv8, y: bv8, r: bv8)
    requires x != y
    ensures (x ^ r) < (y ^ r) <==> Bit(x, FirstDiff(x, y)) == Bit(r, FirstDiff(x, y))
  {}

  /** Ids that first differ in byte i share 8i bits and those before its first
      different bit. */
  lemma DifferAt(a: Bytes, b: Bytes, i: nat)
    requires i < 20 && a[..i] == b[..i] && a[i] != b[i]
    ensures Common(Bits(a), Bits(b)) == 8 * i + FirstDiff(a[i], b[i]) < WIDTH
    ensures Bits(a)[8 * i + FirstDiff(a[i], b[i])] == Bit(a[i], FirstDiff(a[i], b[i]))
    ensures Bits(b)[8 * i + FirstDiff(a[i], b[i])] == Bit(b[i], FirstDiff(a[i], b[i]))
  {
    hide FirstDiff, Bit;
    var j := FirstDiff(a[i], b[i]);
    FirstDiffIs(a[i], b[i]);
    BitAt(a, i, j);
    BitAt(b, i, j);
    forall k | 0 <= k < 8 * i + j
      ensures Bits(a)[k] == Bits(b)[k]
    {
      if k < 8 * i {
        assert a[k / 8] == a[..i][k / 8] && b[k / 8] == b[..i][k / 8];
      } else {
        BitAt(a, i, k - 8 * i);
        BitAt(b, i, k - 8 * i);
      }
    }
    CommonIs(Bits(a), Bits(b), 8 * i + j);
  }

  lemma SameBytes(a: Bytes, b: Bytes)
    requires a == b
    ensures Common(Bits(a), Bits(b)) == WIDTH
  {
    CommonAll(Bits(a), Bits(b));
  }

  /** common_bits */
  method CommonBits(id1: Bytes, id2: Bytes) returns (bits: nat)
    ensures bits == Common(Bits(id1), Bits(id2))
  {
    hide FirstDiff, Bit, Bits;
    var i := 0;
    while i < 20 && id1[i] == id2[i]
      invariant i <= 20 && id1[..i] == id2[..i]
    {
      i := i + 1;
    }
    if i == 20 {
      assert id1[..20] == id1 && id2[..20] == id2;
      SameBytes(id1, id2);
      return 160;
    }
    DifferAt(id1, id2, i);
    var j := LeadingEqual(id1[i], id2[i]);
    return 8 * i + j;
  }

  /** The end of common_bits: shifting the xor of two bytes left until its top bit
      is set. */
  method LeadingEqual(x: bv8, y: bv8) returns (j: nat)
    requires x != y
    ensures j == FirstDiff(x, y)
  {
    hide FirstDiff;
    var xor := x ^ y;
    j := 0;
    DiffAfter(x, y, 0);
    while xor & 0x80 == 0
      invariant j <= FirstDiff(x, y) && xor == Shifted(x ^ y, j)
      invariant xor & 0x80 == 0 <==> j < FirstDiff(x, y)
      decreases 8 - j
    {
      xor := xor << 1;
      j := j + 1;
      DiffAfter(x, y, j);
    }
  }

  function Shifted(x: bv8, j: nat): bv8 {
    if j == 0 then x else Shifted(x, j - 1) << 1
  }

  /** After j shifts the top bit is what was bit j. */
  lemma ShiftedBit(x: bv8, j: nat)
    requires j < 8
    ensures Shifted(x, j) & 0x80 != 0 <==> Bit(x, j)
  {
    assert Shifted(x, 1) == x << 1 && Shifted(x, 2) == Shifted(x, 1) << 1 && Shifted(x, 3) == Shifted(x, 2) << 1;
    assert Shifted(x, 4) == Shifted(x, 3) << 1 && Shifted(x, 5) == Shifted(x, 4) << 1;
    assert Shifted(x, 6) == Shifted(x, 5) << 1 && Shifted(x, 7) == Shifted(x, 6) << 1;
  }

  lemma DiffAfter(x: bv8, y: bv8, j: nat)
    requires x != y && j <= FirstDiff(x, y)
    ensures Shifted(x ^ y, j) & 0x80 == 0 <==> j < FirstDiff(x, y)
  {
    ShiftedBit(x ^ y, j);
  }

  /** id_cmp: memcmp over the 20 bytes. */
  method IdCmp(id1: Bytes, id2: Bytes) returns (c: int)
    ensures c < 0 <==> Less(Bits(id1), Bits(id2))
    ensures c == 0 <==> id1 == id2
  {
    var i := 0;
    while i < 20 && id1[i] == id2[i]
      invariant i <= 20 && id1[..i] == id2[..i]
    {
      i := i + 1;
    }
    if i == 20 {
      assert id1[..20] == id1 && id2[..20] == id2;
      SameBytes(id1, id2);
      return 0;
    }
    ByteDecides(id1, id2, i);
    return if id1[i] < id2[i] then -1 else 1;
  }

  lemma ByteDecides(id1: Bytes, id2: Bytes, i: nat)
    requires i < 20 && id1[..i] == id2[..i] && id1[i] != id2[i]
    ensures Less(Bits(id1), Bits(id2)) <==> id1[i] < id2[i]
  {
    DifferAt(id1, id2, i);
    ByteOrder(id1[i], id2[i]);
  }

  /** xorcmp */
  method XorCmp(id1: Bytes, id2: Bytes, ref: Bytes) returns (c: int)
    ensures c < 0 <==> Closer(Bits(id1), Bits(id2), Bits(ref))
    ensures c == 0 <==> id1 == id2
  {
    var i := 0;
    while i < 20
      invariant i <= 20 && id1[..i] == id2[..i]
    {
      if id1[i] != id2[i] {
        XorDecides(id1, id2, ref, i);
        return if id1[i] ^ ref[i] < id2[i] ^ ref[i] then -1 else 1;
      }
      i := i + 1;
    }
    assert id1[..20] == id1 && id2[..20] == id2;
    SameBytes(id1, id2);
    return 0;
  }

  /** The first byte that differs decides which id is closer. */
  lemma XorDecides(id1: Bytes, id2: Bytes, ref: Bytes, i: nat)
    requires i < 20 && id1[..i] == id2[..i] && id1[i] != id2[i]
    ensures Closer(Bits(id1), Bits(id2), Bits(ref)) <==> id1[i] ^ ref[i] < id2[i] ^ ref[i]
  {
    DifferAt(id1, id2, i);
    BitAt(ref, i, FirstDiff(id1[i], id2[i]));
    ByteDistance(id1[i], id2[i], ref[i]);
  }

  /** id[bit / 8] |= 0x80 >> (bit % 8), as bucket_middle does it. */
  method SetBit(id: Bytes, bit: nat) returns (r: Bytes)
    requires bit < WIDTH
    ensures Bits(r) == Bits(id)[bit := true]
  {
    r := id[bit / 8 := id[bit / 8] | Mask(bit % 8)];
    forall k | 0 <= k < WIDTH
      ensures Bits(r)[k] == Bits(id)[bit := true][k]
    {
      OrMask(id[bit / 8], bit % 8, k % 8);
    }
  }

  lemma OrMask(x: bv8, j: nat, k: nat)
    requires j < 8 && k < 8
    ensures Bit(x | Mask(j), k) == (j == k || Bit(x, k))
  {
    OrBits(x, Mask(j), Mask(k));
  }

  lemma OrBits(x: bv8, m: bv8, n: bv8)
    ensures (x | m) & n == (x & n) | (m & n)
  {}

  /** bucket_random: the first `bit` bits of first, the rest random. */
  method RandomBelow(first: Bytes, bit: nat, random: Bytes) returns (r: Bytes)
    requires bit <= WIDTH
    ensures Bits(r)[..bit] == Bits(first)[..bit]
    ensures Bits(r)[bit..] == if bit == WIDTH then [] else Bits(random)[bit..]
  {
    if bit >= 160 {
      return first;
    }
    hide Bit, HighMask;
    var q, keep := bit / 8, HighMask(bit % 8);
    r := first[..q] + [(first[q] & keep) | (random[q] & !keep)] + random[q + 1..];
    forall k: nat | k < WIDTH
      ensures Bits(r)[k] == if k < bit then Bits(first)[k] else Bits(random)[k]
    {
      MixedBit(first, random, r, q, bit % 8, k);
    }
  }

  lemma MixedBit(first: Bytes, random: Bytes, r: Bytes, q: nat, j: nat, k: nat)
    requires q < 20 && j < 8 && k < WIDTH
    requires r == first[..q] + [(first[q] & HighMask(j)) | (random[q] & !HighMask(j))] + random[q + 1..]
    ensures Bit(r[k / 8], k % 8) == if k < 8 * q + j then Bit(first[k / 8], k % 8) else Bit(random[k / 8], k % 8)
  {
    hide Bit, HighMask;
    if k / 8 == q { MixBits(first[q], random[q], j, k % 8); }
  }

  /** 0xFF00 >> j, cut to a byte: the j highest bits. Its complement is 0xFF >> j. */
  function HighMask(j: nat): bv8
    requires j < 8
  {
    if j == 0 then 0x00 else if j == 1 then 0x80 else if j == 2 then 0xC0 else if j == 3 then 0xE0
    else if j == 4 then 0xF0 else if j == 5 then 0xF8 else if j == 6 then 0xFC else 0xFE
  }

  lemma MixBits(x: bv8, y: bv8, j: nat, k: nat)
    requires j < 8 && k < 8
    ensures Bit((x & HighMask(j)) | (y & !HighMask(j)), k) == if k < j then Bit(x, k) else Bit(y, k)
  {
    hide HighMask, Mask;
    HighMaskBit(j, k);
    MaskMixes(x, y, HighMask(j), Mask(k), k < j);
  }

  lemma MaskMixes(x: bv8, y: bv8, h: bv8, m: bv8, below: bool)
    requires h & m == if below then m else 0
    ensures ((x & h) | (y & !h)) & m == if below then x & m else y & m
  {
    if below { MaskKeeps(x, y, h, m); } else { MaskDrops(x, y, h, m); }
  }

  lemma HighMaskBit(j: nat, k: nat)
    requires j < 8 && k < 8
    ensures HighMask(j) & Mask(k) == if k < j then Mask(k) else 0
  {}

  lemma MaskKeeps(x: bv8, y: bv8, h: bv8, m: bv8)
    requires h & m == m
    ensures ((x & h) | (y & !h)) & m == x & m
  {}

  lemma MaskDrops(x: bv8, y: bv8, h: bv8, m: bv8)
    requires h & m == 0
    ensures ((x & h) | (y & !h)) & m == y & m
  {}
}
