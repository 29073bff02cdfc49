/** The open-addressing hash table of khash.h: probing, tombstones, packed flags
    and the rehash that reads the old table and writes the new one in the same
    arrays. Allocation always succeeds, so no operation returns -1. */
module Khash {
  import opened Powers
  import opened KhashMath
  import opened KhashFlags
  import opened KhashTable

  const MAX_BUCKETS := 0x8000_0000
  const WORD := 0x1_0000_0000

  /** The smallest power of two that is at least x. */
  function CeilPow2(x: nat, e: nat): (p: nat)
    decreases x - Pow2(e)
  {
    if x <= Pow2(e) then Pow2(e) else CeilPow2(x, e + 1)
  }

  /** kroundup32 on a 32-bit word: zero, and anything over 2^31, wraps to zero. */
  function RoundUp32(x: nat): nat {
    if x == 0 || x > MAX_BUCKETS then 0 else CeilPow2(x, 0)
  }

  /** The bucket count that kh_resize really works with. */
  function NewBuckets(x: nat): nat {
    if RoundUp32(x) < 4 then 4 else RoundUp32(x)
  }

  /** (khint_t)(n * 0.77 + 0.5) */
  function Upper(n: nat): nat {
    (77 * n + 50) / 100
  }

  lemma Pow2Of31()
    ensures Pow2(31) == MAX_BUCKETS
  {
    assert Pow2(8) == 256;
    assert Pow2(16) == 0x1_0000;
    assert Pow2(24) == 0x100_0000;
  }

  lemma {:induction false} Pow2Grows(d: nat, e: nat)
    requires d <= e
    ensures Pow2(d) <= Pow2(e)
    ensures d < e ==> 2 * Pow2(d) <= Pow2(e)
    decreases e - d
  {
    if d < e { Pow2Grows(d, e - 1); }
  }

  lemma {:induction false} CeilPow2Is(x: nat, e: nat) returns (f: nat)
    requires e <= 31 && x <= MAX_BUCKETS
    ensures e <= f <= 31 && CeilPow2(x, e) == Pow2(f) && x <= Pow2(f)
    ensures f > e ==> Pow2(f) < 2 * x
    decreases 31 - e
  {
    Pow2Of31();
    if x <= Pow2(e) {
      f := e;
    } else {
      f := CeilPow2Is(x, e + 1);
    }
  }

  /** kh_resize always works with a power of two from 4 to 2^31, which is the
      least one that is not below the request when the request is in range; a request that
      is not gets the smallest table. */
  lemma NewBucketsIs(x: nat) returns (e: nat)
    ensures 2 <= e <= 31 && NewBuckets(x) == Pow2(e) <= MAX_BUCKETS
    ensures 0 < x <= MAX_BUCKETS ==> x <= NewBuckets(x) && (NewBuckets(x) > 4 ==> NewBuckets(x) < 2 * x)
    ensures x == 0 || x > MAX_BUCKETS ==> NewBuckets(x) == 4
  {
    Pow2Of31();
    assert Pow2(2) == 4;
    if RoundUp32(x) < 4 {
      e := 2;
      if 0 < x <= MAX_BUCKETS { var f := CeilPow2Is(x, 0); }
    } else {
      e := CeilPow2Is(x, 0);
      Pow2Grows(e, 31);
      if e < 2 { Pow2Grows(e, 1); }
    }
  }

  /** The bucket count after kh_put made room: the same if more than half of the buckets are
      not live, else twice as many, and four at the start. */
  function RoomyBuckets(n: nat, size: nat): nat {
    if n > 2 * size then n else if n == 0 then 4 else 2 * n
  }

  /** The bound is 77 percent of the bucket count, rounded to the nearest number. */
  lemma UpperIsRounded(n: nat)
    ensures -50 < 100 * Upper(n) - 77 * n <= 50
  {}

  /** Which table kh_put asks for: the same size when more than half of a full
      table is tombstones, else twice the size; both leave room for a new key. */
  lemma RoomSizes(n: nat, size: nat)
    requires n == 0 || exists e: nat :: 2 <= e <= 31 && n == Pow2(e)
    requires size <= n
    ensures n > 2 * size ==> NewBuckets(n - 1) == n && size < Upper(n)
    ensures n <= 2 * size && n < MAX_BUCKETS ==>
      NewBuckets(n + 1) == (if n == 0 then 4 else 2 * n) && size < Upper(NewBuckets(n + 1))
    ensures n == MAX_BUCKETS && n <= 2 * size ==> size >= Upper(NewBuckets(n + 1))
    ensures n <= MAX_BUCKETS && (n > 0 ==> n >= 4)
  {
    if n == 0 {
      assert CeilPow2(1, 0) == 1;
    } else {
      var e: nat :| 2 <= e <= 31 && n == Pow2(e);
      RoomNear(n, e);
    }
  }

  lemma RoomNear(n: nat, e: nat)
    requires 2 <= e <= 31 && n == Pow2(e)
    ensures 4 <= n <= MAX_BUCKETS && NewBuckets(n - 1) == n
    ensures n < MAX_BUCKETS ==> NewBuckets(n + 1) == 2 * n
  {
    Pow2Of31();
    assert Pow2(2) == 4;
    Pow2Grows(2, e);
    Pow2Grows(e, 31);
    var f := NewBucketsIs(n - 1);
    OnlyPow2Near(n - 1, e, f);
    if n < MAX_BUCKETS {
      var g := NewBucketsIs(n + 1);
      assert Pow2(e + 1) == 2 * n;
      OnlyPow2Near(n + 1, e + 1, g);
    }
  }

  lemma OnlyPow2Near(x: nat, e: nat, f: nat)
    requires x <= Pow2(e) < 2 * x || (Pow2(e) == 4 && x <= 4)
    requires x <= Pow2(f) < 2 * x || (Pow2(f) == 4 && x <= 4)
    requires x >= 3
    ensures Pow2(e) == Pow2(f)
  {
    if e < f { Pow2Grows(e, f); }
    if f < e { Pow2Grows(f, e); }
  }

  lemma FlagWords(e: nat)
    requires e >= 2
    ensures Pow2(e) <= 16 * FSize(Pow2(e))
  {
    if e >= 4 {
      assert Pow2(e - 2) == 4 * Pow2(e - 4);
    } else {
      Pow2Grows(e, 3);
    }
  }

  /** The bit-smearing of kroundup32, as the macro writes it. */
  function Smear(x: bv32): bv32 {
    var a := x - 1;
    var b := a | (a >> 1);
    var c := b | (b >> 2);
    var d := c | (c >> 4);
    var f := d | (d >> 8);
    (f | (f >> 16)) + 1
  }

  /** It yields a single bit, at least x and less than twice x, or wraps to 0. */
  lemma SmearIsCeiling(x: bv32)
    ensures x == 0 || x > 0x8000_0000 ==> Smear(x) == 0
    ensures 0 < x <= 0x8000_0000 ==>
      Smear(x) & (Smear(x) - 1) == 0 && Smear(x) >= x && (Smear(x) >> 1) < x
  {}

  /** __ac_isempty and __ac_isdel of one bucket. */
  method ReadFlags(flags: array<bv32>, n: nat, i: nat) returns (empty: bool, deleted: bool)
    requires i < n <= 16 * flags.Length && Slots(flags[..], n)[i] != Clash
    ensures empty <==> Slots(flags[..], n)[i] == Free
    ensures deleted <==> Slots(flags[..], n)[i] == Tomb
  {
    SlotTests(flags[..], n, i);
    empty, deleted := IsEmpty(flags[..], i), IsDel(flags[..], i);
  }

  /** The probe loop of kh_get and kh_put: it stops at a never-used bucket, at the
      key, or when it is back where it began. `site` is what kh_put keeps of it:
      the tombstone met last, or n. */
  method Walk<K(!new, ==)>(hash: K -> nat, keys: array<K>, flags: array<bv32>, n: nat, key: K, ghost e: nat)
    returns (i: nat, wrapped: bool, site: nat, ghost step: nat)
    requires n == Pow2(e) == keys.Length && n <= 16 * flags.Length
    requires forall j :: 0 <= j < n ==> Slots(flags[..], n)[j] != Clash
    ensures Walking(hash, keys[..], Slots(flags[..], n), key, step, i, site)
    ensures wrapped ==> 0 < step && i == Probe(hash(key), n, 0)
    ensures !wrapped ==> Slots(flags[..], n)[i] == Free || (Slots(flags[..], n)[i] == Used && keys[i] == key)
  {
    hide Slots, Pow2;
    ghost var ks, slots := keys[..], Slots(flags[..], n);
    i, site, wrapped := hash(key) % n, n, false;
    var last, stride := i, 0;
    var empty, deleted := ReadFlags(flags, n, i);
    while !empty && (deleted || keys[i] != key)
      invariant stride < 2 * n - 1 && Walking(hash, ks, slots, key, stride, i, site)
      invariant (empty <==> slots[i] == Free) && (deleted <==> slots[i] == Tomb)
      decreases 2 * n - stride
    {
      WalkOn(hash, ks, slots, key, e, stride, i, site);
      if deleted { site := i; }
      stride := stride + 1;
      i := (i + stride) % n;
      if i == last {
        return i, true, site, stride;
      }
      empty, deleted := ReadFlags(flags, n, i);
    }
    step := stride;
  }

  /** The inner loop of the kick-out: the first never-used bucket on the walk
      from hash h in the new table. */
  method FindFree(newFlags: array<bv32>, n: nat, h: nat, ghost e: nat) returns (i: nat)
    requires n == Pow2(e) <= 16 * newFlags.Length
    requires |Occupied(Slots(newFlags[..], n))| < n
    requires forall j :: 0 <= j < n ==> Slots(newFlags[..], n)[j] != Clash
    ensures i < n && Slots(newFlags[..], n)[i] == Free && Reachable(Slots(newFlags[..], n), h, i)
  {
    hide Slots, Occupied, Pow2, IsEmpty;
    ghost var slots := Slots(newFlags[..], n);
    ghost var last := FreeStep(slots, h, e);
    var step := 0;
    i := h % n;
    SlotTests(newFlags[..], n, i);
    while !IsEmpty(newFlags[..], i)
      invariant step <= last && i == Probe(h, n, step)
      invariant IsEmpty(newFlags[..], i) <==> slots[i] == Free
      invariant AllBusy(slots, h, step)
      decreases last - step
    {
      ProbeStep(h, n, step);
      step := step + 1;
      i := (i + step) % n;
      SlotTests(newFlags[..], n, i);
    }
    assert ReachedAt(slots, h, i, step);
  }

  /** The kick-out loop: places one key in the new table, and as long as the
      bucket it lands in still holds a key of the old table, goes on with that
      key. Each turn takes one live bucket away from the old table. */
  method KickOut<K(!new), V(!new)>(hash: K -> nat, keys: array<K>, vals: array<V>, flags: array<bv32>, nOld: nat,
                                   newFlags: array<bv32>, nNew: nat, key0: K, val0: V,
                                   ghost e: nat, ghost m: map<K, V>, ghost loc0: map<K, nat>)
    returns (ghost loc: map<K, nat>)
    requires nOld <= 16 * flags.Length && nNew == Pow2(e) <= 16 * newFlags.Length
    requires Apart(keys, vals, flags, newFlags)
    requires |m| < nNew
    requires Midway(hash, keys[..], vals[..], Slots(flags[..], nOld), Slots(newFlags[..], nNew), m, loc0)
    requires InFlight(m, loc0, key0) && m[key0] == val0
    modifies keys, vals, flags, newFlags
    ensures Midway(hash, keys[..], vals[..], Slots(flags[..], nOld), Slots(newFlags[..], nNew), m, loc)
    ensures loc.Keys == m.Keys
    ensures Shrunk(Slots(old(flags[..]), nOld), Slots(flags[..], nOld))
  {
    var key, val := key0, val0;
    loc := loc0;
    while true
      invariant Midway(hash, keys[..], vals[..], Slots(flags[..], nOld), Slots(newFlags[..], nNew), m, loc)
      invariant InFlight(m, loc, key) && m[key] == val
      invariant Shrunk(Slots(old(flags[..]), nOld), Slots(flags[..], nOld))
      decreases |UsedSet(Slots(flags[..], nOld))|
    {
      var i, taken := Target(hash, keys, vals, flags, nOld, newFlags, nNew, key, e, m, loc);
      if taken {
        key, val, loc := KickOne(hash, keys, vals, flags, nOld, newFlags, nNew, key, val, i, m, loc);
      } else {
        loc := PlaceLast(hash, keys, vals, flags, nOld, newFlags, nNew, key, val, i, m, loc);
        break;
      }
    }
  }

  /** One kick: bucket i still belongs to the old table, so the keys change places. */
  method KickOne<K(!new), V(!new)>(hash: K -> nat, keys: array<K>, vals: array<V>, flags: array<bv32>, nOld: nat,
                                   newFlags: array<bv32>, nNew: nat, key: K, val: V, i: nat,
                                   ghost m: map<K, V>, ghost loc: map<K, nat>)
    returns (key': K, val': V, ghost loc': map<K, nat>)
    requires nOld <= 16 * flags.Length && 0 < nNew <= 16 * newFlags.Length
    requires Apart(keys, vals, flags, newFlags)
    requires Midway(hash, keys[..], vals[..], Slots(flags[..], nOld), Slots(newFlags[..], nNew), m, loc)
    requires InFlight(m, loc, key) && m[key] == val
    requires i < nNew && Slots(newFlags[..], nNew)[i] == Free && Reachable(Slots(newFlags[..], nNew), hash(key), i)
    requires i < nOld && Slots(flags[..], nOld)[i] == Used
    modifies keys, vals, flags, newFlags
    ensures Midway(hash, keys[..], vals[..], Slots(flags[..], nOld), Slots(newFlags[..], nNew), m, loc')
    ensures InFlight(m, loc', key') && m[key'] == val'
    ensures Shrunk(Slots(old(flags[..]), nOld), Slots(flags[..], nOld))
    ensures |UsedSet(Slots(flags[..], nOld))| < |UsedSet(Slots(old(flags[..]), nOld))|
  {
    loc' := Swap(hash, keys[..], vals[..], Slots(flags[..], nOld), Slots(newFlags[..], nNew), m, loc, key, i);
    MarkFilled(newFlags, nNew, i);
    key', val' := Exchange(keys, vals, i, key, val);
    MarkDeleted(flags, nOld, i);
  }

  /** The last write of a kick-out: bucket i holds no key of the old table. */
  method PlaceLast<K(!new), V(!new)>(hash: K -> nat, keys: array<K>, vals: array<V>, flags: array<bv32>, nOld: nat,
                                   newFlags: array<bv32>, nNew: nat, key: K, val: V, i: nat,
                                   ghost m: map<K, V>, ghost loc: map<K, nat>)
    returns (ghost loc': map<K, nat>)
    requires nOld <= 16 * flags.Length && 0 < nNew <= 16 * newFlags.Length
    requires Apart(keys, vals, flags, newFlags)
    requires Midway(hash, keys[..], vals[..], Slots(flags[..], nOld), Slots(newFlags[..], nNew), m, loc)
    requires InFlight(m, loc, key) && m[key] == val
    requires i < nNew && Slots(newFlags[..], nNew)[i] == Free && Reachable(Slots(newFlags[..], nNew), hash(key), i)
    requires i < nOld ==> Slots(flags[..], nOld)[i] != Used
    modifies keys, vals, newFlags
    ensures Midway(hash, keys[..], vals[..], Slots(flags[..], nOld), Slots(newFlags[..], nNew), m, loc')
    ensures loc'.Keys == m.Keys
  {
    PutDown(hash, keys[..], vals[..], Slots(flags[..], nOld), Slots(newFlags[..], nNew), m, loc, key, i);
    loc' := loc[key := i];
    MarkFilled(newFlags, nNew, i);
    var _, _ := Exchange(keys, vals, i, key, val);
  }

  /** Where the key in flight goes, and whether an old key still lives there. */
  method Target<K(!new), V(!new)>(hash: K -> nat, keys: array<K>, vals: array<V>, flags: array<bv32>, nOld: nat,
                                  newFlags: array<bv32>, nNew: nat, key: K,
                                  ghost e: nat, ghost m: map<K, V>, ghost loc: map<K, nat>)
    returns (i: nat, taken: bool)
    requires nOld <= 16 * flags.Length && nNew == Pow2(e) <= 16 * newFlags.Length
    requires Midway(hash, keys[..], vals[..], Slots(flags[..], nOld), Slots(newFlags[..], nNew), m, loc)
    requires |m| < nNew
    ensures i < nNew && Slots(newFlags[..], nNew)[i] == Free && Reachable(Slots(newFlags[..], nNew), hash(key), i)
    ensures taken <==> i < nOld && Slots(flags[..], nOld)[i] == Used
  {
    RoomLeft(hash, keys[..], vals[..], Slots(flags[..], nOld), Slots(newFlags[..], nNew), m, loc);
    i := FindFree(newFlags, nNew, hash(key), e);
    if i < nOld { SlotTests(flags[..], nOld, i); }
    taken := i < nOld && !IsEither(flags[..], i);
  }

  ghost predicate Apart<K, V>(keys: array<K>, vals: array<V>, flags: array<bv32>, newFlags: array<bv32>) {
    && flags != newFlags && keys as object != vals
    && flags as object != keys && flags as object != vals
    && newFlags as object != keys && newFlags as object != vals
  }

  method Exchange<K, V>(keys: array<K>, vals: array<V>, i: nat, key: K, val: V) returns (oldKey: K, oldVal: V)
    requires i < keys.Length && i < vals.Length && keys as object != vals
    modifies keys, vals
    ensures oldKey == old(keys[i]) && oldVal == old(vals[i])
    ensures keys[..] == old(keys[..])[i := key] && vals[..] == old(vals[..])[i := val]
  {
    oldKey, oldVal := keys[i], vals[i];
    keys[i] := key;
    vals[i] := val;
  }

  method MarkFilled(newFlags: array<bv32>, n: nat, i: nat)
    requires n <= 16 * newFlags.Length && i < n && Slots(newFlags[..], n)[i] == Free
    modifies newFlags
    ensures Slots(newFlags[..], n) == Slots(old(newFlags[..]), n)[i := Used]
  {
    ghost var before := newFlags[..];
    SetIsEmptyFalse(newFlags, i);
    PairIs(before[i / 16], Shift(i));
    PairCases(PairAt(before, i));
    SlotsUpdated(before, newFlags[..], i, PairAt(before, i) & 1, n);
  }

  method MarkLive(flags: array<bv32>, n: nat, i: nat)
    requires n <= 16 * flags.Length && i < n
    modifies flags
    ensures Slots(flags[..], n) == Slots(old(flags[..]), n)[i := Used]
  {
    ghost var before := flags[..];
    SetIsBothFalse(flags, i);
    SlotsUpdated(before, flags[..], i, 0, n);
  }

  method MarkDeleted(flags: array<bv32>, n: nat, i: nat)
    requires n <= 16 * flags.Length && i < n && Slots(flags[..], n)[i] == Used
    modifies flags
    ensures Slots(flags[..], n) == Slots(old(flags[..]), n)[i := Tomb]
  {
    ghost var before := flags[..];
    SetIsDelTrue(flags, i);
    PairIs(before[i / 16], Shift(i));
    PairCases(PairAt(before, i));
    SlotsUpdated(before, flags[..], i, PairAt(before, i) | 1, n);
  }

  /** realloc to n buckets when the table has become smaller. */
  method FitTo<T(0)>(a: array<T>, n: nat) returns (b: array<T>)
    requires n <= a.Length
    ensures b[..] == a[..n] && (b == a || fresh(b))
  {
    b := a;
    if n < a.Length {
      b := Realloc(a, n);
    }
    assert b[..] == a[..n];
  }

  /** The rehash itself: every live bucket of the old table is moved. */
  method Rehash<K(!new), V(!new)>(hash: K -> nat, keys: array<K>, vals: array<V>, flags: array<bv32>, nOld: nat,
                                  newFlags: array<bv32>, nNew: nat,
                                  ghost e: nat, ghost m: map<K, V>, ghost loc0: map<K, nat>)
    returns (ghost loc: map<K, nat>)
    requires nOld <= 16 * flags.Length && nNew == Pow2(e) <= 16 * newFlags.Length
    requires Apart(keys, vals, flags, newFlags)
    requires |m| < nNew
    requires Midway(hash, keys[..], vals[..], Slots(flags[..], nOld), Slots(newFlags[..], nNew), m, loc0)
    requires loc0.Keys == m.Keys
    modifies keys, vals, flags, newFlags
    ensures Midway(hash, keys[..], vals[..], Slots(flags[..], nOld), Slots(newFlags[..], nNew), m, loc)
    ensures loc.Keys == m.Keys && Cleared(Slots(flags[..], nOld), nOld)
  {
    loc := loc0;
    var j := 0;
    while j != nOld
      invariant j <= nOld && loc.Keys == m.Keys
      invariant Midway(hash, keys[..], vals[..], Slots(flags[..], nOld), Slots(newFlags[..], nNew), m, loc)
      invariant Cleared(Slots(flags[..], nOld), j)
      decreases nOld - j
    {
      loc := MoveBucket(hash, keys, vals, flags, nOld, newFlags, nNew, j, e, m, loc);
      j := j + 1;
    }
  }

  method MoveBucket<K(!new), V(!new)>(hash: K -> nat, keys: array<K>, vals: array<V>, flags: array<bv32>, nOld: nat,
                                      newFlags: array<bv32>, nNew: nat, j: nat,
                                      ghost e: nat, ghost m: map<K, V>, ghost loc: map<K, nat>)
    returns (ghost loc': map<K, nat>)
    requires nOld <= 16 * flags.Length && nNew == Pow2(e) <= 16 * newFlags.Length && j < nOld
    requires Apart(keys, vals, flags, newFlags)
    requires |m| < nNew
    requires Midway(hash, keys[..], vals[..], Slots(flags[..], nOld), Slots(newFlags[..], nNew), m, loc)
    requires loc.Keys == m.Keys && Cleared(Slots(flags[..], nOld), j)
    modifies keys, vals, flags, newFlags
    ensures Midway(hash, keys[..], vals[..], Slots(flags[..], nOld), Slots(newFlags[..], nNew), m, loc')
    ensures loc'.Keys == m.Keys && Cleared(Slots(flags[..], nOld), j + 1)
  {
    hide Midway, Slots, Pow2, UsedSet;
    loc' := loc;
    MidwayFits(hash, keys[..], vals[..], Slots(flags[..], nOld), Slots(newFlags[..], nNew), m, loc);
    SlotTests(flags[..], nOld, j);
    if !IsEither(flags[..], j) {
      var key, val := keys[j], vals[j];
      TakeOut(hash, keys[..], vals[..], Slots(flags[..], nOld), Slots(newFlags[..], nNew), m, loc, j);
      loc' := loc - {key};
      MarkDeleted(flags, nOld, j);
      loc' := KickOut(hash, keys, vals, flags, nOld, newFlags, nNew, key, val, e, m, loc');
    }
  }

  /** The whole of kh_resize's rehash on arrays that are large enough. */
  method RehashAll<K(!new), V(!new)>(hash: K -> nat, keys: array<K>, vals: array<V>, flags: array<bv32>, nOld: nat,
                                     newFlags: array<bv32>, nNew: nat, ghost keys0: seq<K>, ghost vals0: seq<V>,
                                     ghost e: nat, ghost m: map<K, V>, ghost loc0: map<K, nat>)
    returns (ghost loc: map<K, nat>)
    requires nOld <= 16 * flags.Length && nNew == Pow2(e) <= 16 * newFlags.Length
    requires Apart(keys, vals, flags, newFlags)
    requires |m| < nNew <= keys.Length == vals.Length && keys0 <= keys[..] && vals0 <= vals[..]
    requires TableOk(hash, keys0, vals0, Slots(flags[..], nOld), m, loc0)
    requires forall i :: 0 <= i < nNew ==> Slots(newFlags[..], nNew)[i] == Free
    modifies keys, vals, flags, newFlags
    ensures TableOk(hash, keys[..nNew], vals[..nNew], Slots(newFlags[..], nNew), m, loc)
    ensures |Occupied(Slots(newFlags[..], nNew))| == |m|
  {
    StartRehash(hash, keys0, vals0, Slots(flags[..], nOld), m, loc0, keys[..], vals[..], Slots(newFlags[..], nNew));
    loc := Rehash(hash, keys, vals, flags, nOld, newFlags, nNew, e, m, loc0);
    EndRehash(hash, keys[..], vals[..], Slots(flags[..], nOld), Slots(newFlags[..], nNew), m, loc);
    assert keys[..][..nNew] == keys[..nNew] && vals[..][..nNew] == vals[..nNew];
  }

  method NewFlags(n: nat) returns (flags: array<bv32>)
    requires n <= 16 * FSize(n)
    ensures fresh(flags) && flags.Length == FSize(n)
    ensures forall i :: 0 <= i < n ==> Slots(flags[..], n)[i] == Free
  {
    flags := new bv32[FSize(n)](_ => 0xaaaa_aaaa);
    AllEmpty(flags[..]);
  }

  /** realloc: the first elements are kept, new ones are arbitrary. */
  method Realloc<T(0)>(a: array<T>, n: nat) returns (b: array<T>)
    ensures fresh(b) && b.Length == n
    ensures n <= a.Length ==> b[..] == a[..n]
    ensures a.Length <= n ==> a[..] <= b[..]
  {
    b := new T[n];
    forall i | 0 <= i < n && i < a.Length {
      b[i] := a[i];
    }
    assert forall i :: 0 <= i < n && i < a.Length ==> b[i] == a[i];
  }

  class KHash<K(0, ==, !new), V(0, !new)> {
    const hash: K -> nat
    var nBuckets: nat
    var size: nat
    var nOccupied: nat
    var upperBound: nat
    var flags: array<bv32>
    var keys: array<K>
    var vals: array<V>
    /** The finite map the table stands for. */
    ghost var m: map<K, V>
    /** The bucket that holds each key. */
    ghost var loc: map<K, nat>

    ghost predicate Valid()
      reads this, flags, keys, vals
    {
      && flags as object != keys && flags as object != vals && keys as object != vals
      && keys.Length == vals.Length == nBuckets
      && size == |m|
      && ((nBuckets == 0 && upperBound == 0) || exists e: nat :: SizedBy(e))
      && nBuckets <= 16 * flags.Length
      && nOccupied == |Occupied(Slots(flags[..], nBuckets))|
      && TableOk(hash, keys[..], vals[..], Slots(flags[..], nBuckets), m, loc)
    }

    ghost predicate SizedBy(e: nat)
      reads this, flags
    {
      2 <= e <= 31 && nBuckets == Pow2(e) && upperBound == Upper(nBuckets) && flags.Length == FSize(nBuckets)
    }

    lemma Bounds()
      requires Valid()
      ensures size <= nOccupied <= nBuckets <= MAX_BUCKETS
      ensures if nBuckets == 0 then upperBound == 0 else 4 <= nBuckets && 0 < upperBound < nBuckets
      ensures nBuckets == 0 || exists e: nat :: 2 <= e <= 31 && nBuckets == Pow2(e)
    {
      var slots := Slots(flags[..], nBuckets);
      OccupiedBound(slots);
      StoredSize(keys[..], vals[..], m, loc, UsedSet(slots));
      assert loc.Keys == m.Keys;
      if nBuckets != 0 {
        var e: nat :| SizedBy(e);
        Pow2Of31();
        assert Pow2(2) == 4;
        Pow2Grows(2, e);
        Pow2Grows(e, 31);
      }
    }

    /** A table that counts only its keys has no tombstone. */
    lemma Clean(x: nat)
      requires Valid() && nOccupied == size && x < nBuckets
      ensures Slots(flags[..], nBuckets)[x] != Tomb
    {
      var slots := Slots(flags[..], nBuckets);
      StoredSize(keys[..], vals[..], m, loc, UsedSet(slots));
      assert loc.Keys == m.Keys;
      NoTombs(slots, x);
    }

    /** The largest table, with more than half of its buckets live, can neither grow nor be
        swept: kh_put goes on without a resize. */
    predicate Stuck()
      reads this
    {
      nBuckets == MAX_BUCKETS <= 2 * size
    }

    /** Bucket x holds a key. */
    ghost predicate Live(x: nat)
      requires Valid()
      reads this, flags, keys, vals
    {
      x < nBuckets && keys[x] in m && loc[keys[x]] == x
    }

    /** kh_init */
    constructor (hash: K -> nat)
      ensures Valid() && m == map[] && nBuckets == 0 && this.hash == hash
      ensures fresh(flags) && fresh(keys) && fresh(vals)
    {
      this.hash := hash;
      nBuckets, size, nOccupied, upperBound := 0, 0, 0, 0;
      flags, keys, vals := new bv32[0], new K[0], new V[0];
      m, loc := map[], map[];
    }

    /** kh_resize: whatever size is asked for, the stored map stays the same. */
    method Resize(request: nat)
      requires Valid() && request < WORD
      modifies this, flags, keys, vals
      ensures Valid() && m == old(m) && size == old(size)
      ensures (flags == old(flags) || fresh(flags)) && (keys == old(keys) || fresh(keys))
      ensures vals == old(vals) || fresh(vals)
      ensures size >= Upper(NewBuckets(request)) ==>
        nBuckets == old(nBuckets) && nOccupied == old(nOccupied) && upperBound == old(upperBound) &&
        flags == old(flags) && keys == old(keys) && vals == old(vals) &&
        flags[..] == old(flags[..]) && keys[..] == old(keys[..]) && vals[..] == old(vals[..])
      ensures size < Upper(NewBuckets(request)) ==>
        nBuckets == NewBuckets(request) && nOccupied == size && upperBound == Upper(nBuckets)
    {
      hide TableOk, Slots, Occupied, Pow2;
      ghost var e := NewBucketsIs(request);
      var n := NewBuckets(request);
      if size >= Upper(n) {
        return;
      }
      FlagWords(e);
      var newFlags := NewFlags(n);
      var newKeys, newVals := keys, vals;
      if nBuckets < n {
        newKeys := Realloc(keys, n);
        newVals := Realloc(vals, n);
      }
      Rebuild(newFlags, newKeys, newVals, n, e);
    }

    /** The rest of kh_resize, once the new flags and any larger arrays exist. */
    method Rebuild(newFlags: array<bv32>, newKeys: array<K>, newVals: array<V>, n: nat, ghost e: nat)
      requires Valid() && 2 <= e <= 31 && n == Pow2(e) && size < n
      requires newFlags.Length == FSize(n) && n <= 16 * newFlags.Length && Apart(newKeys, newVals, flags, newFlags)
      requires forall i :: 0 <= i < n ==> Slots(newFlags[..], n)[i] == Free
      requires newKeys.Length == newVals.Length >= n && keys[..] <= newKeys[..] && vals[..] <= newVals[..]
      requires newKeys.Length == if n < nBuckets then nBuckets else n
      modifies this, flags, newFlags, newKeys, newVals
      ensures Valid() && m == old(m) && size == old(size)
      ensures flags == newFlags && (keys == newKeys || fresh(keys)) && (vals == newVals || fresh(vals))
      ensures nBuckets == n && nOccupied == size && upperBound == Upper(n)
    {
      loc := RehashAll(hash, newKeys, newVals, flags, nBuckets, newFlags, n, keys[..], vals[..], e, m, loc);
      Commit(newFlags, newKeys, newVals, n, e);
    }

    method Commit(newFlags: array<bv32>, newKeys: array<K>, newVals: array<V>, n: nat, ghost e: nat)
      requires 2 <= e <= 31 && n == Pow2(e) && newFlags.Length == FSize(n) && n <= 16 * newFlags.Length
      requires n <= newKeys.Length == newVals.Length && size == |m|
      requires newFlags as object != newKeys && newFlags as object != newVals && newKeys as object != newVals
      requires newKeys.Length == if n < nBuckets then nBuckets else n
      requires |Occupied(Slots(newFlags[..], n))| == size
      requires TableOk(hash, newKeys[..n], newVals[..n], Slots(newFlags[..], n), m, loc)
      modifies this
      ensures Valid() && m == old(m) && size == old(size)
      ensures flags == newFlags && (keys == newKeys || fresh(keys)) && (vals == newVals || fresh(vals))
      ensures nBuckets == n && nOccupied == size && upperBound == Upper(n)
    {
      hide TableOk, Slots, Occupied, Pow2, Upper, FSize;
      keys := FitTo(newKeys, n);
      vals := FitTo(newVals, n);
      flags := newFlags;
      nBuckets := n;
      nOccupied := size;
      upperBound := Upper(nBuckets);
      assert SizedBy(e);
    }

    /** kh_get: the bucket of a stored key, n_buckets for any other key. */
    method Get(key: K) returns (x: nat)
      requires Valid()
      ensures key in m ==> x == loc[key] && Live(x) && keys[x] == key
      ensures key !in m ==> x == nBuckets
    {
      if nBuckets == 0 {
        return 0;
      }
      ghost var e: nat :| SizedBy(e);
      var i, wrapped, _, step := Walk(hash, keys, flags, nBuckets, key, e);
      ghost var slots := Slots(flags[..], nBuckets);
      if wrapped {
        EndsAfterCycle(hash, keys[..], vals[..], slots, m, loc, key, e, step);
        return nBuckets;
      }
      var empty, deleted := ReadFlags(flags, nBuckets, i);
      if empty || deleted {
        EndsAtFree(hash, keys[..], vals[..], slots, m, loc, key, step);
        x := nBuckets;
      } else {
        EndsAtKey(hash, keys[..], vals[..], slots, m, loc, i);
        x := i;
      }
    }

    /** The largest table, all of its buckets live, and a key it does not have. */
    ghost predicate NoPlace(key: K)
      reads this
    {
      nBuckets == MAX_BUCKETS == size && key !in m
    }

    /** kh_put: makes room if the table is full, then finds the key's bucket or
        claims one for it. 0: the key was there; 1: a never-used bucket was
        claimed; 2: a tombstone was, which a resize leaves none of. The caller stores
        the value afterwards. With no place for a new key the result is 0 too, with the
        bucket of another key. */
    method Put(key: K) returns (x: nat, ret: int)
      requires Valid()
      modifies this, flags, keys, vals
      ensures Valid() && Live(x) && (keys[x] == key <==> !old(NoPlace(key)))
      ensures (flags == old(flags) || fresh(flags)) && (keys == old(keys) || fresh(keys))
      ensures vals == old(vals) || fresh(vals)
      ensures ret == 0 <==> key in old(m) || old(NoPlace(key))
      ensures m == if ret == 0 then old(m) else old(m)[key := vals[x]]
      ensures (ret == 0 || ret == 1 || ret == 2) && size == old(size) + if ret == 0 then 0 else 1
      ensures old(NoPlace(key)) ==> x == hash(key) % nBuckets
      ensures old(nOccupied < upperBound || Stuck()) ==>
        && nBuckets == old(nBuckets) && nOccupied == old(nOccupied) + (if ret == 1 then 1 else 0)
        && (ret == 2 <==> Slots(old(flags[..]), old(nBuckets))[x] == Tomb)
      ensures !old(nOccupied < upperBound || Stuck()) ==> ret != 2 && nOccupied == size
      ensures old(nBuckets) < MAX_BUCKETS ==> nOccupied <= upperBound < nBuckets
      ensures !old(nOccupied < upperBound || Stuck()) ==> nBuckets == RoomyBuckets(old(nBuckets), old(size))
    {
      hide TableOk, Slots;
      Bounds();
      if nOccupied >= upperBound {
        MakeRoom(key);
        Bounds();
      }
      x, ret := Claim(key);
    }

    /** The resize at the head of kh_put: sweep out tombstones or double. */
    method MakeRoom(ghost key: K)
      requires Valid()
      modifies this, flags, keys, vals
      ensures Valid() && m == old(m) && size == old(size)
      ensures (flags == old(flags) || fresh(flags)) && (keys == old(keys) || fresh(keys))
      ensures vals == old(vals) || fresh(vals)
      ensures nBuckets > 0
      ensures !old(Stuck()) ==> nOccupied == size < upperBound && nBuckets == RoomyBuckets(old(nBuckets), old(size))
      ensures old(Stuck()) ==>
        && nBuckets == old(nBuckets) && nOccupied == old(nOccupied) && upperBound == old(upperBound)
        && flags == old(flags) && flags[..] == old(flags[..])
    {
      hide TableOk;
      hide NewBuckets;
      Bounds();
      RoomSizes(nBuckets, size);
      if nBuckets > 2 * size {
        Resize(nBuckets - 1);
      } else {
        Resize(nBuckets + 1);
      }
    }

    /** The bucket kh_put settles on: the key's own, else the tombstone its walk
        met last, else the never-used bucket that ended the walk. */
    method FindSite(key: K, ghost e: nat) returns (x: nat)
      requires Valid() && SizedBy(e)
      ensures x < nBuckets
      ensures key in m ==> Slots(flags[..], nBuckets)[x] == Used && keys[x] == key
      ensures key !in m && size < nBuckets ==>
        Slots(flags[..], nBuckets)[x] == Free || Slots(flags[..], nBuckets)[x] == Tomb
      ensures key !in m && size == nBuckets ==>
        Slots(flags[..], nBuckets)[x] == Used && x == Probe(hash(key), nBuckets, 0)
      ensures Reachable(Slots(flags[..], nBuckets), hash(key), x)
      ensures Slots(flags[..], nBuckets)[x] == Free ==> exists t: nat ::
        x == Probe(hash(key), nBuckets, t) && LastTomb(Slots(flags[..], nBuckets), hash(key), t, nBuckets)
    {
      var i, wrapped, site, step := Walk(hash, keys, flags, nBuckets, key, e);
      ghost var slots := Slots(flags[..], nBuckets);
      if size == nBuckets { AllLive(hash, keys[..], vals[..], slots, m, loc, hash(key), step, site); }
      LastTombIs(slots, hash(key), step, site);
      x := nBuckets;
      if wrapped {
        EndsAfterCycle(hash, keys[..], vals[..], slots, m, loc, key, e, step);
        if size < nBuckets { CycleFindsTomb(hash, keys[..], vals[..], slots, m, loc, key, e, step, site); }
        x := site;
      }
      if x == nBuckets {
        var empty, _ := ReadFlags(flags, nBuckets, i);
        if empty {
          EndsAtFree(hash, keys[..], vals[..], slots, m, loc, key, step);
        } else {
          EndsAtKey(hash, keys[..], vals[..], slots, m, loc, i);
        }
        x := if empty && site != nBuckets then site else i;
      }
      SiteReachable(hash, keys[..], slots, key, step, i, site, x);
    }

    method WriteKey(key: K, x: nat, empty: bool)
      requires Valid() && key !in m && x < nBuckets
      requires Slots(flags[..], nBuckets)[x] == (if empty then Free else Tomb)
      requires Reachable(Slots(flags[..], nBuckets), hash(key), x)
      modifies this`size, this`nOccupied, this`m, this`loc, flags, keys
      ensures Valid() && Live(x) && keys[x] == key && m == old(m)[key := vals[x]]
      ensures nOccupied == old(nOccupied) + (if empty then 1 else 0) && size == old(size) + 1
    {
      hide TableOk, Slots, Occupied, Pow2, Upper, FSize, Reachable;
      ghost var e: nat :| SizedBy(e);
      AddKey(hash, keys[..], vals[..], Slots(flags[..], nBuckets), m, loc, key, x);
      ghost var ks := keys[..];
      keys[x] := key;
      assert keys[..] == ks[x := key];
      MarkLive(flags, nBuckets, x);
      m, loc := m[key := vals[x]], loc[key := x];
      size := size + 1;
      if empty { nOccupied := nOccupied + 1; }
      assert SizedBy(e);
    }

    /** The rest of kh_put. */
    method Claim(key: K) returns (x: nat, ret: int)
      requires Valid() && nBuckets > 0
      modifies this`size, this`nOccupied, this`m, this`loc, flags, keys
      ensures Valid() && Live(x) && (keys[x] == key <==> key in old(m) || old(size) < nBuckets)
      ensures ret == 0 <==> key in old(m) || old(size) == nBuckets
      ensures m == if ret == 0 then old(m) else old(m)[key := vals[x]]
      ensures key !in old(m) && old(size) == nBuckets ==> x == hash(key) % nBuckets
      ensures (ret == 0 || ret == 1 || ret == 2) && size == old(size) + if ret == 0 then 0 else 1
      ensures nOccupied == old(nOccupied) + if ret == 1 then 1 else 0
      ensures ret == 2 <==> Slots(old(flags[..]), old(nBuckets))[x] == Tomb
      ensures old(nOccupied == size) ==> ret != 2
    {
      hide TableOk, Slots, Occupied, Pow2, Upper, FSize, Reachable, LastTomb;
      ghost var e: nat :| SizedBy(e);
      Bounds();
      x := FindSite(key, e);
      if nOccupied == size { Clean(x); }
      var empty, deleted := ReadFlags(flags, nBuckets, x);
      if empty || deleted {
        WriteKey(key, x, empty);
        ret := if empty then 1 else 2;
      } else {
        EndsAtKey(hash, keys[..], vals[..], Slots(flags[..], nBuckets), m, loc, x);
        ret := 0;
      }
    }

    /** kh_value(h, x) = v */
    method SetValue(x: nat, v: V)
      requires Valid() && Live(x)
      modifies this`m, vals
      ensures Valid() && m == old(m)[keys[x] := v] && loc == old(loc)
    {
      ghost var e: nat :| SizedBy(e);
      hide TableOk, Occupied, Slots, Pow2, Upper, FSize, UsedSet;
      ghost var vs := vals[..];
      SetVal(hash, keys[..], vals[..], Slots(flags[..], nBuckets), m, loc, x, v);
      vals[x] := v;
      assert vals[..] == vs[x := v];
      m := m[keys[x] := v];
      assert SizedBy(e);
    }

    /** kh_del: dropping a bucket that is not live, or n_buckets, does nothing. */
    method Del(x: nat)
      requires Valid() && x <= nBuckets
      modifies this`size, this`m, this`loc, flags
      ensures Valid()
      ensures m == if old(Live(x)) then old(m) - {keys[x]} else old(m)
      ensures nOccupied == old(nOccupied) && nBuckets == old(nBuckets)
    {
      hide TableOk, Occupied, Slots, Pow2, Upper, FSize, UsedSet;
      if x != nBuckets {
        SlotTests(flags[..], nBuckets, x);
        LiveIs(hash, keys[..], vals[..], Slots(flags[..], nBuckets), m, loc, x);
        if !IsEither(flags[..], x) {
          Bury(x);
        }
      }
    }

    /** A live bucket becomes a tombstone. */
    method Bury(x: nat)
      requires Valid() && x < nBuckets && Slots(flags[..], nBuckets)[x] == Used
      modifies this`size, this`m, this`loc, flags
      ensures Valid() && m == old(m) - {keys[x]} && keys[x] in old(m)
    {
      hide TableOk, Occupied, Slots, Pow2, Upper, FSize, UsedSet;
      ghost var e: nat :| SizedBy(e);
      ghost var ks, vs := keys[..], vals[..];
      DropKey(hash, ks, vs, Slots(flags[..], nBuckets), m, loc, x);
      SmallerMap(m, keys[x]);
      MarkDeleted(flags, nBuckets, x);
      assert keys[..] == ks && vals[..] == vs;
      m, loc := m - {keys[x]}, loc - {keys[x]};
      size := size - 1;
      assert SizedBy(e);
    }

    /** kh_clear */
    method Clear()
      requires Valid()
      modifies this`size, this`nOccupied, this`m, this`loc, flags
      ensures Valid() && m == map[] && nBuckets == old(nBuckets) && nOccupied == 0
    {
      hide TableOk;
      Bounds();
      if flags.Length != 0 {
        ghost var e: nat := 0;
        if nBuckets != 0 { e :| SizedBy(e); }
        forall k | 0 <= k < flags.Length {
          flags[k] := 0xaaaa_aaaa;
        }
        AllEmpty(flags[..]);
        ghost var slots := Slots(flags[..], nBuckets);
        assert forall i :: 0 <= i < nBuckets ==> slots[i] == Free;
        NothingStored(hash, keys[..], vals[..], slots);
        size, nOccupied := 0, 0;
        m, loc := map[], map[];
        if nBuckets != 0 { assert SizedBy(e); }
      }
    }
  }
}
