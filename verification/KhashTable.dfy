/** What the arrays of khash.h mean: which bucket holds which key, and why a probe
    finds it. Everything here is about values; the class that owns the arrays
    is in Khash.dfy. */
module KhashTable {
  import opened Sets
  import opened Powers
  import opened KhashMath
  import opened KhashFlags

  /** Clash is the fourth value of two bits, both set; no operation leaves it. */
  datatype Slot = Free | Tomb | Used | Clash

  ghost function SlotOf(p: bv32): Slot {
    if p == 2 then Free else if p == 1 then Tomb else if p == 0 then Used else Clash
  }

  /** The slots described by the first n flag pairs. */
  ghost function Slots(flags: seq<bv32>, n: nat): (s: seq<Slot>)
    requires n <= 16 * |flags|
    ensures |s| == n
  {
    seq(n, i requires 0 <= i < n => SlotOf(PairAt(flags, i)))
  }

  lemma SlotTests(flags: seq<bv32>, n: nat, i: nat)
    requires n <= 16 * |flags| && i < n
    ensures Slots(flags, n)[i] != Clash ==> (IsEmpty(flags, i) <==> Slots(flags, n)[i] == Free)
    ensures Slots(flags, n)[i] != Clash ==> (IsDel(flags, i) <==> Slots(flags, n)[i] == Tomb)
    ensures Slots(flags, n)[i] == Used <==> !IsEither(flags, i)
  {
    PairCases(PairAt(flags, i));
    PairIs(flags[i / 16], Shift(i));
  }

  lemma PairCases(p: bv32)
    requires p & 3 == p
    ensures SlotOf(p) != Clash ==> (p & 2 != 0 <==> p == 2) && (p & 1 != 0 <==> p == 1)
    ensures SlotOf(p) == Used ==> SlotOf(p | 1) == Tomb
    ensures SlotOf(p) == Free ==> SlotOf(p & 1) == Used
  {}

  lemma SlotsUpdated(before: seq<bv32>, after: seq<bv32>, i: nat, p: bv32, n: nat)
    requires n <= 16 * |before| && i < n && PairSet(before, after, i, p)
    ensures Slots(after, n) == Slots(before, n)[i := SlotOf(p)]
  {}

  ghost function UsedSet(slots: seq<Slot>): set<nat> {
    set i: nat | i < |slots| && slots[i] == Used
  }

  /** Buckets counted by n_occupied: live ones and tombstones. */
  ghost function Occupied(slots: seq<Slot>): set<nat> {
    set i: nat | i < |slots| && slots[i] != Free
  }

  lemma OccupiedBound(slots: seq<Slot>)
    ensures |Occupied(slots)| <= |slots|
    ensures |Occupied(slots)| == |slots| ==> forall i: nat :: i < |slots| ==> slots[i] != Free
    ensures |UsedSet(slots)| <= |Occupied(slots)|
    ensures |UsedSet(slots)| == |slots| ==> forall i: nat :: i < |slots| ==> slots[i] == Used
  {
    BelowIs(|slots|);
    SubsetSize(Occupied(slots), Below(|slots|));
    SubsetSize(UsedSet(slots), Below(|slots|));
    SubsetSize(UsedSet(slots), Occupied(slots));
    forall i: nat | i < |slots|
      ensures |Occupied(slots)| == |slots| ==> slots[i] != Free
      ensures |UsedSet(slots)| == |slots| ==> slots[i] == Used
    {
      assert i in Below(|slots|);
    }
  }

  /** loc says where each stored key is; the buckets in `live` hold exactly the
      keys of loc, each once, with the values that m gives them. */
  ghost predicate Stored<K(!new), V(!new)>(keys: seq<K>, vals: seq<V>, m: map<K, V>, loc: map<K, nat>, live: set<nat>) {
    && |keys| == |vals|
    && loc.Keys <= m.Keys
    && (forall k :: k in loc ==> loc[k] in live && loc[k] < |keys| && keys[loc[k]] == k && vals[loc[k]] == m[k])
    && (forall i :: i in live ==> i < |keys| && keys[i] in loc && loc[keys[i]] == i)
  }

  lemma {:induction false} StoredSize<K(!new), V(!new)>(keys: seq<K>, vals: seq<V>, m: map<K, V>, loc: map<K, nat>,
                                                        live: set<nat>)
    requires Stored(keys, vals, m, loc, live)
    ensures |live| == |loc|
    decreases |live|
  {
    if live == {} {
      assert loc.Keys == {};
    } else {
      var i :| i in live;
      var k := keys[i];
      var rest := loc - {k};
      StoredSize(keys, vals, m, rest, live - {i});
      assert loc.Keys == rest.Keys + {k};
    }
  }

  /** Where no more buckets are occupied than live there is no tombstone. */
  lemma NoTombs(slots: seq<Slot>, i: nat)
    requires |Occupied(slots)| == |UsedSet(slots)| && i < |slots| && slots[i] != Clash
    ensures slots[i] != Tomb
  {
    if slots[i] == Tomb {
      SubsetSize(UsedSet(slots), Occupied(slots) - {i});
    }
  }

  /** Writing a key into a bucket that is not live adds just that key. */
  lemma StoredAdd<K(!new), V(!new)>(keys: seq<K>, vals: seq<V>, m: map<K, V>, loc: map<K, nat>, live: set<nat>, i: nat,
                                    k: K)
    requires Stored(keys, vals, m, loc, live)
    requires i < |keys| && i !in live && k in m && k !in loc
    ensures Stored(keys[i := k], vals[i := m[k]], m, loc[k := i], live + {i})
  {}

  lemma StoredDrop<K(!new), V(!new)>(keys: seq<K>, vals: seq<V>, m: map<K, V>, loc: map<K, nat>, live: set<nat>, i: nat)
    requires Stored(keys, vals, m, loc, live) && i in live
    ensures Stored(keys, vals, m, loc - {keys[i]}, live - {i})
  {}

  /** Bucket i is met by the walk from hash h before any never-used bucket. */
  ghost predicate Reachable(slots: seq<Slot>, h: nat, i: nat)
    requires |slots| > 0
  {
    exists t: nat :: ReachedAt(slots, h, i, t)
  }

  ghost predicate ReachedAt(slots: seq<Slot>, h: nat, i: nat, t: nat)
    requires |slots| > 0
  {
    Probe(h, |slots|, t) == i && AllBusy(slots, h, t)
  }

  /** The first t probes meet no never-used bucket. */
  ghost predicate AllBusy(slots: seq<Slot>, h: nat, t: nat)
    requires |slots| > 0
  {
    forall s: nat :: s < t ==> slots[Probe(h, |slots|, s)] != Free
  }

  /** Filling a bucket, or turning it into a tombstone, hides no other bucket. */
  lemma ReachableKept(slots: seq<Slot>, h: nat, i: nat, j: nat, s: Slot)
    requires |slots| > 0 && j < |slots| && s != Free && Reachable(slots, h, i)
    ensures Reachable(slots[j := s], h, i)
  {
    var t: nat :| ReachedAt(slots, h, i, t);
    assert ReachedAt(slots[j := s], h, i, t);
  }

  /** Every live bucket of a table is found from the hash of its key. */
  ghost predicate Findable<K(!new)>(hash: K -> nat, keys: seq<K>, slots: seq<Slot>) {
    |slots| <= |keys| && forall i: nat :: i < |slots| && slots[i] == Used ==> Reachable(slots, hash(keys[i]), i)
  }

  lemma FindableUpdate<K(!new)>(hash: K -> nat, keys: seq<K>, slots: seq<Slot>, i: nat, k: K)
    requires Findable(hash, keys, slots) && i < |slots|
    requires Reachable(slots, hash(k), i)
    ensures Findable(hash, keys[i := k], slots[i := Used])
  {
    var after := slots[i := Used];
    forall j: nat | j < |slots| && after[j] == Used
      ensures Reachable(after, hash(keys[i := k][j]), j)
    {
      ReachableKept(slots, hash(keys[i := k][j]), j, i, Used);
    }
  }

  lemma FindableTomb<K(!new)>(hash: K -> nat, keys: seq<K>, slots: seq<Slot>, i: nat)
    requires Findable(hash, keys, slots) && i < |slots|
    ensures Findable(hash, keys, slots[i := Tomb])
  {
    forall j: nat | j < |slots| && slots[i := Tomb][j] == Used
      ensures Reachable(slots[i := Tomb], hash(keys[j]), j)
    {
      ReachableKept(slots, hash(keys[j]), j, i, Tomb);
    }
  }

  /** A key whose walk ran into a never-used bucket without meeting the key is
      in no live bucket. */
  lemma AbsentAtFree<K(!new)>(hash: K -> nat, keys: seq<K>, slots: seq<Slot>, key: K, t: nat)
    requires |slots| > 0 && Findable(hash, keys, slots)
    requires NotMet(hash, keys, slots, key, t) && slots[Probe(hash(key), |slots|, t)] == Free
    ensures forall i: nat :: i < |slots| && slots[i] == Used ==> keys[i] != key
  {
    forall i: nat | i < |slots| && slots[i] == Used
      ensures keys[i] != key
    {
      var u: nat :| ReachedAt(slots, hash(keys[i]), i, u);
    }
  }

  /** After a whole cycle of probes every bucket has been looked at. */
  lemma AbsentAfterCycle<K(!new)>(hash: K -> nat, keys: seq<K>, slots: seq<Slot>, key: K, e: nat, t: nat)
    requires |slots| == Pow2(e) <= |keys| && t >= Pow2(e) && NotMet(hash, keys, slots, key, t)
    ensures forall i: nat :: i < |slots| ==> slots[i] != Free && (slots[i] == Used ==> keys[i] != key)
  {
    forall i: nat | i < |slots|
      ensures slots[i] != Free && (slots[i] == Used ==> keys[i] != key)
    {
      var s := ProbesCover(hash(key), e, i);
    }
  }

  /** The first t probes for key meet neither a never-used bucket nor the key. */
  ghost predicate NotMet<K(!new)>(hash: K -> nat, keys: seq<K>, slots: seq<Slot>, key: K, t: nat)
    requires 0 < |slots| <= |keys|
  {
    forall s: nat :: s < t ==>
      var i := Probe(hash(key), |slots|, s);
      slots[i] != Free && !(slots[i] == Used && keys[i] == key)
  }

  /** A table that is not full has a never-used bucket on every walk. */
  lemma FreeStep(slots: seq<Slot>, h: nat, e: nat) returns (t: nat)
    requires |slots| == Pow2(e) && |Occupied(slots)| < |slots|
    ensures t < |slots| && slots[Probe(h, |slots|, t)] == Free
  {
    BelowIs(|slots|);
    SubsetSize(Occupied(slots), Below(|slots|));
    var unused := Below(|slots|) - Occupied(slots);
    assert |unused| == |slots| - |Occupied(slots)|;
    var i :| i in unused;
    t := ProbesCover(h, e, i);
  }

  /** A table whose arrays store exactly m. */
  ghost predicate TableOk<K(!new), V(!new)>(hash: K -> nat, keys: seq<K>, vals: seq<V>, slots: seq<Slot>,
                                            m: map<K, V>, loc: map<K, nat>)
  {
    && |keys| == |slots|
    && (forall i :: 0 <= i < |slots| ==> slots[i] != Clash)
    && loc.Keys == m.Keys
    && Stored(keys, vals, m, loc, UsedSet(slots))
    && Findable(hash, keys, slots)
  }

  /** The middle of an in-place rehash: the arrays hold what is left of the old
      table (slots `old`) and what the new one (slots `new_`) already received. No
      bucket belongs to both, and the new table has no tombstones. */
  ghost predicate Midway<K(!new), V(!new)>(hash: K -> nat, keys: seq<K>, vals: seq<V>, old_: seq<Slot>, new_: seq<Slot>,
                                           m: map<K, V>, loc: map<K, nat>)
  {
    && |old_| <= |keys| && 0 < |new_| <= |keys|
    && UsedSet(old_) !! UsedSet(new_)
    && (forall i :: 0 <= i < |new_| ==> new_[i] == Free || new_[i] == Used)
    && Stored(keys, vals, m, loc, UsedSet(old_) + UsedSet(new_))
    && Findable(hash, keys, new_)
  }

  /** Key k has been taken out of the arrays and is about to be put back. */
  ghost predicate InFlight<K(!new), V>(m: map<K, V>, loc: map<K, nat>, k: K) {
    k in m && k !in loc && m.Keys == loc.Keys + {k}
  }

  lemma TakeOut<K(!new), V(!new)>(hash: K -> nat, keys: seq<K>, vals: seq<V>, old_: seq<Slot>, new_: seq<Slot>,
                                  m: map<K, V>, loc: map<K, nat>, j: nat)
    requires Midway(hash, keys, vals, old_, new_, m, loc) && loc.Keys == m.Keys
    requires j < |old_| && old_[j] == Used
    ensures keys[j] in m && vals[j] == m[keys[j]]
    ensures Midway(hash, keys, vals, old_[j := Tomb], new_, m, loc - {keys[j]})
    ensures InFlight(m, loc - {keys[j]}, keys[j])
    ensures UsedSet(old_[j := Tomb]) == UsedSet(old_) - {j}
  {
    assert j in UsedSet(old_);
    StoredDrop(keys, vals, m, loc, UsedSet(old_) + UsedSet(new_), j);
    assert UsedSet(old_[j := Tomb]) == UsedSet(old_) - {j};
    assert UsedSet(old_[j := Tomb]) + UsedSet(new_) == UsedSet(old_) + UsedSet(new_) - {j};
  }

  /** Writing the key in flight into a bucket that is not live in the old table. */
  lemma PutDown<K(!new), V(!new)>(hash: K -> nat, keys: seq<K>, vals: seq<V>, old_: seq<Slot>, new_: seq<Slot>,
                                  m: map<K, V>, loc: map<K, nat>, k: K, i: nat)
    requires Midway(hash, keys, vals, old_, new_, m, loc) && InFlight(m, loc, k)
    requires i < |new_| && new_[i] == Free && Reachable(new_, hash(k), i)
    requires i < |old_| ==> old_[i] != Used
    ensures Midway(hash, keys[i := k], vals[i := m[k]], old_, new_[i := Used], m, loc[k := i])
    ensures loc[k := i].Keys == m.Keys
  {
    StoredAdd(keys, vals, m, loc, UsedSet(old_) + UsedSet(new_), i, k);
    FindableUpdate(hash, keys, new_, i, k);
    assert UsedSet(new_[i := Used]) == UsedSet(new_) + {i};
    assert UsedSet(old_) + UsedSet(new_[i := Used]) == UsedSet(old_) + UsedSet(new_) + {i};
  }

  /** Swapping the key in flight with the old key living in its new bucket. */
  lemma Swap<K(!new), V(!new)>(hash: K -> nat, keys: seq<K>, vals: seq<V>, old_: seq<Slot>, new_: seq<Slot>,
                               m: map<K, V>, loc: map<K, nat>, k: K, i: nat) returns (loc': map<K, nat>)
    requires Midway(hash, keys, vals, old_, new_, m, loc) && InFlight(m, loc, k)
    requires i < |new_| && new_[i] == Free && Reachable(new_, hash(k), i)
    requires i < |old_| && old_[i] == Used
    ensures keys[i] in m && vals[i] == m[keys[i]]
    ensures Midway(hash, keys[i := k], vals[i := m[k]], old_[i := Tomb], new_[i := Used], m, loc')
    ensures InFlight(m, loc', keys[i])
    ensures |UsedSet(old_[i := Tomb])| < |UsedSet(old_)|
  {
    var live, kicked := UsedSet(old_) + UsedSet(new_), keys[i];
    assert i in UsedSet(old_);
    StoredDrop(keys, vals, m, loc, live, i);
    StoredAdd(keys, vals, m, loc - {kicked}, live - {i}, i, k);
    FindableUpdate(hash, keys, new_, i, k);
    loc' := (loc - {kicked})[k := i];
    assert UsedSet(old_[i := Tomb]) == UsedSet(old_) - {i};
    assert UsedSet(new_[i := Used]) == UsedSet(new_) + {i};
    assert UsedSet(old_[i := Tomb]) + UsedSet(new_[i := Used]) == live - {i} + {i};
  }

  lemma MidwayFits<K(!new), V(!new)>(hash: K -> nat, keys: seq<K>, vals: seq<V>, old_: seq<Slot>, new_: seq<Slot>,
                                     m: map<K, V>, loc: map<K, nat>)
    requires Midway(hash, keys, vals, old_, new_, m, loc)
    ensures |old_| <= |keys| == |vals|
  {}

  /** While fewer keys than buckets are being moved, the new table has room. */
  lemma RoomLeft<K(!new), V(!new)>(hash: K -> nat, keys: seq<K>, vals: seq<V>, old_: seq<Slot>, new_: seq<Slot>,
                                   m: map<K, V>, loc: map<K, nat>)
    requires Midway(hash, keys, vals, old_, new_, m, loc) && |m| < |new_|
    ensures |Occupied(new_)| < |new_|
  {
    var live := UsedSet(old_) + UsedSet(new_);
    StoredSize(keys, vals, m, loc, live);
    SubsetSize(UsedSet(new_), live);
    SubsetSize(loc.Keys, m.Keys);
    assert Occupied(new_) == UsedSet(new_);
  }

  /** The old table has no live bucket below j any more. */
  ghost predicate Cleared(slots: seq<Slot>, j: nat) {
    forall i :: 0 <= i < j && i < |slots| ==> slots[i] != Used
  }

  /** No bucket became live. */
  ghost predicate Shrunk(before: seq<Slot>, after: seq<Slot>) {
    |after| == |before| && forall i :: 0 <= i < |after| && after[i] == Used ==> before[i] == Used
  }

  /** Before the first move: the arrays may have grown, the new table is empty. */
  lemma StartRehash<K(!new), V(!new)>(hash: K -> nat, keys: seq<K>, vals: seq<V>, slots: seq<Slot>, m: map<K, V>,
                                      loc: map<K, nat>, keys': seq<K>, vals': seq<V>, new_: seq<Slot>)
    requires TableOk(hash, keys, vals, slots, m, loc)
    requires |keys'| == |vals'| && 0 < |new_| <= |keys'| && keys <= keys' && vals <= vals'
    requires forall i :: 0 <= i < |new_| ==> new_[i] == Free
    ensures Midway(hash, keys', vals', slots, new_, m, loc)
  {
    assert UsedSet(new_) == {};
    assert UsedSet(slots) + UsedSet(new_) == UsedSet(slots);
  }

  /** After the last move: what lies beyond the new table can be cut off. */
  lemma EndRehash<K(!new), V(!new)>(hash: K -> nat, keys: seq<K>, vals: seq<V>, old_: seq<Slot>, new_: seq<Slot>,
                                    m: map<K, V>, loc: map<K, nat>)
    requires Midway(hash, keys, vals, old_, new_, m, loc) && loc.Keys == m.Keys
    requires Cleared(old_, |old_|)
    ensures TableOk(hash, keys[..|new_|], vals[..|new_|], new_, m, loc)
    ensures |Occupied(new_)| == |m|
  {
    assert UsedSet(old_) == {};
    assert UsedSet(old_) + UsedSet(new_) == UsedSet(new_);
    StoredSize(keys, vals, m, loc, UsedSet(new_));
    assert loc.Keys == m.Keys;
    assert Occupied(new_) == UsedSet(new_);
    forall i: nat | i < |new_| && new_[i] == Used
      ensures Reachable(new_, hash(keys[..|new_|][i]), i)
    {
      assert keys[..|new_|][i] == keys[i];
    }
  }

  /** site is the last tombstone among the first t probes, |slots| if there is none. */
  ghost predicate LastTomb(slots: seq<Slot>, h: nat, t: nat, site: nat)
    requires |slots| > 0
  {
    if t == 0 then site == |slots|
    else
      var i := Probe(h, |slots|, t - 1);
      if slots[i] == Tomb then site == i else LastTomb(slots, h, t - 1, site)
  }

  // How the walk of kh_get and kh_put for a key goes on and ends.

  /** Everything the loop of kh_get and kh_put knows after t turns. */
  ghost predicate Walking<K(!new)>(hash: K -> nat, keys: seq<K>, slots: seq<Slot>, key: K, t: nat, i: nat, site: nat) {
    && 0 < |slots| <= |keys|
    && i == Probe(hash(key), |slots|, t)
    && NotMet(hash, keys, slots, key, t)
    && LastTomb(slots, hash(key), t, site)
  }

  lemma WalkOn<K(!new)>(hash: K -> nat, keys: seq<K>, slots: seq<Slot>, key: K, e: nat, t: nat, i: nat, site: nat)
    requires Walking(hash, keys, slots, key, t, i, site) && |slots| == Pow2(e) && t < 2 * |slots| - 1
    requires slots[i] != Free && (slots[i] == Tomb || keys[i] != key)
    ensures Walking(hash, keys, slots, key, t + 1, (i + (t + 1)) % |slots|, if slots[i] == Tomb then i else site)
    ensures (i + (t + 1)) % |slots| != Probe(hash(key), |slots|, 0) ==> t + 1 < 2 * |slots| - 1
  {
    ProbeStep(hash(key), |slots|, t);
    FirstReturn(hash(key), e);
  }

  lemma EndsAtFree<K(!new), V(!new)>(hash: K -> nat, keys: seq<K>, vals: seq<V>, slots: seq<Slot>, m: map<K, V>,
                                     loc: map<K, nat>, key: K, t: nat)
    requires |slots| > 0 && TableOk(hash, keys, vals, slots, m, loc) && NotMet(hash, keys, slots, key, t)
    requires slots[Probe(hash(key), |slots|, t)] == Free
    ensures key !in m
  {
    AbsentAtFree(hash, keys, slots, key, t);
  }

  lemma EndsAfterCycle<K(!new), V(!new)>(hash: K -> nat, keys: seq<K>, vals: seq<V>, slots: seq<Slot>, m: map<K, V>,
                                         loc: map<K, nat>, key: K, e: nat, t: nat)
    requires |slots| == Pow2(e) && TableOk(hash, keys, vals, slots, m, loc) && NotMet(hash, keys, slots, key, t)
    requires 0 < t && Probe(hash(key), |slots|, t) == Probe(hash(key), |slots|, 0)
    ensures t >= |slots| && key !in m
    ensures forall i: nat :: i < |slots| ==> slots[i] != Free
  {
    FirstReturn(hash(key), e);
    AbsentAfterCycle(hash, keys, slots, key, e, t);
  }

  lemma EndsAtKey<K(!new), V(!new)>(hash: K -> nat, keys: seq<K>, vals: seq<V>, slots: seq<Slot>, m: map<K, V>,
                                    loc: map<K, nat>, i: nat)
    requires TableOk(hash, keys, vals, slots, m, loc) && i < |slots| && slots[i] == Used
    ensures keys[i] in m && loc[keys[i]] == i
  {
    assert i in UsedSet(slots);
  }

  lemma {:induction false} LastTombIs(slots: seq<Slot>, h: nat, t: nat, site: nat)
    requires |slots| > 0 && LastTomb(slots, h, t, site)
    ensures site <= |slots|
    ensures site == |slots| ==> forall s: nat :: s < t ==> slots[Probe(h, |slots|, s)] != Tomb
    ensures site < |slots| ==> slots[site] == Tomb && exists s: nat :: s < t && Probe(h, |slots|, s) == site
  {
    if t > 0 && slots[Probe(h, |slots|, t - 1)] != Tomb {
      LastTombIs(slots, h, t - 1, site);
    }
  }

  /** A walk that came round without a tombstone saw nothing but live buckets. */
  lemma CycleFindsTomb<K(!new), V(!new)>(hash: K -> nat, keys: seq<K>, vals: seq<V>, slots: seq<Slot>, m: map<K, V>,
                                         loc: map<K, nat>, key: K, e: nat, t: nat, site: nat)
    requires |slots| == Pow2(e) && TableOk(hash, keys, vals, slots, m, loc) && |m| < |slots| <= t
    requires LastTomb(slots, hash(key), t, site) && forall i: nat :: i < |slots| ==> slots[i] != Free
    ensures site < |slots|
  {
    LastTombIs(slots, hash(key), t, site);
    StoredSize(keys, vals, m, loc, UsedSet(slots));
    assert loc.Keys == m.Keys;
    BelowIs(|slots|);
    SubsetSize(UsedSet(slots), Below(|slots|));
    var others := Below(|slots|) - UsedSet(slots);
    assert |others| == |slots| - |UsedSet(slots)|;
    var i :| i in others;
    assert slots[i] == Tomb;
    var s := ProbesCover(hash(key), e, i);
  }

  /** With as many keys as buckets every bucket is live, and a walk keeps no tombstone. */
  lemma AllLive<K(!new), V(!new)>(hash: K -> nat, keys: seq<K>, vals: seq<V>, slots: seq<Slot>, m: map<K, V>,
                                  loc: map<K, nat>, h: nat, t: nat, site: nat)
    requires TableOk(hash, keys, vals, slots, m, loc) && |m| == |slots| > 0 && LastTomb(slots, h, t, site)
    ensures site == |slots| && forall i: nat :: i < |slots| ==> slots[i] == Used
  {
    StoredSize(keys, vals, m, loc, UsedSet(slots));
    assert loc.Keys == m.Keys;
    OccupiedBound(slots);
    LastTombIs(slots, h, t, site);
  }

  /** The bucket kh_put picks for a new key can be reached by a later kh_get. */
  lemma SiteReachable<K(!new)>(hash: K -> nat, keys: seq<K>, slots: seq<Slot>, key: K, t: nat, i: nat, site: nat,
                               x: nat)
    requires Walking(hash, keys, slots, key, t, i, site)
    requires x == i || (x == site && site < |slots|)
    ensures x < |slots| && Reachable(slots, hash(key), x)
  {
    LastTombIs(slots, hash(key), t, site);
    if x == i {
      assert ReachedAt(slots, hash(key), i, t);
    } else {
      var s: nat :| s < t && Probe(hash(key), |slots|, s) == site;
      assert ReachedAt(slots, hash(key), site, s);
    }
  }

  /** Writing a new key into a never-used bucket or a tombstone adds it to the
      map and loses nothing, with whatever value the bucket held. */
  lemma AddKey<K(!new), V(!new)>(hash: K -> nat, keys: seq<K>, vals: seq<V>, slots: seq<Slot>, m: map<K, V>,
                                 loc: map<K, nat>, key: K, x: nat)
    requires TableOk(hash, keys, vals, slots, m, loc) && key !in m
    requires x < |slots| && slots[x] != Used && Reachable(slots, hash(key), x)
    ensures TableOk(hash, keys[x := key], vals, slots[x := Used], m[key := vals[x]], loc[key := x])
    ensures |Occupied(slots[x := Used])| == |Occupied(slots)| + if slots[x] == Free then 1 else 0
  {
    hide Stored, Findable;
    AddStored(keys, vals, slots, m, loc, key, x);
    FindableUpdate(hash, keys, slots, x, key);
    AddOccupied(slots, x);
  }

  lemma AddOccupied(slots: seq<Slot>, x: nat)
    requires x < |slots| && slots[x] != Used
    ensures |Occupied(slots[x := Used])| == |Occupied(slots)| + if slots[x] == Free then 1 else 0
  {
    var before := Occupied(slots);
    if slots[x] == Free {
      assert x !in before;
      assert Occupied(slots[x := Used]) == before + {x};
    } else {
      assert Occupied(slots[x := Used]) == before;
    }
  }

  lemma AddStored<K(!new), V(!new)>(keys: seq<K>, vals: seq<V>, slots: seq<Slot>, m: map<K, V>, loc: map<K, nat>,
                                    key: K, x: nat)
    requires |keys| == |slots| && loc.Keys == m.Keys && key !in m
    requires Stored(keys, vals, m, loc, UsedSet(slots)) && x < |slots| && slots[x] != Used
    ensures Stored(keys[x := key], vals, m[key := vals[x]], loc[key := x], UsedSet(slots[x := Used]))
  {
    var m' := m[key := vals[x]];
    assert Stored(keys, vals, m', loc, UsedSet(slots));
    StoredAdd(keys, vals, m', loc, UsedSet(slots), x, key);
    assert vals[x := m'[key]] == vals;
    assert UsedSet(slots[x := Used]) == UsedSet(slots) + {x};
  }

  /** kh_del turns a live bucket into a tombstone: just that key goes. */
  lemma DropKey<K(!new), V(!new)>(hash: K -> nat, keys: seq<K>, vals: seq<V>, slots: seq<Slot>, m: map<K, V>,
                                  loc: map<K, nat>, x: nat)
    requires TableOk(hash, keys, vals, slots, m, loc)
    requires x < |slots| && slots[x] == Used
    ensures keys[x] in m
    ensures TableOk(hash, keys, vals, slots[x := Tomb], m - {keys[x]}, loc - {keys[x]})
    ensures Occupied(slots[x := Tomb]) == Occupied(slots)
  {
    assert x in UsedSet(slots);
    var k := keys[x];
    StoredDrop(keys, vals, m, loc, UsedSet(slots), x);
    assert UsedSet(slots[x := Tomb]) == UsedSet(slots) - {x};
    assert Stored(keys, vals, m - {k}, loc - {k}, UsedSet(slots[x := Tomb]));
    FindableTomb(hash, keys, slots, x);
  }

  lemma SmallerMap<K(!new), V(!new)>(m: map<K, V>, k: K)
    ensures k in m ==> |m - {k}| == |m| - 1
  {
    if k in m { assert m == (m - {k})[k := m[k]]; }
  }

  lemma LiveIs<K(!new), V(!new)>(hash: K -> nat, keys: seq<K>, vals: seq<V>, slots: seq<Slot>, m: map<K, V>,
                                 loc: map<K, nat>, x: nat)
    requires TableOk(hash, keys, vals, slots, m, loc) && x < |slots|
    ensures slots[x] != Clash
    ensures slots[x] == Used <==> keys[x] in m && loc[keys[x]] == x
  {
    assert slots[x] == Used <==> x in UsedSet(slots);
  }

  lemma SetVal<K(!new), V(!new)>(hash: K -> nat, keys: seq<K>, vals: seq<V>, slots: seq<Slot>, m: map<K, V>,
                                 loc: map<K, nat>, x: nat, v: V)
    requires TableOk(hash, keys, vals, slots, m, loc) && x < |slots|
    requires keys[x] in m && loc[keys[x]] == x
    ensures TableOk(hash, keys, vals[x := v], slots, m[keys[x] := v], loc)
  {}

  lemma NothingStored<K(!new), V(!new)>(hash: K -> nat, keys: seq<K>, vals: seq<V>, slots: seq<Slot>)
    requires |keys| == |vals| == |slots| && forall i :: 0 <= i < |slots| ==> slots[i] == Free
    ensures TableOk(hash, keys, vals, slots, map[], map[]) && Occupied(slots) == {}
  {}
}
