/** The peers announced to us, per info hash: storage_store and expire_storage of dht.c. */
module Storage {
  import opened Numbers
  import opened Ids

  const MAX_PEERS := 2048
  const MAX_HASHES := 16384

  /** struct peer; len is the length of ip. */
  datatype Peer = Peer(ip: seq<bv8>, port: nat, time: int)

  /** struct storage; numpeers is the length of peers. */
  datatype Entry = Entry(id: Id, peers: seq<Peer>, maxPeers: nat)

  predicate SamePeer(p: Peer, ip: seq<bv8>, port: nat) {
    p.port == port && p.ip == ip
  }

  /** Index of the hash's entry from i on, or the length of the list. */
  function FindEntry(st: seq<Entry>, id: Id, i: nat): (r: nat)
    requires i <= |st|
    ensures i <= r <= |st|
    ensures forall k :: i <= k < r ==> st[k].id != id
    ensures r < |st| ==> st[r].id == id
    decreases |st| - i
  {
    if i == |st| || st[i].id == id then i else FindEntry(st, id, i + 1)
  }

  function FindPeer(ps: seq<Peer>, ip: seq<bv8>, port: nat, i: nat): (r: nat)
    requires i <= |ps|
    ensures i <= r <= |ps|
    ensures forall k :: i <= k < r ==> !SamePeer(ps[k], ip, port)
    ensures r < |ps| ==> SamePeer(ps[r], ip, port)
    decreases |ps| - i
  {
    if i == |ps| || SamePeer(ps[i], ip, port) then i else FindPeer(ps, ip, port, i + 1)
  }

  /** Storing a peer in the entry of its hash: the entry and the return code. */
  function StorePeer(e: Entry, ip: seq<bv8>, port: nat, now: int): (Entry, int) {
    var i := FindPeer(e.peers, ip, port, 0);
    if i < |e.peers| then (e.(peers := e.peers[i := e.peers[i].(time := now)]), 0)
    else if |e.peers| < e.maxPeers then (e.(peers := e.peers + [Peer(ip, port, now)]), 1)
    else if e.maxPeers >= MAX_PEERS then (e, 0)
    else
      (e.(peers := e.peers + [Peer(ip, port, now)],
          maxPeers := Min(if e.maxPeers == 0 then 2 else 2 * e.maxPeers, MAX_PEERS)), 1)
  }

  /** storage_store; the list and the return code. */
  function Store(st: seq<Entry>, id: Id, ip: seq<bv8>, port: nat, now: int): (seq<Entry>, int) {
    var k := FindEntry(st, id, 0);
    if k < |st| then
      var (e, rc) := StorePeer(st[k], ip, port, now);
      (st[k := e], rc)
    else if |st| >= MAX_HASHES then (st, -1)
    else
      var (e, rc) := StorePeer(Entry(id, [], 0), ip, port, now);
      ([e] + st, rc)
  }

  predicate Fresh(p: Peer, now: int) {
    p.time >= now - 32 * 60
  }

  /** The inner loop of expire_storage: a stale peer is overwritten by the last. */
  function PurgeFrom(ps: seq<Peer>, i: nat, now: int): seq<Peer>
    requires i <= |ps|
    decreases |ps|, |ps| - i
  {
    if i == |ps| then ps
    else if Fresh(ps[i], now) then PurgeFrom(ps, i + 1, now)
    else PurgeFrom(ps[i := ps[|ps| - 1]][..|ps| - 1], i, now)
  }

  /** expire_storage from entry i on: emptied hashes are dropped. */
  function ExpireFrom(st: seq<Entry>, i: nat, now: int): seq<Entry>
    requires i <= |st|
    decreases |st| - i
  {
    if i == |st| then st
    else
      var ps := PurgeFrom(st[i].peers, 0, now);
      if ps == [] then ExpireFrom(st[..i] + st[i + 1..], i, now)
      else ExpireFrom(st[i := st[i].(peers := ps)], i + 1, now)
  }

  // The invariant.

  ghost predicate PeersOk(e: Entry) {
    && |e.peers| <= e.maxPeers <= MAX_PEERS
    && forall i, j :: 0 <= i < j < |e.peers| ==> e.peers[i].ip != e.peers[j].ip || e.peers[i].port != e.peers[j].port
  }

  ghost predicate StorageOk(st: seq<Entry>) {
    && |st| <= MAX_HASHES
    && (forall i :: 0 <= i < |st| ==> PeersOk(st[i]) && st[i].peers != [])
    && (forall i, j :: 0 <= i < j < |st| ==> st[i].id != st[j].id)
  }

  lemma StorePeerOk(e: Entry, ip: seq<bv8>, port: nat, now: int)
    requires PeersOk(e)
    ensures PeersOk(StorePeer(e, ip, port, now).0) && StorePeer(e, ip, port, now).0.id == e.id
    ensures StorePeer(e, ip, port, now).0.peers != []
  {}

  /** Storing keeps hashes and peers unique and all bounds. */
  lemma StoreOk(st: seq<Entry>, id: Id, ip: seq<bv8>, port: nat, now: int)
    requires StorageOk(st)
    ensures StorageOk(Store(st, id, ip, port, now).0)
  {
    hide StorePeer, PeersOk;
    var k := FindEntry(st, id, 0);
    if k < |st| {
      StorePeerOk(st[k], ip, port, now);
    } else {
      EmptyOk(id);
      StorePeerOk(Entry(id, [], 0), ip, port, now);
    }
  }

  // What storing does, hash by hash.

  /** The peers stored for a hash. */
  function PeersAt(st: seq<Entry>, id: Id): seq<Peer> {
    var k := FindEntry(st, id, 0);
    if k < |st| then st[k].peers else []
  }

  ghost predicate Known(ps: seq<Peer>, ip: seq<bv8>, port: nat) {
    exists i :: 0 <= i < |ps| && ps[i].ip == ip && ps[i].port == port
  }

  /** storage_store adds the peer (1), refreshes it or has no room for one more (0),
      or has no room for one more hash (-1); it touches no other hash. */
  lemma StoreIs(st: seq<Entry>, id: Id, ip: seq<bv8>, port: nat, now: int)
    requires StorageOk(st)
    ensures var (r, rc) := Store(st, id, ip, port, now);
      var was, ps := PeersAt(st, id), PeersAt(r, id);
      && (forall o: Id :: o != id ==> PeersAt(r, o) == PeersAt(st, o))
      && (rc == -1 <==> was == [] && |st| == MAX_HASHES)
      && (rc == 1 <==> !Known(was, ip, port) && |was| < MAX_PEERS && (was == [] ==> |st| < MAX_HASHES))
      && (rc == 1 ==> ps == was + [Peer(ip, port, now)])
      && (rc != 1 && !Known(was, ip, port) ==> ps == was)
      && (Known(was, ip, port) ==> rc == 0 && |ps| == |was| && forall i :: 0 <= i < |was| ==>
            ps[i] == if was[i].ip == ip && was[i].port == port then was[i].(time := now) else was[i])
  {
    hide StorePeer;
    var k := FindEntry(st, id, 0);
    if k < |st| {
      assert PeersOk(st[k]);
      StorePeerIs(st[k], ip, port, now);
      EntryReplaced(st, k, StorePeer(st[k], ip, port, now).0);
    } else if |st| < MAX_HASHES {
      EmptyOk(id);
      StorePeerIs(Entry(id, [], 0), ip, port, now);
      EntryAdded(st, StorePeer(Entry(id, [], 0), ip, port, now).0);
    }
  }

  lemma StorePeerIs(e: Entry, ip: seq<bv8>, port: nat, now: int)
    requires PeersOk(e)
    ensures var (f, rc) := StorePeer(e, ip, port, now);
      && f.id == e.id && (rc == 0 || rc == 1)
      && (rc == 1 <==> !Known(e.peers, ip, port) && |e.peers| < MAX_PEERS)
      && (rc == 1 ==> f.peers == e.peers + [Peer(ip, port, now)])
      && (rc == 0 && !Known(e.peers, ip, port) ==> f.peers == e.peers)
      && (Known(e.peers, ip, port) ==> |f.peers| == |e.peers| && forall i :: 0 <= i < |e.peers| ==>
            f.peers[i] == if e.peers[i].ip == ip && e.peers[i].port == port then e.peers[i].(time := now)
              else e.peers[i])
      && f.maxPeers == (if rc == 0 || |e.peers| < e.maxPeers then e.maxPeers
                        else if e.maxPeers == 0 then 2 else if e.maxPeers <= 1024 then 2 * e.maxPeers else 2048)
  {
    var i := FindPeer(e.peers, ip, port, 0);
    if i < |e.peers| { assert SamePeer(e.peers[i], ip, port); }
  }

  lemma EntryReplaced(st: seq<Entry>, k: nat, e: Entry)
    requires k < |st| && k == FindEntry(st, e.id, 0)
    ensures PeersAt(st[k := e], e.id) == e.peers
    ensures forall o: Id :: o != e.id ==> PeersAt(st[k := e], o) == PeersAt(st, o)
  {
    var r := st[k := e];
    FirstEntry(r, e.id, k);
    forall o: Id | o != e.id
      ensures PeersAt(r, o) == PeersAt(st, o)
    {
      FirstEntry(r, o, FindEntry(st, o, 0));
    }
  }

  lemma EntryAdded(st: seq<Entry>, e: Entry)
    requires FindEntry(st, e.id, 0) == |st|
    ensures PeersAt([e] + st, e.id) == e.peers && PeersAt(st, e.id) == []
    ensures forall o: Id :: o != e.id ==> PeersAt([e] + st, o) == PeersAt(st, o)
  {
    hide FindEntry;
    var r := [e] + st;
    FirstEntry(r, e.id, 0);
    forall o: Id | o != e.id
      ensures PeersAt(r, o) == PeersAt(st, o)
    {
      OtherEntry(st, e, o);
    }
  }

  lemma OtherEntry(st: seq<Entry>, e: Entry, o: Id)
    requires o != e.id
    ensures PeersAt([e] + st, o) == PeersAt(st, o)
  {
    hide FindEntry;
    var r, k := [e] + st, FindEntry(st, o, 0);
    assert forall i :: 0 <= i < |st| ==> r[i + 1] == st[i];
    assert forall i :: 0 < i < k + 1 ==> r[i] == st[i - 1];
    FirstEntry(r, o, k + 1);
  }

  lemma FirstEntry(st: seq<Entry>, id: Id, k: nat)
    requires k <= |st| && (forall i :: 0 <= i < k ==> st[i].id != id) && (k < |st| ==> st[k].id == id)
    ensures FindEntry(st, id, 0) == k
  {}

  lemma EmptyOk(id: Id)
    ensures PeersOk(Entry(id, [], 0))
  {}

  ghost function FreshOnes(ps: seq<Peer>, now: int): multiset<Peer> {
    multiset(Kept(ps, now))
  }

  function Kept(ps: seq<Peer>, now: int): seq<Peer> {
    if ps == [] then []
    else if Fresh(ps[|ps| - 1], now) then Kept(ps[..|ps| - 1], now) + [ps[|ps| - 1]]
    else Kept(ps[..|ps| - 1], now)
  }

  lemma {:induction false} KeptConcat(a: seq<Peer>, b: seq<Peer>, now: int)
    ensures Kept(a + b, now) == Kept(a, now) + Kept(b, now)
  {
    if b == [] {
      assert a + b == a;
    } else {
      var k := |b| - 1;
      KeptConcat(a, b[..k], now);
      assert (a + b)[..|a + b| - 1] == a + b[..k];
    }
  }

  lemma KeptOne(p: Peer, now: int)
    ensures Kept([p], now) == if Fresh(p, now) then [p] else []
  {
    assert [p][..0] == [];
  }

  lemma KeptSwap(l: seq<Peer>, p: Peer, m: seq<Peer>, last: Peer, now: int)
    requires Kept([p], now) == []
    ensures multiset(Kept(l + ([last] + m), now)) == multiset(Kept(l + ([p] + (m + [last])), now))
  {
    hide Kept, Fresh;
    KeptConcat(l, [p] + (m + [last]), now);
    KeptConcat([p], m + [last], now);
    KeptConcat(m, [last], now);
    KeptConcat(l, [last] + m, now);
    KeptConcat([last], m, now);
    Rotate(Kept(l, now), Kept(m, now), Kept([last], now));
  }

  /** One overwrite loses exactly the stale peer. */
  lemma SwapLast(ps: seq<Peer>, i: nat, now: int)
    requires i < |ps| && !Fresh(ps[i], now)
    ensures FreshOnes(ps[i := ps[|ps| - 1]][..|ps| - 1], now) == FreshOnes(ps, now)
  {
    hide Kept, Fresh;
    var k := |ps| - 1;
    var last := ps[k];
    KeptOne(ps[i], now);
    KeptOne(last, now);
    if i < k {
      var l, m := ps[..i], ps[i + 1..k];
      assert ps == l + ([ps[i]] + (m + [last]));
      assert ps[i := last][..k] == l + ([last] + m);
      KeptSwap(l, ps[i], m, last, now);
    } else {
      assert ps == ps[..k] + [last] && ps[i := last][..k] == ps[..k];
      KeptConcat(ps[..k], [last], now);
    }
  }

  lemma Rotate(l: seq<Peer>, m: seq<Peer>, z: seq<Peer>)
    ensures multiset(l + ([] + (m + z))) == multiset(l + (z + m))
  {}

  /** Expiry keeps exactly the fresh peers, each as often as before. */
  lemma {:induction false} PurgeKeepsFresh(ps: seq<Peer>, i: nat, now: int)
    requires i <= |ps| && forall k :: 0 <= k < i ==> Fresh(ps[k], now)
    ensures multiset(PurgeFrom(ps, i, now)) == FreshOnes(ps, now)
    ensures forall k :: 0 <= k < |PurgeFrom(ps, i, now)| ==> Fresh(PurgeFrom(ps, i, now)[k], now)
    decreases |ps|, |ps| - i
  {
    hide Fresh;
    if i == |ps| {
      AllKept(ps, now);
    } else if Fresh(ps[i], now) {
      PurgeKeepsFresh(ps, i + 1, now);
    } else {
      SwapLast(ps, i, now);
      PurgeKeepsFresh(ps[i := ps[|ps| - 1]][..|ps| - 1], i, now);
    }
  }

  lemma {:induction false} AllKept(ps: seq<Peer>, now: int)
    requires forall k :: 0 <= k < |ps| ==> Fresh(ps[k], now)
    ensures Kept(ps, now) == ps
  {
    if ps != [] { AllKept(ps[..|ps| - 1], now); }
  }

  ghost predicate UniquePeers(ps: seq<Peer>) {
    forall i, j :: 0 <= i < j < |ps| ==> ps[i].ip != ps[j].ip || ps[i].port != ps[j].port
  }

  lemma {:induction false} PurgeOk(ps: seq<Peer>, i: nat, now: int)
    requires i <= |ps| && UniquePeers(ps)
    ensures UniquePeers(PurgeFrom(ps, i, now)) && |PurgeFrom(ps, i, now)| <= |ps|
    decreases |ps|, |ps| - i
  {
    hide Fresh;
    if i == |ps| {
    } else if Fresh(ps[i], now) {
      PurgeOk(ps, i + 1, now);
    } else {
      PurgeOk(ps[i := ps[|ps| - 1]][..|ps| - 1], i, now);
    }
  }

  function Purged(e: Entry, now: int): Entry {
    e.(peers := PurgeFrom(e.peers, 0, now))
  }

  /** expire_storage said at once: purge every hash, drop the emptied ones. */
  function Expired(st: seq<Entry>, now: int): seq<Entry> {
    if st == [] then []
    else (if Purged(st[0], now).peers == [] then [] else [Purged(st[0], now)]) + Expired(st[1..], now)
  }

  lemma {:induction false} ExpireIsExpired(st: seq<Entry>, i: nat, now: int)
    requires i <= |st|
    ensures ExpireFrom(st, i, now) == st[..i] + Expired(st[i..], now)
    decreases |st| - i
  {
    hide PurgeFrom;
    if i < |st| {
      var e := Purged(st[i], now);
      assert st[i..][1..] == st[i + 1..];
      if e.peers == [] {
        var rest := st[..i] + st[i + 1..];
        ExpireIsExpired(rest, i, now);
        assert rest[..i] == st[..i] && rest[i..] == st[i + 1..];
      } else {
        var next := st[i := e];
        ExpireIsExpired(next, i + 1, now);
        assert next[..i + 1] == st[..i] + [e] && next[i + 1..] == st[i + 1..];
      }
    }
  }

  /** A peer stays, as often as it is stored, if and only if it was announced within the last
      32 minutes. */
  lemma PurgeRecent(ps: seq<Peer>, now: int, p: Peer)
    ensures multiset(PurgeFrom(ps, 0, now))[p] == if p.time >= now - 1920 then multiset(ps)[p] else 0
  {
    PurgeKeepsFresh(ps, 0, now);
    KeptTimes(ps, now, p);
  }

  lemma {:induction false} KeptTimes(ps: seq<Peer>, now: int, p: Peer)
    ensures FreshOnes(ps, now)[p] == if Fresh(p, now) then multiset(ps)[p] else 0
  {
    if ps != [] {
      KeptTimes(ps[..|ps| - 1], now, p);
      assert ps == ps[..|ps| - 1] + [ps[|ps| - 1]];
    }
  }

  /** After expiry a hash is stored exactly when it had a fresh peer, and then its
      peers are its fresh ones. */
  lemma {:induction false} ExpiredIs(st: seq<Entry>, now: int, e: Entry)
    ensures e in Expired(st, now) <==> exists o :: o in st && e == Purged(o, now) && e.peers != []
    ensures forall o :: o in st ==> multiset(Purged(o, now).peers) == FreshOnes(o.peers, now)
  {
    hide PurgeFrom, FreshOnes;
    if st != [] {
      ExpiredIs(st[1..], now, e);
      assert forall o :: o in st <==> o == st[0] || o in st[1..];
      PurgeKeepsFresh(st[0].peers, 0, now);
    }
  }

  lemma {:induction false} ExpiredIds(st: seq<Entry>, now: int, k: nat) returns (j: nat)
    requires k < |Expired(st, now)|
    ensures j < |st| && st[j].id == Expired(st, now)[k].id
  {
    hide PurgeFrom;
    var n := if Purged(st[0], now).peers == [] then 0 else 1;
    if k < n {
      j := 0;
    } else {
      var i := ExpiredIds(st[1..], now, k - n);
      j := i + 1;
    }
  }

  lemma {:induction false} ExpiredOk(st: seq<Entry>, now: int)
    requires StorageOk(st)
    ensures StorageOk(Expired(st, now))
  {
    hide PeersOk, PurgeFrom;
    if st != [] {
      var t := st[1..];
      var rest := Expired(t, now);
      ExpiredOk(t, now);
      PurgedOk(st[0], now);
      ExpiredShorter(t, now);
      forall k: nat | k < |rest|
        ensures rest[k].id != st[0].id
      {
        var j := ExpiredIds(t, now, k);
        assert st[j + 1].id == rest[k].id;
      }
    }
  }

  lemma {:induction false} ExpiredShorter(st: seq<Entry>, now: int)
    ensures |Expired(st, now)| <= |st|
  {
    if st != [] { ExpiredShorter(st[1..], now); }
  }

  lemma PurgedOk(e: Entry, now: int)
    requires PeersOk(e)
    ensures PeersOk(Purged(e, now)) && Purged(e, now).id == e.id
  {
    PurgeOk(e.peers, 0, now);
  }

  /** Expiry keeps hashes and peers unique and all bounds. */
  lemma ExpireOk(st: seq<Entry>, now: int)
    requires StorageOk(st)
    ensures StorageOk(ExpireFrom(st, 0, now))
  {
    hide StorageOk;
    ExpireIsExpired(st, 0, now);
    assert st[..0] + Expired(st[0..], now) == Expired(st, now);
    ExpiredOk(st, now);
  }

  class PeerStore {
    var storage: seq<Entry>
    var numstorage: int

    ghost predicate Valid()
      reads this
    {
      StorageOk(storage) && numstorage == |storage|
    }

    constructor ()
      ensures Valid() && storage == []
    {
      storage, numstorage := [], 0;
    }

    /** find_storage */
    method Find(id: Id) returns (k: nat)
      ensures k == FindEntry(storage, id, 0)
    {
      k := 0;
      while k < |storage| && storage[k].id != id
        invariant k <= |storage| && FindEntry(storage, id, k) == FindEntry(storage, id, 0)
      {
        k := k + 1;
      }
    }

    /** storage_store for an IPv4 or IPv6 address. */
    method StorageStore(id: Id, ip: seq<bv8>, port: nat, now: int) returns (rc: int)
      requires Valid()
      modifies this
      ensures Valid() && (storage, rc) == Store(old(storage), id, ip, port, now)
    {
      StoreOk(storage, id, ip, port, now);
      var k := Find(id);
      if k == |storage| {
        if numstorage >= MAX_HASHES {
          return -1;
        }
        storage := [Entry(id, [], 0)] + storage;
        numstorage := numstorage + 1;
        k := 0;
      }
      var e := storage[k];
      var i := 0;
      while i < |e.peers| && !SamePeer(e.peers[i], ip, port)
        invariant i <= |e.peers| && FindPeer(e.peers, ip, port, i) == FindPeer(e.peers, ip, port, 0)
      {
        i := i + 1;
      }
      if i < |e.peers| {
        storage := storage[k := e.(peers := e.peers[i := e.peers[i].(time := now)])];
        return 0;
      }
      if i >= e.maxPeers {
        if e.maxPeers >= MAX_PEERS {
          assert storage[k := e] == storage;
          return 0;
        }
        e := e.(maxPeers := Min(if e.maxPeers == 0 then 2 else 2 * e.maxPeers, MAX_PEERS));
      }
      e := e.(peers := e.peers + [Peer(ip, port, now)]);
      assert ([Entry(id, [], 0)] + old(storage))[0 := e] == [e] + old(storage);
      storage := storage[k := e];
      return 1;
    }

    /** The inner loop of expire_storage. */
    method Purge(ps0: seq<Peer>, now: int) returns (ps: seq<Peer>)
      ensures ps == PurgeFrom(ps0, 0, now)
    {
      ps := ps0;
      var i := 0;
      while i < |ps|
        invariant i <= |ps| && PurgeFrom(ps, i, now) == PurgeFrom(ps0, 0, now)
        decreases |ps|, |ps| - i
      {
        if ps[i].time < now - 32 * 60 {
          if i != |ps| - 1 {
            ps := ps[i := ps[|ps| - 1]];
          } else {
            assert ps[i := ps[|ps| - 1]] == ps;
          }
          ps := ps[..|ps| - 1];
        } else {
          i := i + 1;
        }
      }
    }

    /** expire_storage; the clamp at zero is never needed. */
    method Expire(now: int)
      requires Valid()
      modifies this
      ensures Valid() && storage == ExpireFrom(old(storage), 0, now)
    {
      ExpireOk(storage, now);
      var i := 0;
      while i < |storage|
        invariant i <= |storage| && numstorage == |storage|
        invariant ExpireFrom(storage, i, now) == ExpireFrom(old(storage), 0, now)
        decreases |storage| - i
      {
        var ps := Purge(storage[i].peers, now);
        storage := storage[i := storage[i].(peers := ps)];
        if ps == [] {
          ghost var st := storage;
          storage := storage[..i] + storage[i + 1..];
          numstorage := numstorage - 1;
          assert numstorage >= 0;
        } else {
          i := i + 1;
        }
      }
    }
  }
}
