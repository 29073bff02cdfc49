# A verified model of the DHT node, the hash table, the trees and MD5

This project models the parts of the repository whose correctness is hardest to see from
the code, and proves what they promise. Every module but those of `Common.dfy` names the
source file it models in its first lines.

**The Kademlia node** (`src/controller/dht/dht.c`, BEP 5).

- Ids are paths of 160 bits (`Ids`), tied to the 20-byte loops of the source (`IdBytes`).
- The routing table is a list of buckets (`Layout`, `Table`, `TableOps`, `TableRuns`,
  `TableFacts`, `TableNews`), changed in place by the class `Routing.RoutingTable`. The main result is about
  every table that any run of operations can reach: the buckets tile the id space, the list is
  the k-bucket array of the protocol, splitting never fails, and no node is lost without a
  reason. What each message changes is stated case by case, with when exactly the table splits.
- `find_node` answers (`Nearest`, `Closest`) are the nearest good nodes that the table
  promises, and the true nearest ones when the target's bucket is well filled.
- A search (`SearchSteps`, `Search`, `SearchRuns`, `SearchRecords`) holds the fourteen nearest candidates
  through any run of what can happen to it, it finishes, every request it sends is counted, and
  what "done" means is stated exactly.
- The table and the searches run in one state (`DhtRuns`, `DhtFacts`), changed in place by the class
  `DhtNode.LocalNode`: whatever happens to the node, both keep their invariants together, every
  request of a search is exactly one ping in the table, and `dht_search` starts from the nearest
  nodes.
- Announced peers (`Storage`) and the request limit (`RateLimit`) keep their bounds.
- The message printer and the substring-searching parser (the `Krpc` modules): the exact
  condition under which the parser reads back what the four senders print, for any bytes in ids,
  hashes, tokens, transaction ids and versions, for the whole message and for every field. The
  replies are read back too, and what is printed is the bencoding of BEP 5.

**The hash table** (`src/include/khash.h`): packed flags, triangular probing, tombstones and
the in-place rehash that kicks keys out of their buckets (`KhashMath`, `KhashFlags`,
`KhashTable`, `Khash`, `KhashRound`). The class `Khash.KHash` refines a finite map.

**The trees** (`src/include/tree.h`): red-black insertion and removal on linked nodes with
parent pointers (`RbShape`, `RbLinks`, `RbInsert`, `RbRemove`, `RbQuery`), and the top-down splay
tree (`Splay`). The mirrored halves of the macros are one method with a side as argument.

**Streaming MD5** (`src/block/word/md5.c`, `md5.h`): however a message is cut into pieces, the
digest is the one-shot digest of RFC 1321 (`Md5Rounds`, `Md5`, `Md5Stream`), which a test case
of the RFC fixes (`Md5Vector`).

How it is built: what a routine computes is a function on values, what the source promises is
proved about that function, and a method or class that works step by step as the source does
is proved to compute it. `dafny verify dfyconfig.toml` checks everything.

Choices that hold throughout: time is an integer given by the caller and does not go back;
random bytes are arguments; memory allocation succeeds; there is one routing table object per
address family; a `string` in the `Krpc` modules is a byte string.

Where a claim one would like to make is not true of the code, the code is kept and the project
states what is true instead:

- A search step that gets past its time guard need not make progress: `add_search_node`, or the
  push after a reply, may have asked a node less than ten seconds before.
  `SearchRuns.IdleStepExists` gives the runs, `SearchSteps.StepWork` and
  `SearchSteps.StepRequests` the exact condition, and `SearchSteps.SearchFinishes` and
  `SearchRuns.RunFinishes` the bounds that hold.
- `kh_put` in the largest table, with all 2^31 buckets live, answers a new key with result 0 and
  the bucket of another key. `Khash.KHash.Put` states this case, and that there is no other.
- A printed query is not always read back, because the parser takes the first occurrence of a
  marker even inside an id, a hash or a token. `KrpcExact.ExactRoundTrip` is the if-and-only-if
  for all inputs: payloads are cut into windows, each with the letters printed right behind it up
  to the next colon, and only a marker in a window can disturb. `KrpcLimits.MarkerInIdMisread`,
  `KrpcLimits.MarkerBehindIdMisread` and `KrpcOwnToken.OwnTokenMisread` give inputs that fail, the
  last one with a token that this program could have made itself.
- An announced token without a colon that has length 1, 11, 21 or 31 and begins with `t` makes the
  parser lose the transaction id. `KrpcToken.PlainTokenRoundTrip` states this as an
  if-and-only-if.

## Model

| member | source | states |
|---|---|---|
| KhashMath.ProbeStep | src/include/khash.h:206 | one turn of the loop, i = (i + ++step) & mask, moves from probe t to probe t + 1 of the triangular walk |
| KhashMath.ProbeCollision | src/include/khash.h:206 | in a table of 2^e buckets two probes s < t can only collide if t - s or t + s + 1 is at least 2^(e+1) |
| KhashMath.ProbesDiffer | src/include/khash.h:203-209 | the first n probes are pairwise different buckets |
| KhashMath.FirstReturn | src/include/khash.h:203-209 | the walk is back at its first bucket at step 2n - 1 and not earlier, which is when `i == last` ends it |
| KhashMath.ProbesCover | src/include/khash.h:203-209 | every bucket is one of the first n probes: they are a permutation |
| KhashFlags.SetIsDelTrue | src/include/khash.h:139 | the bit operation turns exactly bucket i's pair p into p or 1; every other pair keeps its two bits |
| KhashFlags.SetIsEmptyFalse | src/include/khash.h:137 | the bit operation clears exactly bucket i's empty bit |
| KhashFlags.SetIsBothFalse | src/include/khash.h:138 | the bit operation clears exactly bucket i's pair |
| KhashFlags.AllEmpty | src/include/khash.h:223 | memset with 0xaa marks every bucket never used |
| Khash.NewBucketsIs | src/include/khash.h:217-219 | for every 32-bit request kh_resize works with a power of two from 4 to 2^31: the smallest that is not below the request, and 4 when kroundup32 wraps, for 0 and beyond 2^31 |
| Khash.SmearIsCeiling | src/include/khash.h:144 | the five shift-or steps of kroundup32 yield one single bit, at least x and below 2x, or wrap to 0 |
| Khash.RoomSizes | src/include/khash.h:278-286 | the table kh_put asks for: the same bucket count when more than half of them are tombstones or free, twice as many otherwise, and in both cases room for one more key below 2^31 buckets |
| Khash.Walk | src/include/khash.h:203-208 | the probe loop stops at a never-used bucket, at the key, or after exactly one full round, and remembers the last tombstone |
| Khash.FindFree | src/include/khash.h:248-249 | the inner loop of the kick-out stops at the first never-used bucket of the walk |
| Khash.KickOut | src/include/khash.h:245-260 | the kick-out loop ends and leaves the key in flight and every key it displaced in the new table, none in both |
| Khash.Rehash | src/include/khash.h:237-262 | the loop over the old table leaves no old bucket live and keeps the stored map |
| Khash.RehashAll | src/include/khash.h:236-272 | the whole in-place rehash, for growing, equal and shrinking sizes, ends with exactly the same map, and as many occupied buckets as keys |
| Khash.KHash.Resize | src/include/khash.h:212-274 | kh_resize keeps the map for any requested size; it changes nothing when the request is too small, and otherwise the new bucket count, n_occupied = size and upper_bound are as computed |
| Khash.KHash.Get | src/include/khash.h:198-211 | kh_get returns the bucket of a stored key and n_buckets for every other key |
| Khash.KHash.Put | src/include/khash.h:275-316 | for every table and key kh_put returns a live bucket, the key's own unless all 2^31 buckets of the largest table are live and the key is new, where it is the first bucket of the walk; the result is 0 exactly in that case and for a stored key, and the map gains exactly a new one otherwise. Without a resize n_occupied grows by one exactly for result 1, and the result is 2 exactly when the bucket was a tombstone; after a resize it is never 2, and n_occupied equals size. Below 2^31 buckets n_occupied stays at most upper_bound < n_buckets |
| Khash.KHash.MakeRoom | src/include/khash.h:278-286 | the resize at the head of kh_put leaves the map unchanged, no tombstones, and room for one more key, in as many buckets if more than half were not live, else in twice as many; only the largest table with half its buckets live stays as it is |
| Khash.KHash.FindSite | src/include/khash.h:287-302 | the walk of kh_put ends at the key, or at a bucket that is free or a tombstone and reachable, a never-used bucket only when no tombstone was met; with every bucket live and a new key it ends at its first bucket |
| Khash.KHash.Del | src/include/khash.h:317-323 | kh_del removes exactly the key of a live bucket and does nothing for any other bucket or n_buckets |
| Khash.KHash.Clear | src/include/khash.h:191-197 | kh_clear empties the map and keeps the bucket count |
| Khash.KHash.Claim | src/include/khash.h:287-314 | the rest of kh_put: result 0 for a stored key or when every bucket is live, 1 for a claimed free bucket, 2 exactly for a claimed tombstone, never in a table that counts only its keys; size grows exactly for 1 and 2 |
| Khash.UpperIsRounded | src/include/khash.h:271 | the bound is 77 percent of the bucket count, rounded |
| KhashRound.SmearIsRoundUp | src/include/khash.h:144 | on every 32-bit word the shift-or steps of kroundup32 compute the rounding that kh_resize is modelled with |
| KhashTable.Swap | src/include/khash.h:251-254 | kicking out the old key of bucket i: no key is lost or doubled, the new table still finds all its keys, and the old table has one live bucket less |
| KhashTable.PutDown | src/include/khash.h:255-258 | the last write of a kick-out puts the key in flight into the new table; every stored key is then in exactly one of the two tables |
| KhashTable.RoomLeft | src/include/khash.h:249 | while fewer keys than buckets are moved there is a never-used bucket, so the inner loop ends |
| KhashTable.EndRehash | src/include/khash.h:263-272 | after the last move the arrays, cut to the new size, store exactly the old map |
| KhashTable.SiteReachable | src/include/khash.h:287-302 | the bucket kh_put settles on is one a later kh_get reaches before any never-used bucket |
| KhashTable.CycleFindsTomb | src/include/khash.h:291-297 | a walk that came round without meeting the key or a free bucket has met a tombstone, unless every bucket is live |
| KhashTable.AddKey | src/include/khash.h:304-313 | claiming a never-used bucket or a tombstone adds exactly the new key and loses nothing |
| KhashTable.DropKey | src/include/khash.h:317-323 | turning a live bucket into a tombstone removes exactly its key and hides no other key |
| KhashTable.StoredSize | src/include/khash.h:304-321 | the number of live buckets is the size of the stored map |
| KhashTable.NoTombs | src/include/khash.h:263-272 | where as many buckets are occupied as live there is no tombstone |
| KhashTable.AllLive | src/include/khash.h:291-297 | with as many keys as buckets every bucket is live and the walk keeps no tombstone |
| Ids.RangeIsSubtree | src/controller/dht/dht.c:483-488 | the range from a subtree's first id up to the first id of the subtree right of it holds exactly the ids under its prefix |
| Ids.SubtreeSize | src/controller/dht/dht.c:563-576 | at most 2^(160 - length) distinct ids share a prefix |
| Ids.TenIdsNeedFourBits | src/controller/dht/dht.c:563-576 | ten distinct ids under a prefix leave it at most 156 bits |
| IdBytes.LowBitOf | src/controller/dht/dht.c:418-434 | lowbit on 20 bytes is the index of the last 1 bit of the 160-bit path, or -1 |
| IdBytes.CommonBits | src/controller/dht/dht.c:437-459 | common_bits is the number of leading bits two ids share, 160 for equal ids |
| IdBytes.IdCmp | src/controller/dht/dht.c:410-415 | id_cmp orders ids as bit paths and is 0 exactly for equal ids |
| IdBytes.XorCmp | src/controller/dht/dht.c:462-479 | xorcmp is negative exactly when the first id is nearer to the reference by XOR distance, 0 exactly for equal ids |
| IdBytes.SetBit | src/controller/dht/dht.c:575 | the byte operation of bucket_middle sets exactly the wanted bit of the path |
| IdBytes.RandomBelow | src/controller/dht/dht.c:579-598 | bucket_random keeps the bucket's first bits and takes every other bit from the random bytes, also inside the mixed byte |
| Layout.CutTiles | src/controller/dht/dht.c:755-795 | halving any one subtree of a tiling of the id space gives a tiling again |
| Layout.SubtreesTile | src/controller/dht/dht.c:755-795 | for every own id and every depth the buckets' prefixes tile the id space from end to end |
| Layout.RangeIsLabel | src/controller/dht/dht.c:490-505 | at depth d the range of a bucket holds exactly the ids whose min(common_bits, d) is the bucket's label |
| Layout.MiddleBitIsDepth | src/controller/dht/dht.c:563-576 | in every tiling max(lowbit(first), lowbit(next first)) + 1 is exactly the length of the bucket's prefix |
| Layout.OrderIsPermutation | src/controller/dht/dht.c:755-795 | each number of shared bits is the label of exactly one bucket |
| Table.FindIsLabel | src/controller/dht/dht.c:490-505 | find_bucket returns the one bucket whose range holds the id, and its label is min(common_bits with our id, depth) |
| Table.SplitHelperShape | src/controller/dht/dht.c:755-795 | splitting our own bucket below full depth succeeds, keeps the order of the buckets and gives both halves their quota |
| Table.FullOwnBucketIsShallow | src/controller/dht/dht.c:563-576 | a full bucket of ours with one more id wanting in has a prefix of at most 156 bits |
| Table.InsertConserves | src/controller/dht/dht.c:735-751 | insert_node adds the node to the table and changes no other |
| Table.SplitHelperConserves | src/controller/dht/dht.c:755-795 | split_bucket_helper hands out exactly the bucket's nodes and changes no other |
| Table.SplitLoopOk | src/controller/dht/dht.c:797-842 | the loop of split_bucket keeps the routing invariant, and the nodes before are as a multiset those after plus the freed ones; a freed node's bucket is full and not ours |
| TableOps.SplitBucketOk | src/controller/dht/dht.c:797-842 | split_bucket on our full bucket with one more id wanting in always succeeds with all of that |
| TableOps.EightSplitsOnce | src/controller/dht/dht.c:797-842 | splitting a bucket of capacity 8 frees no node and splits only once |
| TableOps.PassOk | src/controller/dht/dht.c:854-977 | every pass of new_node keeps the routing invariant, and one that goes back to `again` has deepened the table, so the repetition ends |
| TableOps.NewNode | src/controller/dht/dht.c:846-977 | new_node ends and keeps the routing invariant whatever is learnt |
| TableRuns.NewNodeKeeps | src/controller/dht/dht.c:846-977 | new_node drops a node only from the bucket of the id it learns: without a split only one that is known to be bad, and with a split, which is then of our own bucket, only one whose bucket is full and not ours afterwards |
| TableRuns.NewNodeOnlyAdds | src/controller/dht/dht.c:846-977 | no id enters the table but the one learnt |
| TableRuns.NewNodeAnswer | src/controller/dht/dht.c:846-977 | new_node returns a node exactly when it accepts the sender and the id is in the table afterwards; for our own id and a rejected address it returns NULL and changes nothing |
| TableRuns.ExpireDropsBad | src/controller/dht/dht.c:982-1016 | expire_buckets removes exactly the nodes pinged four times or more |
| TableRuns.ExpireOk | src/controller/dht/dht.c:982-1016 | expire_buckets keeps the routing invariant |
| TableRuns.Run | src/controller/dht/dht.c:846-1016 | after any run of new_node, pinged, blacklist_node and expire_buckets from dht_init on, the routing invariant holds |
| TableRuns.NewNodeRecords | src/controller/dht/dht.c:871-915 | when new_node returns a node, the table's node with that id has the address and time of the message, and is good with a ping count of 0 if it replied |
| TableRuns.NewNodeOthers | src/controller/dht/dht.c:846-977 | new_node changes no other node, but for the ping counted on one dubious node of the full bucket |
| TableRuns.PingedIs | src/controller/dht/dht.c:654-661 | pinged counts one ping for the one node with the id and leaves every other node as and where it is |
| TableRuns.BlacklistIs | src/controller/dht/dht.c:672-680 | blacklist_node sets the ping count of the one node with the id to four and leaves every other node as and where it is |
| TableRuns.BlacklistedGoes | src/controller/dht/dht.c:672-1016 | a blacklisted node is out of the table after the next expire_buckets |
| TableRuns.NewNodeInPlace | src/controller/dht/dht.c:846-977 | without a split the ids of the table stay place by place, or the new node takes the place of one node that was known to be bad, in its own bucket, or it is added and nothing goes |
| TableNews.NewNodeSplits | src/controller/dht/dht.c:920-951 | new_node deepens the table if and only if the sender is accepted and unknown, its bucket is ours and full, and every node in it is good: at most two open requests, a reply within two hours, heard from within 15 minutes |
| TableNews.NewNodeAgain | src/controller/dht/dht.c:943-948 | after such a split it starts again with the same message on the deeper table |
| TableNews.NewNodePings | src/controller/dht/dht.c:920-961 | in a full bucket that is not ours or has a node that is not good, with no known-bad node, a new sender finds no place: NULL, the depth stays, the first node that is not good and was not pinged for 15 seconds is pinged, if there is one, the address is kept as candidate, and nothing else changes |
| TableNews.NewNodeKnown | src/controller/dht/dht.c:868-890 | a known node: a reply renews address and times and clears its pings, a query renews address and time only, and a mention the address only, after 15 minutes of silence; its place and all else stay |
| TableNews.NewNodeEvicts | src/controller/dht/dht.c:901-918 | a new sender takes the place of the first node with three unanswered requests, the last more than 15 seconds ago, with times and counts of its own |
| TableNews.NewNodeAdds | src/controller/dht/dht.c:963-977 | otherwise it is put first in the bucket if there is room, and nothing else changes |
| TableNews.SplitLeaves | src/controller/dht/dht.c:755-795 | a split leaves two empty buckets with the old one's time and no candidate; ours may hold half as many nodes, not fewer than eight, the other as many as before; all other buckets stay |
| TableNews.PingedCandidate | src/controller/dht/dht.c:634-661 | a request uses up the candidate of the node's bucket exactly from the third in vain on, and changes nothing else; blacklist_node always does |
| TableNews.ExpireCandidate | src/controller/dht/dht.c:982-1016 | a bucket that loses a node to expire_buckets uses up its candidate; all others stay as they are |
| TableFacts.BucketsTile | src/controller/dht/dht.c:483-505 | in every reachable table the 1 to 158 buckets are sorted from id 0, each is an aligned power-of-two range, and an id is in a bucket exactly when find_bucket returns it |
| TableFacts.OneBucketPerPrefixLength | src/controller/dht/dht.c:438-505 | in every reachable table of d + 1 buckets two ids share a bucket exactly when min(common_bits, d) agrees: the list is the k-bucket array |
| TableFacts.NodesInPlace | src/controller/dht/dht.c:735-977 | in every reachable table count is the list length and at most max_count in {8,16,32,64,128}, nodes are in their own bucket, ours is absent, and no id occurs twice |
| TableFacts.SplitNeverFails | src/controller/dht/dht.c:797-842 | in every reachable table splitting our full bucket for a further id succeeds, at depth at most 156 |
| TableFacts.MiddleIsMidpoint | src/controller/dht/dht.c:563-576 | in every reachable table bucket_middle gives the exact midpoint: both halves are the ids under the two longer prefixes |
| TableFacts.RandomIsInside | src/controller/dht/dht.c:579-598 | in every reachable table bucket_random's id is in its bucket for every random draw |
| Routing.RoutingTable.Find | src/controller/dht/dht.c:490-505 | the list walk returns the index of the bucket for the id |
| Routing.RoutingTable.FindNode | src/controller/dht/dht.c:525-541 | find_node returns the place of the node with the id, or that there is none |
| Routing.RoutingTable.Insert | src/controller/dht/dht.c:735-751 | insert_node puts the node first in its bucket, or reports the full bucket and changes nothing |
| Routing.RoutingTable.SplitHelp | src/controller/dht/dht.c:755-795 | split_bucket_helper has the effect of its specification, or returns -1 and changes nothing |
| Routing.RoutingTable.Split | src/controller/dht/dht.c:797-842 | split_bucket with its reinsertion loop ends in the table and freed nodes of its specification, or returns -1 |
| Routing.RoutingTable.Learn | src/controller/dht/dht.c:846-977 | new_node with its `goto again` ends in the table and answer of its specification; it hands the sender to add_search_node exactly for an accepted reply, once, and sets mybucket_grow_time exactly when our bucket is offered an id it does not have |
| Routing.RoutingTable.MarkPinged | src/controller/dht/dht.c:654-661 | pinged changes the one node and, from the third ping on, forgets the bucket's cached candidate |
| Routing.RoutingTable.Blacklist | src/controller/dht/dht.c:672-680 | blacklist_node marks the table's node with the id as known bad |
| Routing.RoutingTable.ExpireBuckets | src/controller/dht/dht.c:982-1016 | the sweep over the bucket list has the effect of its specification |
| Routing.Purge | src/controller/dht/dht.c:989-1010 | the unlinking loops leave exactly the nodes pinged fewer than four times, in order, and the right count |
| Routing.FullSplits | src/controller/dht/dht.c:943-950 | new_node never finds our full bucket too deep to split |
| Nearest.InsertNearest | src/controller/dht/dht.c:1053-1075 | one bounded sorted insertion keeps the list the nearest of all candidates offered |
| Nearest.OfferNearest | src/controller/dht/dht.c:1039-1097 | after any sequence of offers, in any order and with repetitions, the list is the strictly sorted nearest of all ids ever offered, up to its bound |
| Nearest.NearestUnique | src/controller/dht/dht.c:2648-2693 | there is only one such list |
| Closest.InsertClosest | src/controller/dht/dht.c:2648-2693 | insert_closest_node on the answer buffer is the bounded sorted insertion of the record |
| Closest.BufferClosest | src/controller/dht/dht.c:2695-2706 | buffer_closest_nodes offers exactly the good nodes of a bucket, in list order |
| Closest.SendClosest | src/controller/dht/dht.c:2708-2747 | send_closest_nodes offers the target's bucket, the next one and the previous one, where they exist |
| Closest.AnswerIsNearest | src/controller/dht/dht.c:2708-2747 | the answer is the min(8, available) nearest good nodes of the target's bucket and its neighbours, sorted, without repetition |
| Closest.OwnComesFirst | src/controller/dht/dht.c:2708-2747 | nodes of the target's own bucket come before all others in the answer |
| Closest.AnswerAllOwn | src/controller/dht/dht.c:2708-2747 | when the target's bucket has eight good nodes the answer holds no other |
| Closest.AnswerIsTrueNearest | src/controller/dht/dht.c:2708-2747 | and is then the true eight nearest good nodes of the whole table |
| Closest.AnswerRecords | src/controller/dht/dht.c:2695-2747 | every record of the answer is a good node of the target's bucket or of a neighbour, with that node's own address |
| Closest.StaleUnanswered | src/controller/dht/dht.c:602-607 | a node with three unanswered requests, silent for 15 minutes or without a reply for two hours is in no answer |
| Search.SearchSlot.Insert | src/controller/dht/dht.c:1039-1097 | insert_search_node on the array of fourteen records is the bounded sorted insertion or update of a record and tells where it is; NULL exactly for the wrong address family and for an id too far away for a full list |
| Search.SearchSlot.Flush | src/controller/dht/dht.c:1099-1106 | flush_search_node removes exactly entry i, keeps the order, and the search stays sorted |
| Search.SearchSlot.Drop | src/controller/dht/dht.c:682-688 | blacklist_node's loop, which skips an entry after each removal, still removes every entry with the id, from every search, whatever was done to it before |
| Search.SearchSlot.Reuse | src/controller/dht/dht.c:1372-1390 | the restart loop of dht_search leaves the sound nodes in order, each reset |
| Search.SearchHoldsNearest | src/controller/dht/dht.c:1039-1097 | a search only inserted into holds, strictly sorted, the fourteen nearest of all ids ever offered |
| Search.ReusedDrop | src/controller/dht/dht.c:1378-1390 | dropping a doubtful entry at once and starting over gives the same list as filtering |
| Search.SearchSlot.Confirm | src/controller/dht/dht.c:2183-2191 | a reply to announce_peer confirms the sender's record and no other |
| SearchSteps.StepWork | src/controller/dht/dht.c:1186-1266 | each step keeps pinged within 0..3; a step past its time guard finishes the search or lowers the sum of (3 - pinged), in the asking branch exactly when some entry may be asked |
| SearchSteps.SearchFinishes | src/controller/dht/dht.c:1186-1266 | with no new candidates or replies, the acting steps before done are at most the sum of (3 - pinged), one more if an entry was asked after the last acting step |
| SearchSteps.FortyTwo | src/controller/dht/dht.c:1186-1266 | so more than 42 acting steps on fourteen entries end in done |
| SearchSteps.DoneMeans | src/controller/dht/dht.c:1192-1266 | a step sets done exactly when the eight nearest live nodes (all, if fewer) have replied and, when announcing, have acked or gave no token; they are then marked acked |
| SearchSteps.StepRequests | src/controller/dht/dht.c:1186-1266 | every request is counted: a step lowers the sum of (3 - pinged) by exactly the number of requests it sends, at most 8 announcements or 4 questions, and done is set exactly when all have replied and nothing is sent |
| SearchSteps.AskToIs | src/controller/dht/dht.c:1249-1255 | the asking pass asks the first four entries that may be asked, or all of them |
| SearchRecords.InsertWrites | src/controller/dht/dht.c:1050-1095 | what insert_search_node writes: the address; from a reply its time and a clean count; a token of fewer than forty bytes; acked and the rest as they were, or empty for a new record |
| SearchRecords.InsertOthers | src/controller/dht/dht.c:1050-1095 | all other records stay as they are and in order; only the farthest of a full search may go, for a new one |
| SearchRecords.RestartForgets | src/controller/dht/dht.c:1378-1390 | a restart keeps exactly the records with fewer than three unanswered requests and a reply within two hours, with id, address and times, and forgets count, token, replied and acked |
| SearchRecords.ConfirmWrites | src/controller/dht/dht.c:2183-2191 | the reply to an announcement marks the sender's record acked with a clean count and its time; no other record changes |
| SearchRecords.MetWrites | src/controller/dht/dht.c:1170-1182 | add_search_node: the record is that of insert_search_node, and is asked exactly if it has at most two open requests, no answer and none sent for ten seconds |
| SearchRecords.PushWrites | src/controller/dht/dht.c:1143-1167 | search_send_get_peers without a node asks the farthest record that may be asked and changes no other |
| SearchRecords.AskToWhom | src/controller/dht/dht.c:1249-1255 | the questions of a step go to the first four records that may be asked |
| SearchRecords.AnnounceToIs | src/controller/dht/dht.c:1207-1240 | the announcements of a step go to those of the eight nearest live records that have neither acked nor left out the token |
| SearchRecords.StepWrites | src/controller/dht/dht.c:1186-1266 | search_step record by record: nothing within ten seconds unless the nearest have replied; then the announcements, if a port is given; else the questions |
| SearchRuns.RunSound | src/controller/dht/dht.c:1039-1406 | in every run of insertions, naming, steps, pushes, acknowledgements, blacklisting and restarts, in any order, a search has at most fourteen records, strictly sorted, no id twice, pinged within 0..3 |
| SearchRuns.RunHoldsNearest | src/controller/dht/dht.c:1039-1406 | in every such run it holds the fourteen nearest of the ids left when it last lost a record and of all offered since |
| SearchRuns.RunFinishes | src/controller/dht/dht.c:1186-1266 | whatever has happened to a search by time t, if then only steps follow it is done after at most 43 that act |
| SearchRuns.IdleStepExists | src/controller/dht/dht.c:1170-1266 | a step past its time guard can leave the list as it is without finishing: for any two nodes, a run in which the second was asked after the last step, by add_search_node or by the push after a reply |
| DhtRuns.Run | src/controller/dht/dht.c:654-1426 | after any run of new_node, events of searches, blacklist_node, dht_search and both expiries from dht_init on, the routing invariant holds, every search is sound, there are at most 1024, and no two for one hash |
| DhtRuns.CountIs | src/controller/dht/dht.c:654-661 | counting requests changes no place of the table but the ping counts, each by exactly the number of requests sent to its id |
| DhtRuns.TurnCounts | src/controller/dht/dht.c:1137-1266 | whatever happens to a search, the table counts exactly one ping for each node a request went to and changes nothing else |
| DhtRuns.TickCounts | src/controller/dht/dht.c:1186-1266 | a step takes from the requests the search may still send, the sum of (3 - pinged), exactly those the table is told of, at most eight, no node twice |
| DhtRuns.FilledNearest | src/controller/dht/dht.c:1302-1316 | dht_search leaves a search with the fourteen nearest of what it had and of the buckets it is offered |
| DhtRuns.FreshTrueNearest | src/controller/dht/dht.c:1405-1416 | a new search whose target's bucket has fourteen nodes starts with the fourteen nearest nodes of the whole table |
| DhtRuns.NewPlaceIs | src/controller/dht/dht.c:1268-1299 | new_search fails exactly when all 1024 searches are still running, a slot it reuses is of a finished search, the one stepped longest ago, and it takes a new slot exactly if there is one and no finished search was stepped longer than 62 minutes ago |
| DhtRuns.BannedGone | src/controller/dht/dht.c:664-693 | after blacklist_node no search has the node, and after the next expire_buckets the table does not either |
| DhtFacts.ReplyReaches | src/controller/dht/dht.c:1170-1182 | after a reply every search that is not full holds the sender with its address; after anything else, and in full searches, nothing is different |
| DhtFacts.ReplyCounts | src/controller/dht/dht.c:1160-1182 | and the table counts the requests that went to it |
| DhtFacts.StartedCode | src/controller/dht/dht.c:1320-1426 | dht_search returns 0 exactly if a search for the hash is still running, and -1, with nothing changed, exactly if there is none for it and all 1024 slots have running ones |
| DhtFacts.StartedSearch | src/controller/dht/dht.c:1320-1426 | when dht_search returns, the search for the hash has the port and is done only if it has no record at all; the other running searches are as before |
| DhtFacts.FilledOfTable | src/controller/dht/dht.c:1302-1316 | every record of a new search is a node of the table with its address, not asked yet |
| DhtFacts.NotFullHasAll | src/controller/dht/dht.c:1405-1416 | a new search that is not full has every node of the target's bucket, of the next, the previous and our own |
| DhtNode.LocalNode.Step | src/controller/dht/dht.c:1186-1266 | search_step on the array has the effect of its specification; for each request it sends, in order, the node is counted as pinged in the routing table |
| DhtNode.LocalNode.Push | src/controller/dht/dht.c:1137-1167 | without a node given, search_send_get_peers asks the last eligible entry, and none when there is none, and counts the ping in the routing table |
| DhtNode.LocalNode.AddNode | src/controller/dht/dht.c:1170-1182 | add_search_node inserts a node into a search that is not full and asks it at once if it may be asked, with the ping counted |
| DhtNode.LocalNode.Hear | src/controller/dht/dht.c:1039-1097 | insert_search_node for a node that a reply names, or for the sender of the reply, changes that search only |
| DhtNode.LocalNode.Confirm | src/controller/dht/dht.c:2183-2191 | a reply to announce_peer confirms the sender's record in the search and no other |
| DhtNode.LocalNode.Learn | src/controller/dht/dht.c:846-977 | new_node changes the table as specified, and exactly a sender that replied, is accepted and is not ourselves is then handed to every search, each of which may ask it |
| DhtNode.LocalNode.Ban | src/controller/dht/dht.c:664-693 | blacklist_node marks the node in the table and takes it out of every search |
| DhtNode.LocalNode.NewSearch | src/controller/dht/dht.c:1268-1299 | new_search chooses the slot of its specification |
| DhtNode.LocalNode.Search | src/controller/dht/dht.c:1330-1426 | dht_search finds the search for the hash and restarts it, or sets up a new one, offers it the buckets around the target and our own as far as there is room, makes the first step, and returns 0 for a search still running, 1 otherwise, -1 without a slot |
| DhtNode.LocalNode.ExpireSearches | src/controller/dht/dht.c:1108-1134 | the unlinking loop removes exactly the searches not stepped for 62 minutes, in order |
| Storage.StoreOk | src/controller/dht/dht.c:1444-1510 | storing keeps hash ids unique, peers unique per hash by address and port, numpeers <= maxpeers <= 2048 and at most 16384 hashes |
| Storage.PurgeKeepsFresh | src/controller/dht/dht.c:1519-1528 | the swap-with-last loop keeps exactly the multiset of fresh peers |
| Storage.ExpiredIs | src/controller/dht/dht.c:1512-1550 | after expiry a hash is stored exactly when it had a fresh peer, with exactly its fresh peers |
| Storage.ExpireIsExpired | src/controller/dht/dht.c:1512-1550 | the unlinking sweep equals purging every hash and dropping the emptied ones, in order |
| Storage.ExpireOk | src/controller/dht/dht.c:1512-1550 | expiry keeps the storage invariant |
| Storage.PeerStore.StorageStore | src/controller/dht/dht.c:1444-1510 | storage_store changes the list as specified, keeps numstorage the list length, and returns 1, 0 or -1 accordingly |
| Storage.PeerStore.Expire | src/controller/dht/dht.c:1512-1550 | expire_storage changes the list as specified; the clamp of numstorage at 0 is never needed |
| Storage.StoreIs | src/controller/dht/dht.c:1444-1510 | storage_store touches no other hash; 1 exactly when the peer was new and had room, and is then appended; a known peer only gets a new time; -1 exactly for a new hash with 16384 stored |
| Storage.StorePeerIs | src/controller/dht/dht.c:1444-1510 | the peers of a hash as above, and maxpeers: 2, 4, 8 and so on up to 2048, larger only when the list was full |
| Storage.PurgeRecent | src/controller/dht/dht.c:1519-1528 | a peer stays exactly if it was announced within the last 32 minutes |
| RateLimit.Limiter.TokenBucket | src/controller/dht/dht.c:1896-1910 | token_bucket refills by 100 a second up to 400, takes one token, and refuses exactly when there is none |
| RateLimit.PassedSinceStart | src/controller/dht/dht.c:1896-1910 | with a clock that never goes back at most 400 + 100 (t - t0) requests pass up to time t |
| RateLimit.PassedInWindow | src/controller/dht/dht.c:1896-1910 | in any window from s to t at most 800 + 100 (t - s) requests pass, and the tokens stay within 0..400 |
| RateLimit.BurstPasses | src/controller/dht/dht.c:1896-1910 | nothing is refused without need: a dry bucket that had time for k tokens passes k requests at one moment |
| RateLimit.RefusedOnlyDry | src/controller/dht/dht.c:1896-1910 | a request is refused exactly when no token is left and no second has passed |
| Krpc.MemMem | src/controller/dht/dht.c:2875-2892 | dht_memmem returns the first occurrence of the marker, and -1 exactly when there is none |
| Krpc.ReadValues | src/controller/dht/dht.c:2996-3028 | the values loop splits the list into 6-byte and 18-byte entries up to 2048 bytes each, or finds it truncated |
| Krpc.ReadWant | src/controller/dht/dht.c:3030-3048 | the want loop reads the flags n4 and n6 |
| Krpc.ParseMessage | src/controller/dht/dht.c:2896-3070 | parse_message yields the message of its specification, and -1 for a missing terminator, a truncated field or an unknown kind |
| KrpcMarkers.PastIsFollow | src/controller/dht/dht.c:2875-2892 | for any payloads the first occurrence of a marker is inside the first payload that holds it, with the letters printed behind, or at the first colon the printer wrote that has the marker's text around it, whichever comes first |
| KrpcMarkers.ClearCalm | src/controller/dht/dht.c:2912-3063 | a marker that does not occur in a payload and the letters printed behind it begins nowhere in them: none straddles their end |
| KrpcMarkers.NoColonIsQuiet | src/controller/dht/dht.c:2912-3063 | in particular a payload without a colon holds no marker |
| KrpcRoundTrip.StrtolReads | src/controller/dht/dht.c:2908-2917 | strtol reads back every printed number and stops at the next byte |
| KrpcFields.KindIs | src/controller/dht/dht.c:3051-3065 | the kind of every query is recovered if and only if no payload holds the marker of a reply, of an error, or of a query that is asked for before it |
| KrpcFields.TidIs | src/controller/dht/dht.c:2912-2922 | the transaction id of every query is recovered unless a payload holds "1:t", and then it is what stands behind the first one |
| KrpcFields.IdIs | src/controller/dht/dht.c:2924-2928 | the sender's id is recovered whatever the payloads hold |
| KrpcFields.ArgumentsAre | src/controller/dht/dht.c:2930-3047 | info hash, target, port, token and want are what was sent, or what stands behind the marker in the first payload ahead that holds it |
| KrpcFields.ReplyFields | src/controller/dht/dht.c:2945-3028 | implied_port, nodes, nodes6 and values of a query can only come out of a payload |
| KrpcExact.PingRoundTrip | src/controller/dht/dht.c:2513-2531 | parse_message recovers a printed ping whose id is quiet: kind, id and transaction id, every other field at its default; transaction id and version may be any bytes |
| KrpcExact.LookupRoundTrip | src/controller/dht/dht.c:2552-2783 | parse_message recovers a printed find_node or get_peers whose id and argument are quiet: kind, id, transaction id, target or info hash, and want |
| KrpcExact.ExactRoundTrip | src/controller/dht/dht.c:2513-3070 | for all four queries and any payloads of the senders' sizes: parse_message recovers exactly what was sent if and only if in no payload it first meets the marker of another kind, or of a field with something else behind it |
| KrpcExact.QuietRoundTrip | src/controller/dht/dht.c:2513-3070 | in particular every query is recovered whose id, argument and token, each with the letters printed around it, hold no marker |
| KrpcExact.PingKind | src/controller/dht/dht.c:3051-3058 | a ping is taken for a ping if and only if its id, with the "e1" behind it, holds neither "1:y1:r" nor "1:y1:e" |
| KrpcExact.PingTid | src/controller/dht/dht.c:2912-2922 | its transaction id is recovered when the id holds no "1:t"; else it is what stands behind the first one |
| KrpcToken.AnnounceRoundTrip | src/controller/dht/dht.c:2785-2813 | the announce_peer round trip with quiet id and info hash, for tokens of any 1 to 39 bytes: exact if and only if the token, with its printed length and the letters around it, shows no kind, no transaction id and no field but what was sent |
| KrpcToken.PlainTokenRoundTrip | src/controller/dht/dht.c:2785-2813 | for tokens without a colon: exact if and only if the token is not one of length 1, 11, 21 or 31 that begins with t |
| KrpcOwnToken.OwnTokenRoundTrip | src/controller/dht/dht.c:1568-1596 | for tokens of eight bytes, as this program makes them: exact if and only if the token with its "e1" holds neither the marker of a reply nor that of an error, and holds no "1:t" or spells the transaction id behind it |
| KrpcOwnToken.OwnTokenMisread | src/controller/dht/dht.c:1568-1596 | the eight-byte token "1:y1:r12" turns every announce_peer into a reply |
| KrpcLimits.MarkerInIdMisread | src/controller/dht/dht.c:2912-2922 | an id that contains "1:t1:" and no earlier colon makes the parser take the next byte for the transaction id |
| KrpcLimits.MarkerBehindIdMisread | src/controller/dht/dht.c:3051-3056 | a marker can also be completed by what is printed behind the id: an id ending in "1:y1:" turns a ping into an error or a reply |
| KrpcLimits.QueriesFit | src/controller/dht/dht.c:2466-2481 | the four queries fit the senders' buffers of 512 bytes, so none of the checks on the way fails |
| KrpcValues.PeersRead | src/controller/dht/dht.c:2996-3028 | from any printed list of strings the parser takes the first 341 of 6 bytes and the first 113 of 18 bytes, in order, each kind in its own list, up to an empty string |
| KrpcValues.OwnPeersRead | src/controller/dht/dht.c:2612-2640 | up to fifty peers of one family, as send_nodes_peers prints them, all arrive in the list of their family |
| KrpcValues.CountedIs | src/controller/dht/dht.c:2960-2994 | a counted string is read exactly if its length is in range, left empty if not, and the message is refused if it is cut short |
| KrpcValues.NumberIs | src/controller/dht/dht.c:2936-2952 | a number is read exactly from 1 to 65535 |
| KrpcValues.FlagsRead | src/controller/dht/dht.c:3030-3047 | from any list of strings of one to nine bytes the flags are n4 and n6, wherever they stand |
| KrpcValues.TwentyIs | src/controller/dht/dht.c:2924-2934 | a field of twenty bytes is read, or the message is refused if it is cut short |
| KrpcReply.ReplyRoundTrip | src/controller/dht/dht.c:2532-2840 | every reply whose payloads hold no marker is recovered: kind, ids, nodes up to 416 bytes, nodes6 up to 608, token up to 127, and the peers of both families; all other fields at their defaults |
| KrpcReply.ReplyFinds | src/controller/dht/dht.c:2875-2892 | where each marker of the parser is met in such a reply |
| KrpcBencode.QueryIsBencode | src/controller/dht/dht.c:2513-2813 | each printed query is the bencoded dictionary of BEP 5, keys in order |
| KrpcBencode.ReplyIsBencode | src/controller/dht/dht.c:2532-2840 | so is each printed reply |
| RbShape.PlugRedBlack | src/include/tree.h:41-57 | a subtree that fits its place in a path that obeys the rules makes a red-black tree |
| RbShape.PathOfRedBlack | src/include/tree.h:41-57 | every place in a red-black tree has such a path |
| RbShape.PlugOrder | src/include/tree.h:340-378 | the key order of a tree is that of what lies before the place, the subtree, and what lies after it |
| RbShape.RotateOrder | src/include/tree.h:340-378 | a rotation in either direction keeps the key order |
| RbShape.HeightIsLogarithmic | src/include/tree.h:58-59 | the height is at most 2 lg(n + 1), stated as 2^height <= (n + 1)^2 |
| RbLinks.Head.HeightOfTree | src/include/tree.h:58-59 | the same for the nodes linked below a head |
| RbLinks.Head.Rotate | src/include/tree.h:340-378 | RB_ROTATE_LEFT and RB_ROTATE_RIGHT relink exactly the two nodes: child and parent links, the link from above or the root, and every untouched subtree stay consistent |
| RbLinks.Head.Link | src/include/tree.h:325-329 | the new red leaf is linked at the end of the descent and nothing else changes |
| RbLinks.Head.CutOut | src/include/tree.h:606-620 | a node with at most one child leaves the tree and its subtree takes its place, links included |
| RbLinks.Head.TakePlace | src/include/tree.h:585-600 | the successor takes over the removed node's links and color, and all neighbours point to it |
| RbInsert.UncleRed | src/include/tree.h:441-447 | the red uncle case moves the only red-red conflict two levels up and keeps black heights and order |
| RbInsert.UncleBlack | src/include/tree.h:448-455 | the rotations of the black uncle case end the conflict and keep black heights and order |
| RbInsert.InsertColor | src/include/tree.h:432-475 | RB_INSERT_COLOR ends with a red-black tree of the same key order, root black, links consistent |
| RbInsert.Insert | src/include/tree.h:624-654 | RB_INSERT returns the element with the same key if there is one and then changes nothing; otherwise the elements gain exactly elm, and search order, links and colors are again a red-black tree |
| RbRemove.MakeSiblingBlack | src/include/tree.h:485-489 | the red sibling rotation keeps the one-black-too-few place and gives it a black sibling |
| RbRemove.MoveUp | src/include/tree.h:490-496 | with two black nephews the missing black moves one level up |
| RbRemove.TurnIn | src/include/tree.h:498-508 | the inner nephew rotation makes the outer nephew red without changing black heights |
| RbRemove.FillGap | src/include/tree.h:509-516 | the last rotation supplies the missing black node: the whole tree obeys the rules again |
| RbRemove.RemoveColor | src/include/tree.h:477-554 | RB_REMOVE_COLOR ends with a red-black tree of the same key order, links consistent |
| RbRemove.Succeed | src/include/tree.h:566-605 | the exchange of a node with two children for its successor keeps every link consistent, also when the successor is its own right child |
| RbRemove.Remove | src/include/tree.h:556-622 | RB_REMOVE takes exactly elm out: the other elements, search order, links and colors are again a red-black tree |
| RbQuery.Find | src/include/tree.h:656-673 | RB_FIND returns the element with the key, and null exactly when there is none |
| RbQuery.NFind | src/include/tree.h:675-695 | RB_NFIND returns the least element whose key is not below the given one, and null exactly when all are below |
| RbQuery.Neighbor | src/include/tree.h:697-741 | RB_NEXT and RB_PREV return the element right after or before in key order, null at the ends |
| Splay.SplayHead.RotateRoot | src/include/tree.h:86-96 | the rotation at the root relinks exactly the two nodes and leaves both chains and every subtree consistent |
| Splay.SplayHead.LinkRoot | src/include/tree.h:98-108 | the root joins the chain of passed nodes on its side, its child becomes the root, no node is lost |
| Splay.SplayHead.Assemble | src/include/tree.h:110-115 | the four links of SPLAY_ASSEMBLE make one tree of the two chains and the root's subtrees, holding every node once |
| Splay.SplayHead.Splay | src/include/tree.h:207-240 | SPLAY keeps the elements and their order and brings to the root the element with the key, or a neighbor of the place it would have |
| Splay.SplayHead.Find | src/include/tree.h:126-135 | SPLAY_FIND returns the element with the key, then at the root, and null exactly when there is none |
| Splay.SplayHead.Insert | src/include/tree.h:162-184 | SPLAY_INSERT adds exactly elm, or returns the element that already has its key and keeps the elements; search order holds again |
| Splay.SplayHead.Remove | src/include/tree.h:186-205 | SPLAY_REMOVE takes out exactly the element with elm's key, null exactly when there is none; search order holds again |
| Splay.OnlyRoot | src/include/tree.h:132-134 | after a splay only the root can have the key |
| Md5.DecodeEncode | src/block/word/md5.c:54-79 | decoding encoded words gives the words back |
| Md5.EncodeDecode | src/block/word/md5.c:54-79 | encoding decoded bytes gives the bytes back |
| Md5.EncodeLoop | src/block/word/md5.c:54-66 | MD5Encode writes each word as four bytes, lowest first |
| Md5.DecodeLoop | src/block/word/md5.c:67-79 | MD5Decode reads four bytes a word, lowest first |
| Md5Rounds.Round1 | src/block/word/md5.c:88-103 | the sixteen unrolled FF steps are steps 1 to 16 of the table of RFC 1321, section 3.4 |
| Md5Rounds.Round2 | src/block/word/md5.c:106-121 | the sixteen unrolled GG steps are steps 17 to 32 of that table |
| Md5Rounds.Round3 | src/block/word/md5.c:124-139 | the sixteen unrolled HH steps are steps 33 to 48 of that table |
| Md5Rounds.Round4 | src/block/word/md5.c:142-157 | the sixteen unrolled II steps are steps 49 to 64 of that table |
| Md5.Transform | src/block/word/md5.c:80-162 | MD5Transform is the compression of RFC 1321, section 3.4: all 64 steps, then the sum with the old state |
| Md5.BlocksAppend | src/block/word/md5.c:33-34 | compressing two messages of whole blocks one after the other is compressing their concatenation |
| Md5.CounterAdds | src/block/word/md5.c:24-27 | the two-word counter with its carry grows by 8n modulo 2^64 for every chunk below 2^32 bytes |
| Md5.CountsIndex | src/block/word/md5.c:22 | the counter gives the fill of the buffer and the two words of the length |
| Md5Stream.Md5Context.Update | src/block/word/md5.c:19-42 | MD5Update appends the chunk to everything taken in so far, whatever waits in the buffer |
| Md5Stream.Md5Context.Final | src/block/word/md5.c:43-53 | MD5Final gives the one-shot digest of everything taken in: padding and length of RFC 1321, sections 3.1 and 3.2 |
| Md5Stream.HashPieces | src/block/word/md5.c:19-53 | any division of a message into chunks below 2^32 - 64 bytes gives the same digest |
| Md5Rounds.FBits | src/block/word/md5.h:12 | F is "if X then Y else Z", bit by bit |
| Md5Rounds.GBits | src/block/word/md5.h:13 | G is "if Z then X else Y", bit by bit |
| Md5Rounds.HBits | src/block/word/md5.h:14 | H is the parity of the three bits |
| Md5Rounds.IBits | src/block/word/md5.h:15 | I is Y, turned over where X is set or Z is not |
| Md5Vector.AbcDigest | src/block/word/md5.c:80-162 | the digest of "abc" is that of RFC 1321, section A.5, worked out step by step: it fixes the constants, tables, rotations and byte orders |

## Left out

- SearchSteps.SearchFinishes: counts one step more when a node was asked after the last acting step, as explained above.
- Routing.RoutingTable.Learn: the martian test and the ring of blacklisted addresses are one flag of the input.
- DhtNode.LocalNode.Step: the callback, which is called exactly when done is set, is not modelled.
- DhtNode.LocalNode.Search: peers in local storage, which go to the callback at once, are left out; when all 1024 searches are running the code goes on to read `oldest->done` through a null pointer, and the model returns -1, as the comment behind it has it.
- DhtNode.LocalNode.Ban: each object is one address family; what a message does to the other family is an act of the other object, here with the table left alone.
- Krpc.ParseMessage: numbers are unbounded where strtol would stop at the range of a long; such a number is out of range either way.
- Lists: buckets, nodes, searches and storage entries are sequences in fields of their class, so pointer relinking and freeing in the lists of `dht.c` are not modelled. The trees of `tree.h` are modelled with pointers.
- Sending: requests, replies and pings change the state as in the source, but the datagrams themselves are only modelled as the printed text of the four queries; flags and socket errors are not.
- KrpcReply.ReplyRoundTrip: assumes that no payload holds a marker, where the round trip of the queries has the exact condition; node lists are raw payload and may contain one.
- Errors: `send_error`; and which slice of the stored peers `send_nodes_peers` picks, and how it packs node lists.
- The driver: `dht_periodic`, maintenance of buckets and neighbourhood, secrets and tokens, the dispatch of a message to its handlers, callbacks.
- khash: the hash function is a constant parameter, `& mask` is the remainder by a power of two, the upper bound `n * 0.77 + 0.5` is `(77 * n + 50) / 100`, which agrees for every power of two up to 2^31; `kh_get` and `kh_put` share one walk; keys are compared with `==`.
- Trees: `cmp` is the comparison of integer keys; `RB_AUGMENT` is empty as in the header; `RB_MINMAX`, `SPLAY_NEXT` and `SPLAY_MINMAX`, which add no new kind of step; the amortised cost of splaying.
- MD5: no claim about collisions; the hexadecimal output of `md5`.
- File-backed blocks (`src/block`), the REST layer and the process around the node: input and output wrappers.
- Clocks that go back, allocation failure, debug output.
