# masala

A model of masala, a peer-to-peer name resolution daemon on a Kademlia-like distributed hash table,
with proofs about it:

- **Routing table** (`Ids`, `Routing`, `RoutingProofs`, `RoutingSplit`, `Neighborhood`,
  `SplitLoops`): buckets that cut the 160-bit id space into aligned intervals, how a split bisects
  one of them, and exactly when the splitting loop ends.
- **SHA-1** (`Sha1` with the modules `Fips180` and `Sha1`, `Sha1Stream`, `Sha1Example` with
  the module `Fips180Example`): the rolling schedule, the rotated registers, the streaming buffer
  and the padding, against FIPS 180-1 and its own example.
- **Bencode** (`Bencode`, `BencodeProofs`, `BencodeCodec`, `BencodeUnchecked`): validator, decoder and
  encoder against one grammar, and what the decoder does without the validator.
- **Containers** (`LinkedList`, `Hash`, `IndexedTable`, `Tables`, `Sweep`): the doubly linked list on
  the heap, the hash table with its key pointers, list and index kept in agreement, and the
  counter-bounded expiry loops.
- **Protocol** (`Protocol`, `SessionHistory`, `ProtocolSafety`, `ProtocolEffects`, `Exchange`, `Daemon`):
  sessions, lookups and announcements as a state machine; what holds in every run; what each step
  does; a reply from sender to receiver; and an object over the lists and hash indexes of the
  containers whose methods take the steps of the machine.
- **Messages** (`NodeMessage`, `Dns`, `Buffers`): a node list from sender to receiver, and the domain
  name coding of section 3.1 of RFC 1035.

`Powers` and `Options` hold arithmetic and the option type. `dafny verify dfyconfig.toml` checks
everything.

Random numbers are an arbitrary function of the number of draws made before; time is a state
component; a send is an event in a ghost trace. Each handler and each cron call is one atomic step.

## Where the code does not do what it is meant to

- `list_ins` (src/list.c:116-123) does not move `stop` when it inserts behind the last of two or more
  items. The model follows the code. `LinkedList.List.Ins` and `RoutingSplit.SplitKeepsWellFormedIff`
  say exactly when `stop` is right afterwards; `RoutingSplit.NbhdSplitEndsIff` says exactly when
  `nbhd_split` still ends; `SplitLoops.NbhdSplitLoops` runs into a table on which it does not.
- The validator accepts a top-level number or string length that the end of the buffer cuts off
  (src/ben.c:637-677, 698-736), and the decoder then reads behind the buffer.
  `BencodeUnchecked.ValidatedDecodesIff` gives the exact condition and `CutOffNumber` an input.
- A byte count is accumulated from chunk sizes modulo 2^32 (src/sha1.c:268). `PaddingIsFipsIff` and
  `OneBufferIff` say when the padding is still right, and `WrongPadding` gives an input.
- The coded domain name of an empty label reads as the end of the name, so names with one do not come
  back; `Dns.CodeDecodeIff` gives the exact condition and `EmptyLabelLost` an input.
  Labels of 64 to 255 octets, which RFC 1035 excludes, do come back.
- `db_expire` and `nbhd_expire` compare an index with a counter that their own deletions lower, so one
  pass may leave due entries. `Sweep.PassDrainsIff` says exactly when it leaves none, `PassLeavesOne`
  gives an input, and `PassHalves` and `PassesDrain` bound what is left.
- A comment at src/announce.c:85 says 5 seconds where the code, and the model, use 10.

## Model

| member | source | states |
|---|---|---|
| Ids.MemCmpOrdersValues | src/bucket.c:131-152 | memcmp on ids of equal length orders them as big-endian numbers, and is 0 exactly on equal ids |
| Ids.SignificantBitValue | src/bucket.c:295-315 | the last set bit at position k means: the id is an odd multiple of the power of two below bit k; no set bit means zero |
| Ids.SetBitValue | src/bucket.c:289-292 | setting a clear bit adds exactly its power of two to the id |
| RoutingProofs.BucketIdsIncrease | src/bucket.c:52-64 | bucket ids strictly increase along the list |
| RoutingProofs.BestMatchIsTheBucket | src/bucket.c:131-152 | the byte-wise walk, with the stop pointer as its fallback, returns the one bucket whose interval contains the id, and no other |
| RoutingProofs.FindNodeIsGlobal | src/bucket.c:180-204 | searching only the best match finds an id if and only if it is anywhere in the table |
| RoutingProofs.ComputeIdIsMidpoint | src/bucket.c:267-293 | the new id is exactly the midpoint of the bucket's interval; "no more bits" happens exactly on an interval of width one |
| RoutingProofs.EndBits | src/bucket.c:267-315 | max(bit1, bit2) + 1 is 160 minus the logarithm of the interval's width |
| RoutingProofs.PutKeepsWellFormed | src/bucket.c:85-105 | a put keeps every node at home and ids distinct, and adds exactly the one node if its id is new, nothing otherwise |
| RoutingProofs.DelKeepsWellFormed | src/bucket.c:107-129 | a deletion keeps the table well formed and takes out exactly the node with that id |
| RoutingProofs.SplitConserves | src/bucket.c:206-265 | on any table whatever, a split neither loses nor duplicates a node |
| RoutingSplit.SplitBisects | src/bucket.c:206-265 | a split replaces the own bucket by its two halves, each with its nodes in their old order, and leaves every other bucket untouched |
| RoutingSplit.SplitsIff | src/bucket.c:206-293 | a well-formed table splits if and only if the own bucket holds more than 8 nodes: the "no more bits" return is unreachable |
| RoutingSplit.SplitKeepsWellFormedIff | src/list.c:98-130 | a split keeps the table well formed if and only if it does not cut the last of two or more buckets, where list_ins leaves the stop pointer behind |
| RoutingSplit.SplitStep | src/neighborhood.c:109-116 | each round keeps the table reachable and halves the interval that holds the own id |
| RoutingSplit.NbhdSplitEndsIff | src/neighborhood.c:109-116 | the loop ends if and only if the own id lies in the lower half or at most 8 nodes of the table lie in the upper half |
| RoutingSplit.StuckForever | src/neighborhood.c:109-116 | from the stuck state no number of rounds ends the loop |
| SplitLoops.NbhdSplitLoops | src/neighborhood.c:109-116 | after nine nbhd_put of given ids into the initial table of a daemon whose id starts with bit 1, the table is reachable and the loop never ends |
| Neighborhood.NeighborhoodPutKeepsReachable | src/neighborhood.c:67-103 | the table stays reachable (own id absent) and afterwards knows any other id under the address given |
| Neighborhood.NeighborhoodPutEffect | src/neighborhood.c:67-103 | for a known id only the address of that one node changes; for a new id exactly one node is added, with one ping outstanding; for the own id nothing |
| Neighborhood.NeighborhoodPutOthers | src/neighborhood.c:67-103 | every other id is known or unknown as before, and the same node |
| Neighborhood.UpdatedExchanges | src/neighborhood.c:262-292 | an update exchanges the one node of that id and no other |
| Neighborhood.PutIsFound | src/bucket.c:85-105 | a node that was put is what a search for its id returns |
| Neighborhood.DelKeepsReachable | src/neighborhood.c:105-107 | a deletion keeps the table reachable |
| Neighborhood.UpdatedKeepsReachable | src/neighborhood.c:262-292 | changing a node's fields but not its id keeps the table reachable |
| Neighborhood.DelInPlace | src/bucket.c:107-129 | deleting by id the node at a known place removes that place and no other |
| Neighborhood.Neighborhood.constructor | src/bucket.c:52-64 | one empty bucket with the zero id, a reachable table for every own id |
| Neighborhood.Neighborhood.FindBestMatch | src/bucket.c:131-152 | the loop computes the best match |
| Neighborhood.Neighborhood.LocateNode | src/bucket.c:180-204 | finds the bucket, place and node of an id, or reports that there is none |
| Neighborhood.Neighborhood.BcktPut | src/bucket.c:85-105 | takes the step Put on the table |
| Neighborhood.Neighborhood.BcktDel | src/bucket.c:107-129 | takes the step Del on the table |
| Neighborhood.Neighborhood.LastSetBit | src/bucket.c:295-315 | the two loops find the last set bit, -1 for the zero id |
| Neighborhood.Neighborhood.NewBucketId | src/bucket.c:267-293 | computes the id that ComputeIdIsMidpoint is about |
| Neighborhood.Neighborhood.InsertBucket | src/list.c:98-130 | the new bucket stands right behind the given one and all others keep their order; with two or more buckets the stop pointer keeps naming the bucket it named, so it is still the end if and only if the list had one bucket or the new one is not last |
| Neighborhood.Neighborhood.BcktSplit | src/bucket.c:206-265 | takes the step Split on the table, with its return code, for any own id |
| Neighborhood.Neighborhood.NbhdSplit | src/neighborhood.c:109-116 | terminates when it can, leaves at most 8 nodes in the own bucket, and keeps the multiset of nodes and the table's shape |
| Neighborhood.Neighborhood.NbhdPut | src/neighborhood.c:67-103 | ignores the own id, updates a known node's address, or adds a node, and tells which |
| Neighborhood.Neighborhood.Pinged | src/neighborhood.c:262-275 | counts a ping against a known node, in place, and changes nothing else |
| Neighborhood.Neighborhood.Ponged | src/neighborhood.c:277-292 | clears the count and stores the address of a known node, in place, changes nothing else, and tells whether the node was known |
| Neighborhood.Neighborhood.ExpireBucket | src/neighborhood.c:302-323 | the inner loop never follows a pointer off the list and leaves exactly one counter-bounded pass of that bucket |
| Neighborhood.Neighborhood.Expire | src/neighborhood.c:294-324 | every bucket gets one counter-bounded pass and the table stays reachable |
| Neighborhood.ExpiredKeepsReachable | src/neighborhood.c:294-324 | the same on tables: what the passes leave is a reachable table |
| Neighborhood.ExpiredDrainsIff | src/neighborhood.c:294-324 | no bad node is left if and only if in every bucket, of D bad nodes, none is among the last D - 1 |
| Neighborhood.ExpiredNodes | src/neighborhood.c:313-317 | a node with fewer than 4 unanswered pings stays, none is added, and a node alone in its bucket goes exactly with 4 or more |
| Sweep.PassHalves | src/database.c:101-122 | a pass removes only due entries, keeps all others in order, and leaves at most as many due entries as it removed |
| Sweep.PassesDrain | src/neighborhood.c:294-324 | after n passes at most one in 2^n due entries is left, and none once 2^n exceeds their number |
| Sweep.PassDrainsIff | src/database.c:101-122 | one pass removes every due entry if and only if, of D due entries, none is among the last D - 1 of the list |
| Sweep.PassLeavesOne | src/database.c:101-122 | of two due entries one pass leaves the second |
| Sweep.SweepStep | src/database.c:101-122 | one round of the loop carries the invariant from j to j + 1 whether it deletes or moves on |
| Sha1.ChooseIsF | src/sha1.c:139-139 | the rewritten F of rounds 0 to 19 is the FIPS 180-1 function |
| Sha1.MajorityIsF | src/sha1.c:193-193 | the rewritten F of rounds 40 to 59 is the FIPS 180-1 function |
| Sha1.RolledIsNext | src/sha1.c:121-126 | the word R computes from 16 words in place is the next word of the 80-word schedule |
| Sha1.Roll | src/sha1.c:121-126 | overwriting one slot moves the 16-word window by one |
| Sha1.ScheduleIsSchedule | src/sha1.c:98-118 | the schedule used as reference satisfies the recurrence of section 7 of FIPS 180-1 |
| Sha1.R | src/sha1.c:121-126 | stores and returns word t of the schedule and keeps the window |
| Sha1.P | src/sha1.c:128-131 | on registers in rotated roles, performs round t of FIPS 180-1 |
| Sha1.FiveFirst | src/sha1.c:142-156 | five rounds after which each register is back in its first role |
| Sha1.FiveRolling | src/sha1.c:158-242 | the same with words recomputed in place |
| Sha1.Process | src/sha1.c:98-252 | equals the 80-word compression of section 7 of FIPS 180-1 for every state and block |
| Fips180.FoldPrefix | src/sha1.c:257-296 | folding n blocks depends only on the bytes of these blocks |
| Sha1Stream.Context.constructor | src/sha1.c:86-96 | the context of the empty message |
| Sha1Stream.Context.Update | src/sha1.c:257-296 | whatever the chunking, the context stands for the concatenation of all bytes given |
| Sha1Stream.Context.Count | src/sha1.c:268-272 | the two words with their carry test count modulo 2^64, each chunk modulo 2^32 |
| Sha1Stream.Context.Absorb | src/sha1.c:274-295 | completes a part-filled buffer, folds whole blocks and keeps the rest |
| Sha1Stream.Blocks | src/sha1.c:284-289 | the block loop folds exactly the whole blocks |
| Sha1Stream.Context.LengthWords | src/sha1.c:315-320 | the shifted words spell eight times the byte count |
| Sha1Stream.Context.Finish | src/sha1.c:309-333 | the digest of the message padded with the accumulated count |
| Sha1Stream.Digest20 | src/sha1.c:338-347 | the FIPS 180-1 hash of every buffer whose length, modulo 2^61, is less than 2^32 |
| Sha1Stream.OneBufferIff | src/sha1.c:338-347 | the padding of a message given in one buffer is right if and only if its length, modulo 2^61, is less than 2^32 |
| Sha1Stream.WrongPadding | src/sha1.c:338-347 | a buffer of 2^32 bytes is padded with the bit count of an empty one |
| Sha1Stream.ChunksDoNotMatter | src/sha1.c:257-296 | contexts given the same bytes in any chunks hold the same state words and the same rest; their counts agree if and only if the accumulated ones do |
| Sha1Stream.PaddingIsFipsIff | src/sha1.c:309-333 | the padding is that of section 4 of FIPS 180-1 if and only if the accumulated count agrees with the length modulo 2^61 |
| Sha1Stream.BitCount | src/sha1.c:315-320 | the bit count in two words, for every count |
| Fips180Example.DigestOfAbc | src/sha1.c:98-347 | the digest of abc is the one of Appendix A of FIPS 180-1, with its table of 80 rows |
| Fips180Example.InitialState | src/sha1.c:91-95 | the bytes of the initial state, least significant first, count up, down and by twos |
| Fips180Example.ConstantsAreRoots | src/sha1.c:139-241 | each round constant is 2^30 times the square root of 2, 3, 5 or 10, rounded down |
| BencodeProofs.ParseIff | src/ben.c:372-737 | reading a tree between two positions is equivalent to that stretch being an encoding of it: the grammar is unambiguous |
| BencodeProofs.ParseStrIff | src/ben.c:445-484 | the same for strings: 1 to 10 digits, a colon, 1 to 33554432 bytes |
| BencodeProofs.ParseIntIff | src/ben.c:486-533 | the same for integers: an optional minus sign and 1 to 19 digits, with atol's saturation |
| BencodeProofs.NumberOfDecimal | src/ben.c:348-353 | reading back a printed number gives the number |
| BencodeProofs.EncDenotes | src/ben.c:299-370 | what the encoder writes is an encoding of the tree |
| BencodeProofs.RoundTrip | src/ben.c:299-533 | encoding followed by any bytes decodes to the same tree, with the cursor at its end |
| BencodeProofs.RoundTripIff | src/ben.c:299-533 | the round trip works for exactly the trees of strings of 1 to 33554432 bytes and integers of magnitude at most 2^63 - 1 |
| BencodeProofs.Limits | src/ben.h:25-32 | strings of 1 to 33554432 bytes and integers of magnitude at most 9223372036854775807 come back, no others |
| BencodeProofs.EncExample | src/ben.c:299-370 | a dictionary with an integer and a list, byte for byte |
| BencodeProofs.IntDigitLimit | src/ben.c:698-736 | an integer is read from 1 to 19 digits and from no other number of them |
| BencodeProofs.StrDigitLimit | src/ben.c:628-678 | a string is read behind 1 to 10 digits that give its length, 1 to 33554432 |
| BencodeProofs.PrefixFree | src/ben.c:299-370 | no encoding is a prefix of another tree's encoding |
| BencodeProofs.ParsedWellFormed | src/ben.c:535-737 | every tree that is read is well formed |
| BencodeProofs.Normalise | src/ben.c:299-533 | encoding what was read and reading that again changes nothing |
| BencodeCodec.Raw.ValidateS | src/ben.c:628-678 | accepts exactly a string or a digit run that the buffer's end cuts off, and says where it stops |
| BencodeCodec.Raw.ValidateI | src/ben.c:680-737 | accepts exactly an integer or one that the buffer's end cuts off, and says where it stops |
| BencodeCodec.Raw.ValidateR | src/ben.c:545-590 | accepts exactly a readable tree or a cut-off number at its top; terminates, measured by the bytes left |
| BencodeCodec.Raw.ValidateD | src/ben.c:592-609 | accepts exactly a readable dictionary and stops behind it |
| BencodeCodec.Raw.ValidateL | src/ben.c:611-626 | accepts exactly a readable list and stops behind it |
| BencodeCodec.Raw.DecR | src/ben.c:382-413 | on a readable tree never reads outside the buffer, returns the tree and stops where the validator does |
| BencodeCodec.Raw.DecD | src/ben.c:415-429 | the same for dictionaries |
| BencodeCodec.Raw.DecL | src/ben.c:431-443 | the same for lists |
| BencodeCodec.Raw.DecS | src/ben.c:445-484 | the same for strings |
| BencodeCodec.Raw.DecI | src/ben.c:486-533 | the same for integers |
| BencodeCodec.BenValidate | src/ben.c:535-543 | accepts exactly the buffers described above |
| BencodeCodec.BenDec | src/ben.c:372-380 | returns the tree at the start of the buffer |
| BencodeCodec.EncSize | src/ben.c:215-276 | the exact number of bytes of the encoding |
| BencodeCodec.EncRec | src/ben.c:299-370 | writes the encoding at the cursor and not one byte elsewhere |
| BencodeCodec.BenEnc | src/ben.c:278-297 | allocates exactly the size computed and fills exactly that |
| BencodeUnchecked.ValidatedDecodesIff | src/ben.c:372-737 | on an accepted buffer the unchecked decoder succeeds if and only if the buffer is not a number or length cut off by its end; if it is, it reads outside |
| BencodeUnchecked.ContainersDecode | src/ben.c:592-626 | an accepted buffer that starts with d or l always decodes |
| BencodeUnchecked.CutOffNumber | src/ben.c:698-737 | a three-byte buffer that is accepted although decoding it reads outside |
| BencodeUnchecked.DecAgrees | src/ben.c:372-533 | the unchecked decoder agrees with the reading function wherever that succeeds |
| BencodeUnchecked.SearchDictKey | src/ben.c:787-819 | the loop returns the value of the first entry whose key is byte for byte the one searched |
| LinkedList.List.Put | src/list.c:63-96 | appends; prev and next stay mutual, start, stop and counter right |
| LinkedList.List.Ins | src/list.c:98-130 | inserts behind an item; the chain is always right, and stop is the end afterwards if and only if the list had one item or the new item is not the last |
| LinkedList.List.Del | src/list.c:132-169 | removes one item, relinks its neighbours and returns its successor |
| LinkedList.List.Unlink | src/list.c:146-160 | which of the four links around an item move, by case |
| Hash.HashRefinesMap | src/hash.c:67-170 | over every run of puts and deletions and for every capacity, a lookup answers as a finite map does |
| Hash.PutUpdates | src/hash.c:87-121 | a put is the map update and keeps one pair per key, in the chain its hash names |
| Hash.DelRemoves | src/hash.c:123-170 | a deletion is the map removal and keeps every other pair |
| Hash.SameKeysSameTable | src/hash.c:172-193 | a table reads the same in any memory that agrees on the stored keys |
| Hash.PairsOfDel | src/hash.c:123-170 | after a deletion no pair keeps a pointer to an equal key |
| Hash.HashMap.HashKey | src/hash.c:195-204 | the shift-and-add loop in 64-bit arithmetic is multiplication by 33 |
| Hash.HashExample | src/hash.c:195-204 | the hashes of the empty key, of one byte and of a key of two |
| Hash.HashMap.GetPair | src/hash.c:172-193 | finds the first pair with the key |
| Hash.HashMap.HashGet | src/hash.c:67-85 | the value stored for the key, if any |
| Hash.HashMap.HashPut | src/hash.c:87-121 | takes the step Put, which leaves an old key pointer in place; a NULL value is refused |
| Hash.HashMap.HashDel | src/hash.c:123-170 | takes the step Del by copying the chain without the pair |
| IndexedTable.IndexIsScan | src/cache.c:128-135 | looking an id up in the index is scanning the list for it |
| IndexedTable.InsertKeeps | src/lookup.c:96-98 | every stored key pointer stays live even when an id repeats, and the index stays complete if and only if the id was new |
| IndexedTable.RemoveKeeps | src/lookup.c:114-117 | after hash_del, list_del and free no stored key pointer dangles, and a complete index stays complete |
| IndexedTable.InsertIndexed | src/lookup.c:96-98 | on the finite map that the index stands for, entering a payload is the map update, also when its id repeats |
| IndexedTable.RemoveIndexed | src/lookup.c:114-117 | on that map, removing a payload is the removal of its id, also when ids repeat |
| IndexedTable.FoundIsListed | src/announce.c:129-136 | what the index returns is listed and has that id, also when ids repeat |
| IndexedTable.Table.Insert | src/announce.c:89-91 | appends a payload and updates the index map; the table stays complete if and only if the id was new |
| IndexedTable.Table.Remove | src/announce.c:106-109 | takes exactly one payload out of list and memory and its id out of the index map |
| IndexedTable.Table.Find | src/database.c:124-132 | reads the index map; on a complete table that is a linear scan |
| Tables.Cache.Put | src/cache.c:73-94 | enters a new session for a minute and leaves a known one as it is, in list, memory and session map |
| Tables.Cache.Del | src/cache.c:100-107 | afterwards the id is unknown and all other sessions are as before |
| Tables.Cache.Validate | src/cache.c:128-150 | passes exactly the ids that are there, taking a unicast one away and leaving a multicast one |
| Tables.Cache.Expire | src/cache.c:110-126 | deletes exactly the stale sessions while walking, keeping the order of the others |
| Tables.KeptCurrent | src/cache.c:110-126 | dropping the stale items of the list is dropping the overdue sessions of the map |
| Tables.Database.Put | src/database.c:66-92 | a host's address is the one last announced and its place in the list is kept |
| Tables.Database.Address | src/database.c:149-160 | the address last put for a host, or none |
| Tables.Database.Expire | src/database.c:101-122 | one counter-bounded pass that never runs off the list, with the exact condition under which it leaves no old entry |
| NodeMessage.BuildNodeMessage | src/send_p2p.c:327-436 | builds the message with the nodes whose ping count is 0, in bucket order |
| NodeMessage.MessageLength | src/send_p2p.c:327-436 | the reply takes 91 + 57n bytes, 26 fewer without a lookup id |
| NodeMessage.MessageFields | src/send_p2p.c:350-431 | the receiver finds the sender under i, the session under k, the lookup under l in A and L only, the nodes under n and the letter under q |
| NodeMessage.MessageOrder | src/send_p2p.c:350-431 | the order of the keys on the wire |
| NodeMessage.NodeFields | src/send_p2p.c:396-416 | a listed node has its id under i, its address under a, its port under p |
| NodeMessage.GoodIs | src/send_p2p.c:386-390 | of a bucket exactly the nodes without an unanswered ping are sent, in order |
| NodeMessage.WalkReadsAll | src/p2p.c:415-459 | the receiver's walk reads back id, address and port of every node, in order |
| NodeMessage.WalkStops | src/p2p.c:415-443 | the walk hands on what stands in front of the first element that is no node, and nothing behind it |
| NodeMessage.NodeListArrives | src/send_p2p.c:327-436 | end to end: encoded, validated, decoded and walked, exactly the good nodes arrive, and the datagram fits 1460 bytes if and only if there are at most 24 |
| Exchange.NodeListIsLearned | src/p2p.c:396-624 | end to end into the receiver: for an open session the datagram passes, the request it names is taken to its sender, and exactly the good nodes of the sender's bucket are learned, in order, that request being taken to each |
| Dns.CodeDecodeIff | src/masala-dns.c:206-268 | decoding undoes coding, with the cursor at length plus 2, if and only if the name has at most 255 characters and no empty label |
| Dns.EmptyLabelLost | src/masala-dns.c:206-268 | the name a..b comes back as a, with the cursor in front of the coded end |
| Dns.CodeExample | src/masala-dns.c:237-268 | foo.bar.com is coded as its three labels behind their lengths, byte for byte |
| Dns.CodeDomain | src/masala-dns.c:238-268 | writes the coded name at the cursor and nothing else |
| Dns.DecodeDomain | src/masala-dns.c:206-235 | writes the decoded name NUL-terminated and returns the bytes read, or -1 |
| ProtocolSafety.StepSafe | src/p2p.c:145-315 | every step, on any packet and any random numbers, keeps the safety invariant |
| ProtocolSafety.EachNodeAskedOnce | src/lookup.c:142-164 | in every run each lookup and announcement asks a node at most once and never the own one |
| ProtocolSafety.AskedIff | src/lookup.c:142-164 | in every run a live request has asked exactly those nodes, the own one aside, that it remembers |
| ProtocolEffects.ResolveAsks | src/announce.c:129-152 | resolving asks the node exactly when the request is known and the node neither remembered nor the own one, and changes no other request |
| ProtocolEffects.StartAsks | src/neighborhood.c:202-260 | a new request asks the first 8 nodes of a best match that holds any, once each, and nobody else; a lookup lives 5 seconds, an announcement 10 |
| ProtocolEffects.LearnAllAsks | src/p2p.c:546-624 | over a node list the request named comes to remember exactly the listed nodes as well |
| ProtocolEffects.AskedBeforeLearned | src/p2p.c:614-619 | of a listed node the request asks before the node is learned |
| ProtocolEffects.LearnNodeEffect | src/neighborhood.c:67-103 | a new node has both times about five minutes ahead and two sessions are opened for its PING and FIND; a known one gets its address and no message |
| ProtocolEffects.LearnAllKnows | src/p2p.c:396-460 | a node list adds exactly its nodes to the known ones, each under the last address listed for it |
| ProtocolEffects.PongEffect | src/p2p.c:386-394 | a PONG with an open session clears the pings of its sender, moves its next ping and takes its address; no other node changes |
| ProtocolEffects.UncheckedReply | src/p2p.c:386-651 | a reply whose session is not open does nothing |
| ProtocolEffects.UncheckedPacket | src/p2p.c:145-251 | of a packet whose session is not open only the sender is learned |
| ProtocolEffects.IgnoredPacket | src/p2p.c:160-187 | a packet without sender or session, or from the own id, does nothing |
| ProtocolEffects.Dispatch | src/p2p.c:202-245 | which letter leads to which handler, after the sender is learned |
| ProtocolEffects.ExpiryEffect | src/p2p.c:258-262 | an expiry ends exactly the requests whose time has gone by, with one callback without address for each lookup that has one, and passes over the nodes |
| ProtocolEffects.InputEffect | src/lookup.c:73-104 | what each input of a run does; a lookup and an announcement are listed with their target |
| Exchange.ValueEnds | src/p2p.c:626-651 | a value for an open session and a known lookup records the pass, then the callback, and the lookup is gone |
| Exchange.BrokenValue | src/p2p.c:634-648 | a value without address or lookup id only uses up its session |
| ProtocolSafety.FoundAnswersReply | src/p2p.c:630-650 | in every run a callback with an address comes right after a reply that passed its session check |
| ProtocolSafety.CalledBackOnce | src/lookup.c:120-181 | in every run a callback has run zero times while its lookup is in the table and exactly once after it left |
| SessionHistory.OpenIff | src/cache.c:73-150 | in a lawful record a session is open if and only if it was issued and since then neither a pass, if unicast, nor an expiry past its time has ended it |
| SessionHistory.OnePassPerIssue | src/cache.c:128-150 | between two passes of a unicast id it was issued again |
| ProtocolSafety.PassesIff | src/cache.c:128-150 | in every safe state the check passes exactly for ids issued and not ended since |
| ProtocolSafety.RepliesPassIff | src/p2p.c:386-633 | in every run a handler's session check passes if and only if the id was issued and nothing has ended it since; a multicast id passes any number of times until it expires |
| ProtocolSafety.RepliesWereAskedFor | src/cache.c:73-150 | in every run each pass is preceded by an issue of the same session with no unicast pass and no expiry past its time in between |
| ProtocolSafety.OnePassInRun | src/cache.c:128-150 | in every run a unicast id passes at most once per issue |
| ProtocolSafety.ExpiryEndsSessions | src/cache.c:110-126 | an expiry step ends exactly the sessions that are overdue |
| ProtocolSafety.SuccessCallsBack | src/lookup.c:166-181 | a success calls back with an address if a callback waits and takes that one lookup out; every other lookup, its index entry, the announcements, sessions, nodes and draws are as before |
| ProtocolSafety.ExpireWalkEnds | src/lookup.c:120-140 | the deleting walk ends exactly the requests that are due and calls back once, without an address, for each |
| ProtocolSafety.AskAllSafe | src/neighborhood.c:202-260 | asking the first nodes of a bucket never asks one twice, because a bucket holds no id twice |
| ProtocolSafety.ResolveSafe | src/announce.c:129-152 | resolving keeps the invariant whatever node a reply names |
| ProtocolSafety.StartSafe | src/lookup.c:73-104 | starting a request keeps the invariant |
| ProtocolSafety.FinishSafe | src/lookup.c:106-118 | calling back and deleting keeps the invariant |
| ProtocolSafety.NodeListSafe | src/p2p.c:396-624 | handling a node list keeps the invariant whatever it contains |
| ProtocolSafety.CacheValidateSafe | src/cache.c:128-150 | a handler passes its session check exactly for an id that is present, and the counts stay right |
| Protocol.ResolveSound | src/lookup.c:142-164 | resolving changes no list, no index and not the routing table |
| Protocol.LearnNodeSound | src/neighborhood.c:67-103 | learning a node leaves both request tables exactly as they are |
| Daemon.Daemon.constructor | src/p2p.c:64-82 | empty tables stand for the protocol's initial state |
| Daemon.Daemon.Validate | src/cache.c:128-150 | passes exactly an open id, which stays open if and only if it is multicast; on list and hash index this is CacheValidate on the session map |
| Daemon.Daemon.PutSession | src/cache.c:73-94 | on list and hash index, cache_put is the session map update for a new id and nothing for a known one |
| Daemon.Daemon.CachePutNew | src/send_p2p.c:63-64 | the drawn id is open afterwards and every other session untouched; on list and hash index this is CachePut on the session map |
| Daemon.Daemon.Learn | src/neighborhood.c:67-103 | refines LearnNode, messages to a new node included, and keeps the run invariant |
| Daemon.Daemon.ResolveNode | src/lookup.c:142-164 | refines Resolve for lookups and announcements and keeps the run invariant: no node is asked again, the own one never |
| Daemon.Daemon.AskFirst | src/neighborhood.c:202-260 | the loop asks the first 8 nodes, remembering each |
| Daemon.Daemon.StartRequest | src/lookup.c:73-104 | refines Start for lookups and announcements and keeps the run invariant |
| Daemon.Daemon.FinishRequest | src/lookup.c:106-181 | refines Finish and keeps the run invariant: the one callback is recorded as the request leaves list, index and memory |
| Daemon.Daemon.DropRequest | src/announce.c:98-110 | list_del, hash_del and free of one request refine Drop on the maps |
| Daemon.Daemon.SucceedLookup | src/lookup.c:166-181 | refines Success: an unknown id does nothing, a known one calls back with an address |
| Daemon.Daemon.ExpireItem | src/lookup.c:125-139 | after an item that was deleted the walk stands on its successor |
| Daemon.Daemon.ExpireRequests | src/lookup.c:120-140 | the walk over the list that it deletes from refines ExpireWalk over the list as it was, and keeps the run invariant |
| Daemon.Daemon.ExpireSessions | src/cache.c:110-126 | refines CacheExpire and records which ids expired |
| Daemon.Daemon.ExpireDue | src/p2p.c:258-262 | the expiry of announcements, sessions, nodes and lookups, in the source's order, refines the protocol's expiry step |
| Daemon.Promises | src/p2p.c:145-315 | at any time of the object: no node asked twice or the own one, no second callback, and the cache on its list and hash index finds exactly the ids issued and not ended since |
| Daemon.Daemon.HandlePong | src/p2p.c:386-394 | refines Pong: without a session nothing changes, with one the known node is refreshed |
| Daemon.Daemon.WalkNodes | src/p2p.c:415-459 | the loop learns the nodes up to the first element that fails a test |
| Daemon.Daemon.HandleNodeList | src/p2p.c:396-624 | the three node-list handlers refine NodeList and keep the run invariant whatever the message holds |
| Daemon.Daemon.HandleValue | src/p2p.c:626-651 | refines ValueReply: a lookup ends only after the session check and both field checks |
| Daemon.Daemon.HandlePacket | src/p2p.c:145-251 | field checks and dispatch refine Packet and keep the run invariant, so the run theorems hold of the object |

## Left out

- RoutingSplit.SplitBisects: says nothing about a split of the last of two or more buckets, where the stop pointer is left behind; SplitKeepsWellFormedIff and StuckForever cover that case.
- Neighborhood.Neighborhood.NbhdSplit: requires the exact condition under which the loop ends; for the other tables NbhdSplitEndsIff shows that it does not.
- BencodeCodec.BenDec: requires a readable tree, since the source calls it after validating; BencodeUnchecked covers every other buffer.
- BencodeCodec.Raw.DecR: requires a readable tree at the cursor; BencodeUnchecked.DecVal covers the rest.
- BencodeCodec.Raw.DecD: requires a readable dictionary at the cursor; BencodeUnchecked.DecEntries covers the rest.
- BencodeCodec.Raw.DecL: requires a readable list at the cursor; BencodeUnchecked.DecAll covers the rest.
- BencodeCodec.Raw.DecS: requires a readable string at the cursor; BencodeUnchecked.DecStr covers the rest.
- BencodeCodec.Raw.DecI: requires a readable integer at the cursor; BencodeUnchecked.DecInt covers the rest.
- BencodeProofs.RoundTrip: integers are unbounded and -2^63 is outside the well-formed trees, as its digits exceed the largest value the validator accepts without saturation.
- ProtocolSafety.StepSafe: splitting, pinging and searching in the routing table are replaced by any change to a reachable table and any number of messages.
- IndexedTable.InsertKeeps: two requests that draw the same random id leave the index incomplete; it then finds the younger one.
- Daemon.Daemon.EnlistRequest: requests are stored at addresses that are never used again, so that an address serves as the request's number in the recorded events.
- Daemon.Daemon.RememberNode: the nodes a request remembers are a set in its payload, where the source keeps a list and a hash table per request.
- Daemon.Daemon.HandlePacket: requests p, f, a and l stop after their sender is learned; the reply and, for an announcement, db_put are not steps of the object.
- Daemon.Daemon.SucceedLookup: requires that a reply has just passed its session check, as at its one call, src/p2p.c:630-650.
- Daemon.Daemon.ExpireDue: leaves out db_expire, which Tables.Database.Expire models on its own.
- The lists inside buckets, tables and bencode trees are sequences; linking, in-place update and aliasing of list items are modelled in LinkedList only.
- bckt_find_any_match: its backward walk depends on list_prev, which is a stub; the search after an empty best match yields an arbitrary non-empty bucket or none.
- list_swap, ben_sort and ben_str_compare, which no modelled function calls.
- The initializer at src/cache.c:98, which reads through a NULL item; cache_del starts behind it.
- The HMAC functions of src/sha1.c and the wiping of buffers; the unrolled rounds are written in groups of five.
- put32bits and the DNS message code around the two domain name functions.
- Failing malloc, NULL elements inside bencode trees, and atol beyond its saturation.
- Teardown functions other than list_free.
- Sockets, epoll, threads, signals, files, logging, options, and the NSS, web and command interfaces.
- Interleaving of threads inside a handler: nbhd_put at src/p2p.c:190 runs outside the mutex.
