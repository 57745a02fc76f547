# Verification of the P4P portal's BitTorrent client, tracker and topology graph

A Dafny model of the state-heavy algorithms of the XBT client and tracker bundled with the portal, and of the
portal's vertex aggregation, with proofs over every input, every run and every behaviour of sockets and peers.
`dafny verify dfyconfig.toml` verifies the whole project.

| files | what they model |
|---|---|
| `MerkleLevels`, `MerkleFlat`, `MerkleSoundness`, `MerkleBuild`, `MerkleExchange`, `MerkleGarbage`, `MerkleRelay`, `MerkleStream`, `MerkleTree` | the promote-odd hash tree kept level after level in one array: filling it from leaves, serving proofs, testing and caching proofs of untrusted peers, which inner nodes to trust, passing proofs on, and the streaming root |
| `MerkleHashing`, `MerkleTorrents`, `MerkleWhole` | hashing a Merkle torrent, one sub-file and all of them: trees, verdicts and counters together |
| `RingBuffer`, `Framing` | the wrapped receive buffer as a FIFO, and the message framing of a peer link on top of it |
| `Choking`, `SendQuota` | the allocation of upload slots in three passes, and the rate-limited send loop |
| `Pieces`, `Selection` | the counters of one piece, its saved state, and the choice of the next piece |
| `Layout`, `InfoLayout`, `Accounting`, `Storage`, `Disks`, `Torrents` | the byte space of a torrent scattered over sub-files, hashing it with the Merkle rollback, taking in blocks, and the counters of missing bytes |
| `Swarm` | which peers have which piece |
| `Bencode`, `Sha1`, `Sha1Vector`, `Xif`, `XifExample` | the three codecs, with the test vector of RFC 3174 and a small XIF file byte by byte |
| `Tracker` | the announce bookkeeping of the tracker |
| `Graph` | the contraction of vertices in the network graph |
| `Basics` | bytes, options, minimum, maximum and sums |

Objects that the source updates in place are classes here (`MerkleTree`, `RingBuffer`, `Link`, `Scheduler`,
`Piece`, `Disk`, `Torrent`, `Context`, `Swarm`, `Tracker`, `NetState`, ...), and each method is proved against a
function or predicate on values; the theorems about whole runs are lemmas about those.

What is a parameter or left to chance: the hash function of the Merkle tree is an arbitrary function of two
hashes, and soundness assumes only that the genuine pairs have no second preimage; SHA-1 itself is modelled bit
by bit. What a socket accepts or delivers, the clock, the shuffle and the message handler are arbitrary.
Integers are unbounded except where the source relies on their width: SHA-1 words and lengths, XIF integers and
ids, `atoi` and `atoll`. Graph loads are real numbers. Pointers into the tracker's and the graph's containers
are keys.

Where the code does not do what one would expect, the code is modelled and the exact condition is stated:

- An inner node of a receiving tree may hold a hash that nobody checked (`MerkleExchange.GarbageIsStoredAndReserved`),
  and one more claim can plant one exactly when there is a gap above the node where its test stops
  (`MerkleGarbage.GarbageIff`); leaves and further acceptance are not affected (`MerkleSoundness.EveryRunIsSound`).
- A proof cut after `c` levels can be refused although every hash in it is right (`MerkleExchange.CutListRefused`);
  `MerkleExchange.AcceptedIff` says when.
- The piece-count formulas are exact without Merkle trees (`InfoLayout.PieceCounts`), but not always with them
  (`InfoLayout.MerkleCountsFail`); `InfoLayout.MerkleCounts` says when.
- `get_size` of a XIF key counts 4 bytes too many for every float, and 4 too few for every value of unknown type that
  is taken for a number, in whose place stale bytes are saved (`Xif.SizeOfSave`, `Xif.SizeTooSmall`,
  `Xif.ValueBack`). `Xif.FileRoundTrip` says when the file overruns its buffer, when an error is reported and when the
  tree comes back; the two faults can cancel out (`Xif.FaultsCancel`).
- Of the peers of a torrent that send to us fast, `update_chokes` serves the slowest first: those it serves are exactly
  the slowest ones (`Choking.SlowestAreServed`), and of five with four slots the fastest goes without
  (`Choking.FastestWaits`).
- Printing an empty string on its own writes a NUL one byte behind the buffer; no other value does
  (`Bencode.StaysInside`). A failed parse leaves the cursor one past the end exactly when the input ends inside a
  length, a number, a list or a dictionary (`Bencode.Read`, `Bencode.NumberCutShort`).
- Aggregating a single vertex renames it without looking whether the name is taken, which loses the bijection
  exactly then (`Graphs.NetState.AggregateNode`, `Graphs.RenamedToTaken`).
- A user who is dropped from the user table and comes back while its peers are still there has wrong counts
  (`Trackers.Tracker.ReadUsers`), and no announce, clean-up or removal ever changes the error
  (`Trackers.Tracker.Announce`, `Trackers.DroppedUser`). Anonymous peers carry uid 0, so the counts of a user row
  with that uid mean nothing, and `Trackers.Counted` leaves it out.

## Model

| member | source | states |
|---|---|---|
| `MerkleSoundness.EveryRunIsSound` | apps/filesharing/xbt/BT Test/merkle_tree.cpp:65-165 | over every run of `test_and_set` with arbitrary claims and sibling lists, starting from the root alone: the first present node on every leaf's path is genuine, every stored leaf is the true one, and every claim accepted afterwards is true; the hash need only have no second preimage for the genuine pairs |
| `MerkleSoundness.TestAndStoreSound` | apps/filesharing/xbt/BT Test/merkle_tree.cpp:159-165 | one `test_and_set` keeps the shielding invariant, and accepts a leaf hash only if it is the true one |
| `MerkleSoundness.TestedClaim` | apps/filesharing/xbt/BT Test/merkle_tree.cpp:65-90 | induction over the climb: a claim that passes the test is genuine, and storing its siblings covers exactly the claimed node more than before |
| `MerkleSoundness.StoreAboveStop` | apps/filesharing/xbt/BT Test/merkle_tree.cpp:134-157 | siblings stored above the ancestor where the test stopped, which were never checked, only land in shielded positions, so the invariant survives whatever they are |
| `MerkleSoundness.RunSound` | apps/filesharing/xbt/BT Test/merkle_tree.cpp:159-165 | the invariant holds after every sequence of claims |
| `MerkleSoundness.RootStays` | apps/filesharing/xbt/BT Test/merkle_tree.cpp:134-165 | no claim, accepted or not, changes a root once it is there |
| `MerkleExchange.AcceptedIff` | apps/filesharing/xbt/BT Test/merkle_tree.cpp:45-90 | exactly when a served proof of a true leaf is accepted: the served siblings below the receiver's first present node are genuine, and the list reaches a sibling on the level just below that node or higher |
| `MerkleExchange.AcceptedIsGenuine` | apps/filesharing/xbt/BT Test/merkle_tree.cpp:65-90 | whatever siblings accompany it, a claim accepted by a tree whose first present node is genuine is true |
| `MerkleExchange.HonestProofAccepted` | apps/filesharing/xbt/BT Test/merkle_tree.cpp:45-132 | completeness across the whole life of both trees: the full list served by a tree filled from all leaves in any order is accepted by a receiver after any run of claims |
| `MerkleExchange.FullListLongEnough` | apps/filesharing/xbt/BT Test/merkle_tree.cpp:45-63 | an uncut list, or one cut above the height, always reaches far enough |
| `MerkleExchange.TopHasSibling` | apps/filesharing/xbt/BT Test/merkle_tree.cpp:45-63 | the level below the root is never a promoted one, so promotion causes no rejection of full lists |
| `MerkleExchange.GarbageIsStoredAndReserved` | apps/filesharing/xbt/BT Test/merkle_tree.cpp:134-157 | limit of the soundness result: in a concrete run an inner node ends up holding any chosen hash, both leaves below it being genuine, and the proof then served from that tree is accepted by a fresh peer iff the hash is the genuine one |
| `MerkleGarbage.GarbageIff` | apps/filesharing/xbt/BT Test/merkle_tree.cpp:65-165 | exactly when the next claim about a leaf can make a sound tree, whose present nodes are all genuine, hold a wrong hash: right above the node where the test of that leaf stops, the first sibling on the path is absent |
| `MerkleGarbage.CheckedStore` | apps/filesharing/xbt/BT Test/merkle_tree.cpp:134-157 | without such a gap an accepted claim stores genuine nodes only |
| `MerkleGarbage.Planted` | apps/filesharing/xbt/BT Test/merkle_tree.cpp:134-157 | with one, for any wrong hash there is a sibling list that is accepted and stores it |
| `MerkleExchange.CutListRefused` | apps/filesharing/xbt/BT Test/merkle_tree.cpp:45-90 | a cut list that is refused though nothing in it is wrong: with three leaves, after the first was received, the list of the third cut to one level is empty on every sender, and the true leaf is refused although its hash is already in the tree |
| `MerkleRelay.RelayServes` | apps/filesharing/xbt/BT Test/merkle_tree.cpp:45-165 | a receiver that got every leaf from honest peers, in any order, serves the complete genuine list for every leaf, so every other receiver accepts its claims, whatever that one has processed |
| `MerkleRelay.HonestRun` | apps/filesharing/xbt/BT Test/merkle_tree.cpp:65-165 | over a run of honest claims every present node is genuine, and above every present node all siblings on the path are present |
| `MerkleRelay.StoreFull` | apps/filesharing/xbt/BT Test/merkle_tree.cpp:134-157 | storing a complete list, which ends at the first sibling already there, leaves no gap on the path |
| `MerkleRelay.SiblingsAccepted` | apps/filesharing/xbt/BT Test/merkle_tree.cpp:65-90 | a leaf with all its genuine siblings is accepted wherever the first present node is genuine |
| `MerkleRelay.SeederIsHonest` | apps/filesharing/xbt/BT Test/merkle_tree.cpp:45-63 | a tree filled from all its leaves serves complete genuine lists |
| `MerkleBuild.StoreLeafBuilt` | apps/filesharing/xbt/BT Test/merkle_tree.cpp:106-132 | setting one leaf keeps the invariant that a node is present iff all leaves below it are, with its genuine hash |
| `MerkleBuild.BuiltNode` | apps/filesharing/xbt/BT Test/merkle_tree.cpp:106-132 | in terms of positions: node j of level k is present iff leaves j·2^k to (j+1)·2^k are, and then holds the hash of that level |
| `MerkleBuild.FillNode` | apps/filesharing/xbt/BT Test/merkle_tree.cpp:106-132 | the same for any order of setting leaves, repetitions included |
| `MerkleBuild.FillRoot` | apps/filesharing/xbt/BT Test/merkle_tree.cpp:106-132 | once every leaf has been set, in any order, the last node is present and holds the promote-odd root |
| `MerkleLevels.SmallRoots` | apps/filesharing/xbt/BT Test/merkle_tree.cpp:92-132 | the roots of one, two, three and five leaves written out: left before right, an odd last node promoted on every level |
| `MerkleLevels.ChunkedRoot` | apps/filesharing/xbt/BT Test/bt_hasher.cpp:29-40 | a tree over the roots of chunks of 2^k leaves has the root of the tree over all leaves |
| `MerkleStream.ComputeRoot` | apps/filesharing/xbt/BT Test/merkle_tree.cpp:206-238 | the streaming binary counter returns the level-by-level promote-odd root of the 1024-byte segments, and nothing for empty input; lengths are multiples of 1024, see below |
| `MerkleStream.Add` | apps/filesharing/xbt/BT Test/merkle_tree.cpp:217-226 | carrying one leaf hash into the counter: afterwards the counter stands for one leaf more |
| `MerkleStream.Combine` | apps/filesharing/xbt/BT Test/merkle_tree.cpp:228-237 | folding the left-over counter entries gives the root of all leaves counted |
| `MerkleStream.FileRoot` | apps/filesharing/xbt/XBT Make Merkle Tree/XBT Make Merkle Tree.cpp:32-72 | the same for a file of any length, whose last segment may be short |
| `MerkleStream.FileLeavesRoot` | apps/filesharing/xbt/BT Test/bt_hasher.cpp:29-40 | the tree over the roots of 32 KB chunks has the root of the 1 KB-segment tree of the whole file |
| `MerkleStream.HashedTreeRoot` | apps/filesharing/xbt/BT Test/bt_hasher.cpp:29-40 | a tree filled with those chunk roots, in any order, ends with the root of the whole file's segments |
| `MerkleHashing.CheckChunks` | apps/filesharing/xbt/BT Test/bt_hasher.cpp:26-41 | one piece: with the torrent's root in the tree, the piece is valid iff it was read and `compute_root` of each chunk is the leaf in the tree, which does not change; otherwise the chunk roots become the next leaves, all ancestors they complete are there, and the root is unset until the last one |
| `MerkleHashing.Compare` | apps/filesharing/xbt/BT Test/bt_hasher.cpp:32-36 | a piece stays valid iff the leaf is present and equal |
| `MerkleHashing.FillingStep` | apps/filesharing/xbt/BT Test/bt_hasher.cpp:37-38 | setting the next leaf keeps the tree built from exactly the leaves so far, with the root set only by the last |
| `MerkleTorrents.HashSubFile` | apps/filesharing/xbt/BT Test/bt_hasher.cpp:14-87 | a whole sub-file of a Merkle torrent, joined with the counters: either its tree has the torrent's root, and the valid pieces are exactly those that were read and match its leaves; or the data does not give that root, no piece is valid and the tree holds the root alone; always the tree can be trusted for the genuine leaves, every valid piece has the genuine chunks, and the counters of missing bytes are exact |
| `MerkleTorrents.HashNext` | apps/filesharing/xbt/BT Test/bt_hasher.cpp:14-87 | one piece of that: verdict, tree, flags and counters move on together |
| `MerkleTorrents.SettleTree` | apps/filesharing/xbt/BT Test/bt_hasher.cpp:61-74 | the tree is taken back to its root iff filling it missed that root |
| `MerkleTorrents.TrustAfter` | apps/filesharing/xbt/BT Test/bt_hasher.cpp:61-74 | in every outcome the tree can be trusted for the genuine leaves, and valid pieces have them |
| `MerkleTorrents.RootDetermines` | apps/filesharing/xbt/BT Test/bt_hasher.cpp:26-26 | leaves with the root of genuine leaves are those leaves |
| `MerkleTorrents.WholeSubFile` | apps/filesharing/xbt/BT Test/bt_hasher.cpp:29-40 | the chunk roots of the pieces, one after the other, are those of the whole sub-file, and have the root of its segments |
| `MerkleWhole.HashTorrent` | apps/filesharing/xbt/BT Test/bt_hasher.cpp:14-87 | a whole Merkle torrent, hashed from files that lie with gaps between them, any read of which may fail: all counters of missing bytes are exact, every tree can be trusted for the genuine leaves of its sub-file, and every valid piece has on disk the genuine chunks |
| `MerkleWhole.HashFiles` | apps/filesharing/xbt/BT Test/bt_hasher.cpp:14-87 | sub-file after sub-file: those done are settled for good, the trees of the others are untouched |
| `MerkleWhole.HashFile` | apps/filesharing/xbt/BT Test/bt_hasher.cpp:14-87 | one sub-file read from its file and hashed |
| `MerkleWhole.TrustedFile` | apps/filesharing/xbt/BT Test/bt_hasher.cpp:14-87 | the outcome of a sub-file, in terms of the bytes on disk and the genuine leaves |
| `MerkleWhole.NextFirst` | apps/filesharing/xbt/BT Test/bt_file.cpp:84-112 | in the aligned layout the pieces of the sub-files follow each other and are all the pieces |
| `MerkleWhole.ReadGapped` | apps/filesharing/xbt/BT Test/bt_file.cpp:517-535 | reading a range inside one sub-file passes over those before it and gives the slice of that file |
| `MerkleWhole.TreeFits` | apps/filesharing/xbt/BT Test/bt_file.h:174-179 | the tree made for a sub-file has one leaf for every chunk of its pieces |
| `MerkleTrees.MerkleTreeSize` | apps/filesharing/xbt/misc/bt_misc.cpp:299-310 | the loop gives the sum of all level sizes, each half of the one below rounded up, down to a single root |
| `MerkleTrees.MerkleTree.Resize` | apps/filesharing/xbt/BT Test/merkle_tree.cpp:20-25 | a new tree of the given number of leaves has every node absent |
| `MerkleTrees.MerkleTree.Invalidate` | apps/filesharing/xbt/BT Test/merkle_tree.cpp:27-30 | every node becomes absent |
| `MerkleTrees.MerkleTree.GetProof` | apps/filesharing/xbt/BT Test/merkle_tree.cpp:45-63 | the loop over the flat array collects the sibling list as defined level by level |
| `MerkleTrees.MerkleTree.TestProof` | apps/filesharing/xbt/BT Test/merkle_tree.cpp:65-90 | the loop over the flat array decides the test as defined level by level |
| `MerkleTrees.MerkleTree.SetLeaf` | apps/filesharing/xbt/BT Test/merkle_tree.cpp:106-132 | the in-place climb stores the leaf and completes every ancestor whose children are all there, changing nothing else |
| `MerkleTrees.MerkleTree.SetProof` | apps/filesharing/xbt/BT Test/merkle_tree.cpp:134-157 | the in-place climb stores the leaf and its siblings up to the first present one, changing nothing else |
| `MerkleTrees.MerkleTree.SetParent` | apps/filesharing/xbt/BT Test/merkle_tree.cpp:118-130 | storing one parent brings the climb one level up and leaves the rest of it to do what it would have done |
| `MerkleTrees.MerkleTree.TestAndSet` | apps/filesharing/xbt/BT Test/merkle_tree.cpp:159-165 | new tree contents in terms of the old; a tree that can be trusted for some leaves stays so, and acceptance means the hash is that leaf's |
| `MerkleTrees.MerkleTree.SetRoot` | apps/filesharing/xbt/BT Test/merkle_tree.cpp:172-175 | an empty tree given the root of some leaves can be trusted for those leaves |
| `MerkleTrees.MerkleTree.GetRoot` | apps/filesharing/xbt/BT Test/merkle_tree.cpp:167-170 | in a tree that can be trusted for some leaves this is their root at any time, whatever claims came in |
| `RingBuffers.RingBuffer.Write` | apps/filesharing/xbt/BT Test/ring_buffer.cpp:4-15 | the bytes are appended to the queue, whether or not they wrap |
| `RingBuffers.RingBuffer.Put` | apps/filesharing/xbt/BT Test/ring_buffer.h:71-76 | bytes placed at the write cursor extend the queue; the cursor wraps at the end |
| `RingBuffers.RingBuffer.Consume` | apps/filesharing/xbt/BT Test/ring_buffer.h:41-48 | advancing the read cursor drops exactly that many bytes from the front |
| `RingBuffers.RingBuffer.Combine` | apps/filesharing/xbt/BT Test/ring_buffer.cpp:31-43 | straightening the buffer keeps its contents and makes all of them readable in one run |
| `RingBuffers.RingBuffer.Resize` | apps/filesharing/xbt/BT Test/ring_buffer.cpp:17-29 | the buffer becomes empty with the given capacity |
| `RingBuffers.RingBuffer.Peek` | apps/filesharing/xbt/BT Test/ring_buffer.h:15-18 | the readable run is a prefix of the contents, all of them when nothing wraps |
| `RingBuffers.RingBuffer.CbRead` | apps/filesharing/xbt/BT Test/ring_buffer.h:36-39 | total bytes queued |
| `RingBuffers.RingBuffer.CbW` | apps/filesharing/xbt/BT Test/ring_buffer.h:55-64 | the writable run is empty iff the buffer is full |
| `RingBuffers.RingBuffer.CbWrite` | apps/filesharing/xbt/BT Test/ring_buffer.h:66-69 | queued and free bytes add up to the capacity |
| `RingBuffers.RingBuffer.Drain` | apps/filesharing/xbt/BT Test/ring_buffer.cpp:31-43 | all contents leave in order |
| `Framing.FramesOfConcat` | apps/filesharing/xbt/BT Test/bt_peer_link.cpp:114-136 | framing is independent of chunking: framing a stream in two parts, the second continuing from the unfinished bytes, gives the framing of the whole |
| `Framing.FramesGrow` | apps/filesharing/xbt/BT Test/bt_peer_link.cpp:114-136 | bytes that arrive later never retract a message |
| `Framing.RestLeavesRoom` | apps/filesharing/xbt/BT Test/bt_peer_link.cpp:113-127 | what waits for more bytes is shorter than one maximal message, and that is less than the buffer, so a link never stalls |
| `Framing.FramesOfEncode` | apps/filesharing/xbt/BT Test/bt_peer_link.cpp:113-132 | round trip: framing the length-prefixed messages of a sender gives back those messages and no rest |
| `Framing.BigEndian` | apps/filesharing/xbt/misc/stream_int.h:26-56 | the first byte of a length weighs most, written and read |
| `Framing.BlockDispatched` | apps/filesharing/xbt/BT Test/bt_peer_link.cpp:116-132 | a block of 16 KB with its header is dispatched |
| `Framing.LongestMessage` | apps/filesharing/xbt/BT Test/bt_peer_link.cpp:119-124 | a length of 32768 is waited for, one of 32769 closes the link |
| `Framing.Link.PostSelect` | apps/filesharing/xbt/BT Test/bt_peer_link.cpp:80-139 | over any run, for any behaviour of the socket: the messages handed over are the framing of the received stream, the buffer holds the unfinished bytes, and room is left for more |
| `Framing.Link.Recv` | apps/filesharing/xbt/BT Test/bt_peer_link.cpp:224-255 | whatever arrives is appended to stream and buffer alike; when receiving stops with the socket still readable the buffer is full |
| `Framing.Link.Dispatch` | apps/filesharing/xbt/BT Test/bt_peer_link.cpp:114-138 | one pass over the buffer, with its re-straightening, computes the framing of all it holds |
| `Framing.Link.DispatchRun` | apps/filesharing/xbt/BT Test/bt_peer_link.cpp:113-132 | the inner loop keeps the framing of history and buffer, and stops early only at a wrapped message |
| `Choking.Scheduler.UpdateChokes` | apps/filesharing/xbt/BT Test/server.cpp:997-1070 | with slot limiting on: at most max(4, upload_slots) interested peers are unchoked, a slot stays free only if every candidate is unchoked, a torrent gets more than its minimum (maximum) only if every torrent has its minimum (maximum) or all its candidates; within a torrent nobody is served before a candidate ahead of it (fast senders before those we are interested in before the rest, and of the fast ones the slower first), whatever the shuffles do; a connected peer that is no candidate is choked, and with more slots than peers every candidate is unchoked; without slot limiting a connected peer is unchoked iff its torrent runs and it has bytes left; a peer that is not connected keeps its state |
| `Choking.AmpleSlots` | apps/filesharing/xbt/BT Test/server.cpp:1026-1068 | with more slots than peers every candidate is unchoked |
| `Choking.Thresholds` | apps/filesharing/xbt/BT Test/server.cpp:1017-1022 | 257 bytes a second make a fast sender and 256 do not; the three lists come in the order fast, interesting to us, the rest |
| `Choking.PassesGivePolicy` | apps/filesharing/xbt/BT Test/server.cpp:1026-1068 | the three passes together give that policy, judged from the result alone |
| `Choking.Scheduler.Allocate` | apps/filesharing/xbt/BT Test/server.cpp:1026-1068 | the three passes over the shuffled lists establish the policy and serve each torrent's candidates in the order of the lists |
| `Choking.Scheduler.Pass` | apps/filesharing/xbt/BT Test/server.cpp:1027-1068 | slots and per-torrent limits are conserved; if slots are left, every candidate is unchoked or its torrent is at the limit of the pass; the order of service is kept |
| `Choking.Scheduler.UnchokeList` | apps/filesharing/xbt/BT Test/server.cpp:1029-1043 | the same for one list: no torrent exceeds the limit of the pass, and nobody is served before those earlier in the lists |
| `Choking.Scheduler.Classify` | apps/filesharing/xbt/BT Test/server.cpp:1006-1022 | connected peers are choked, but for those with bytes left in a running torrent when slots are not limited; the others keep their state; the three lists hold exactly the fast candidates, those we are interested in and the rest, each once, the first list in ascending order of rate |
| `Choking.Scheduler.InsertByRate` | apps/filesharing/xbt/BT Test/server.cpp:1018-1018 | insertion keeps the list in ascending order of rate, behind equal rates |
| `Choking.Scheduler.Look` | apps/filesharing/xbt/BT Test/server.cpp:1031-1042 | looking at one candidate whose predecessors have been dealt with keeps books, limits and order of service |
| `Choking.FavoursStep` | apps/filesharing/xbt/BT Test/server.cpp:1031-1042 | a candidate that is served has no choked predecessor in its torrent |
| `Choking.Scheduler.FavoursAhead` | apps/filesharing/xbt/BT Test/server.cpp:1006-1068 | serving in the order of the lists means, for the peers, serving those ahead first |
| `Choking.SlowestAreServed` | apps/filesharing/xbt/BT Test/server.cpp:997-1070 | who is served among the fast senders of a torrent, in any state of it and of the others: exactly the slowest, as many as are served |
| `Choking.FastestWaits` | apps/filesharing/xbt/BT Test/server.cpp:997-1070 | five such peers and four slots: the fastest sender stays choked |
| `SendQuota.Server.SendRounds` | apps/filesharing/xbt/BT Test/server.cpp:542-559 | for any behaviour of the sockets the loop ends, quota before = bytes sent + quota after, and it ends with no quota or no waiting link; a link is dropped iff it returned part of an offer; if no socket fails or takes less than it is given, every dropped link has sent all it had |
| `SendQuota.Server.Round` | apps/filesharing/xbt/BT Test/server.cpp:544-558 | one round conserves quota, offers by the fair split, and sends a byte or drops a link; the links kept are, in order, exactly those that returned nothing of their offer |
| `SendQuota.Server.Turn` | apps/filesharing/xbt/BT Test/server.cpp:544-558 | the same link by link: kept iff what it has returned is unchanged |
| `SendQuota.Server.Offer` | apps/filesharing/xbt/BT Test/server.cpp:548-556 | one offer conserves quota and is spent or returned by the link; a link that fails has left some of it |
| `SendQuota.PeerLink.Send` | apps/filesharing/xbt/BT Test/bt_peer_link.cpp:257-314 | never sends more than offered; what is left of the offer and what went over the wire add up to it; failure leaves some of it; as long as the socket takes what it is given, quota is returned only when nothing is left to send |
| `SendQuota.PeerLink.FillBuffer` | apps/filesharing/xbt/BT Test/bt_peer_link.cpp:261-279 | the write queue only grows; the first request is consumed iff the queue was empty and the peer is not choked, and becomes a block 13 bytes longer if it can be read |
| `SendQuota.OffersUseQuota` | apps/filesharing/xbt/BT Test/server.cpp:544-558 | work conservation: the offers of a round add up to the quota or to everything waiting, whichever is less |
| `SendQuota.OffersFair` | apps/filesharing/xbt/BT Test/server.cpp:544-558 | fairness: nobody is offered more than one byte above a link whose demand is not met |
| `SendQuota.OffersAtLeastShare` | apps/filesharing/xbt/BT Test/server.cpp:544-558 | every link is offered its demand or its equal share of the quota |
| `SendQuota.OffersLevel` | apps/filesharing/xbt/BT Test/server.cpp:544-558 | links that all want more than their share get shares that differ by at most one byte |
| `Pieces.Piece.constructor` | apps/filesharing/xbt/BT Test/bt_piece.cpp:4-16 | a new piece satisfies the counter invariant: all its sub-pieces are missing and none is requested |
| `Pieces.SubPiecesMakeUp` | apps/filesharing/xbt/BT Test/bt_piece.cpp:94-102 | for every size the sub-pieces are nonempty and of 16 KB but for the last one, their sizes add up to the piece, and every byte lies in its sub-piece and only there |
| `Pieces.SubPiecesOfUsualPiece` | apps/filesharing/xbt/BT Test/bt_piece.cpp:94-102 | 256 KB are 16 sub-pieces, one byte more makes a 17th of one byte |
| `Pieces.Piece.LastBlock` | apps/filesharing/xbt/BT Test/bt_piece.cpp:62-74 | the missing count is one before a wanted block iff every byte outside that block has been received |
| `Pieces.Piece.StillWants` | apps/filesharing/xbt/BT Test/bt_piece.cpp:62-74 | a started piece that has not been judged wants at least one more block |
| `Pieces.Piece.SetValid` | apps/filesharing/xbt/BT Test/bt_piece.cpp:18-28 | the verdict settles the piece: its counters are exact again, and a valid piece has no sub-pieces |
| `Pieces.Piece.NextInvalidSubPiece` | apps/filesharing/xbt/BT Test/bt_piece.cpp:30-45 | returns the first missing sub-piece without requester and makes the peer its only requester; -1 iff every missing one is requested; the counters stay exact, and the piece accepts that very sub-piece as a block |
| `Pieces.Piece.ErasePeer` | apps/filesharing/xbt/BT Test/bt_piece.cpp:47-60 | withdraws the peer's request, and no other, with exact counters; the assertion that a requested sub-piece is not valid holds |
| `Pieces.Piece.Write` | apps/filesharing/xbt/BT Test/bt_piece.cpp:62-74 | accepts exactly a whole missing sub-piece of a started piece; the missing count drops by one, and the list is dropped only when every sub-piece has arrived |
| `Pieces.Piece.CheckPeer` | apps/filesharing/xbt/BT Test/bt_piece.cpp:76-92 | withdraws exactly the peer's requests that timed out, with exact counters; the result tells whether any sub-piece was spared |
| `Pieces.Piece.SaveState` | apps/filesharing/xbt/BT Test/bt_piece.cpp:163-175 | the saved form records validity and the received sub-pieces |
| `Pieces.Piece.LoadState` | apps/filesharing/xbt/BT Test/bt_piece.cpp:135-156 | a new piece gets the recorded sub-pieces without requests and with exact counters |
| `Pieces.SavedRestored` | apps/filesharing/xbt/BT Test/bt_piece.cpp:135-175 | save then load keeps validity and what is missing, and forgets the requests |
| `Selection.RankIsLexicographic` | apps/filesharing/xbt/BT Test/bt_piece.cpp:104-110 | the packed rank orders as the tuple (clamped priority, peers up to 3, chunks left, peers up to 99): no field carries into the next |
| `Selection.HigherPriorityFirst` | apps/filesharing/xbt/BT Test/bt_piece.cpp:104-110 | of two pieces with priorities from -9 to 9 the one with the higher priority ranks first, whatever else differs |
| `Selection.RarerFirst` | apps/filesharing/xbt/BT Test/bt_piece.cpp:104-110 | among equal priorities a piece that fewer than three peers have comes before one that more have, then the one with fewer sub-pieces left, then the one with fewer peers |
| `Selection.NextInvalidPiece` | apps/filesharing/xbt/BT Test/bt_file.cpp:537-572 | -1 iff no piece is eligible for the peer, else an eligible piece with lexicographically least tuple: missing, not of priority -10, with an unrequested sub-piece, one the peer has, and none of a higher priority up to 9 could be had instead; end mode starts iff no piece is wanted |
| `Torrents.Torrent.constructor` | apps/filesharing/xbt/BT Test/bt_file.cpp:203-209 | opening sets all counters to zero, which is exact before any piece is checked |
| `Torrents.Torrent.Run` | apps/filesharing/xbt/BT Test/bt_hasher.cpp:14-87 | after every call the torrent's counter is the total size of the invalid pieces checked so far and each sub-file's its overlap with them; the verdicts change as stated by the outcome alone, including the pieces taken back from a Merkle sub-file that misses its root |
| `Torrents.Torrent.Resume` | apps/filesharing/xbt/BT Test/bt_file.cpp:209-216 | opening without validation: outside Merkle torrents every loaded verdict is kept, and all counters are exact |
| `Torrents.Torrent.Advance` | apps/filesharing/xbt/BT Test/bt_hasher.cpp:53-84 | one turn of the loop over sub-files keeps the counters exact up to the byte reached |
| `Torrents.Torrent.Spread` | apps/filesharing/xbt/BT Test/bt_hasher.cpp:54-58 | the sub-file under the cursor gets exactly its share of the piece, and the cursor moves to the next byte |
| `Torrents.Torrent.Rollback` | apps/filesharing/xbt/BT Test/bt_hasher.cpp:61-74 | taking back the pieces of a sub-file that misses its root makes exactly those invalid and keeps all counters exact, the sub-file's being its size |
| `Torrents.Torrent.HashPiece` | apps/filesharing/xbt/BT Test/bt_hasher.cpp:43-50 | without Merkle trees: a piece is found valid iff it could be read and the bytes on disk have its hash, and all valid pieces so far have theirs |
| `Torrents.Torrent.WriteData` | apps/filesharing/xbt/BT Test/bt_file.cpp:404-515 | over any run of blocks after hashing, or after opening without validation: a block is accepted iff it is a whole missing sub-piece of a started piece; it is then in its place on disk and no other byte changed, and its sub-piece and no other is marked received; the piece is judged as soon as its blocks cover all its bytes, and turns valid iff they do and the bytes have its hash; counters stay exact, and if every valid piece had the bytes of its hash, every one still has |
| `Torrents.Torrent.StoreBlock` | apps/filesharing/xbt/BT Test/bt_file.cpp:411-467 | the same for a block of a known piece, before the counters are adjusted |
| `Torrents.Torrent.TakeOff` | apps/filesharing/xbt/BT Test/bt_file.cpp:474-491 | a finished piece comes off every sub-file by exactly its overlap |
| `Torrents.Torrent.CountOff` | apps/filesharing/xbt/BT Test/bt_file.cpp:468-491 | after that, torrent and sub-file counters are exact for the piece being valid |
| `Torrents.BlockSpares` | apps/filesharing/xbt/BT Test/bt_file.cpp:404-456 | a block written inside an invalid piece leaves every valid piece genuine |
| `Accounting.Reopen` | apps/filesharing/xbt/BT Test/bt_hasher.cpp:61-70 | invalidating one piece of a Merkle sub-file moves its size into both counters |
| `Accounting.Close` | apps/filesharing/xbt/BT Test/bt_file.cpp:468-491 | a piece turning valid moves its overlaps out of the sub-files' counters and its size out of the torrent's |
| `Accounting.CursorStep` | apps/filesharing/xbt/BT Test/bt_hasher.cpp:53-84 | the cursor arithmetic of the hasher: from an exact state to an exact state at the next byte, in the same sub-file or the next |
| `Disks.Disk.ReadData` | apps/filesharing/xbt/BT Test/bt_file.cpp:517-535 | over any list of sub-files, empty ones included, reading succeeds iff the range lies inside, and gives the slice of the one flat byte sequence |
| `Disks.Disk.WriteBytes` | apps/filesharing/xbt/BT Test/bt_file.cpp:418-456 | writing a block scattered over sub-files overwrites that slice of the flat sequence and no other byte |
| `Storage.ReadFile` | apps/filesharing/xbt/BT Test/bt_file.cpp:517-535 | a slice of one sub-file is a slice of the flat sequence |
| `Storage.WriteFile` | apps/filesharing/xbt/BT Test/bt_file.cpp:418-456 | overwriting a slice of one sub-file overwrites the corresponding slice of the flat sequence |
| `InfoLayout.PlainContiguous` | apps/filesharing/xbt/BT Test/bt_file.cpp:66-123 | the layout built for a torrent without Merkle trees covers the flat byte space without gap, pieces aligned |
| `InfoLayout.FilesKept` | apps/filesharing/xbt/BT Test/bt_file.cpp:66-123 | in both layouts the sub-files have the sizes of the files, in their order |
| `InfoLayout.PlainSeamless` | apps/filesharing/xbt/BT Test/bt_file.cpp:66-123 | in it, the hasher's cursor can pass from piece to piece and sub-file to sub-file |
| `InfoLayout.PerFileSeamless` | apps/filesharing/xbt/BT Test/bt_file.cpp:66-113 | the aligned Merkle layout gives every sub-file its own pieces, and the cursor passes between them |
| `InfoLayout.PieceCounts` | apps/filesharing/xbt/BT Test/bt_file.cpp:394-402 | without Merkle trees the two ceiling formulas give the exact numbers of invalid and valid pieces |
| `InfoLayout.InvalidPieces` | apps/filesharing/xbt/BT Test/bt_file.cpp:394-397 | for any layout the formula is exact iff the invalid pieces together fall short of full length by less than one piece |
| `InfoLayout.ValidPieces` | apps/filesharing/xbt/BT Test/bt_file.cpp:399-402 | likewise the other formula gives the number of valid pieces iff the valid pieces together fall short by less than one piece |
| `InfoLayout.MerkleCounts` | apps/filesharing/xbt/BT Test/bt_file.cpp:394-402 | both conditions for a Merkle torrent with given files, whose pieces add up to its size |
| `InfoLayout.MerkleCountsFail` | apps/filesharing/xbt/BT Test/bt_file.cpp:394-402 | two one-byte sub-files of a Merkle torrent: with both missing, two pieces are invalid and the formula says one; with both there, two are valid and the other formula says one |
| `Bencode.RoundTrip` | apps/filesharing/xbt/misc/bvalue.cpp:110-188 | parsing the printed form of any value followed by any bytes gives that value and leaves exactly those bytes |
| `Bencode.PrintedBytes` | apps/filesharing/xbt/misc/bvalue.cpp:320-373 | the exact bytes of a number, a string, a list and a dictionary |
| `Bencode.LessMeans` | apps/filesharing/xbt/misc/bvalue.cpp:153-153 | the order of keys is decided at the first byte that differs, and a proper prefix comes first |
| `Bencode.SizeExact` | apps/filesharing/xbt/misc/bvalue.cpp:280-305 | the size computed beforehand is the number of bytes printed, for every value |
| `Bencode.StaysInside` | apps/filesharing/xbt/misc/bvalue.cpp:307-373 | what the printer writes, terminating NULs of lengths included, stays inside a buffer of that size for every value but the empty string on its own, where it reaches one byte further |
| `Bencode.ParsedWellFormed` | apps/filesharing/xbt/misc/bvalue.cpp:110-188 | whatever the input, a parsed value has sorted dictionaries without duplicates and numbers in range |
| `Bencode.Normalised` | apps/filesharing/xbt/misc/bvalue.cpp:320-373 | printing any parsed value and parsing again gives it back, so printing is a normal form |
| `Bencode.GetPut` | apps/filesharing/xbt/misc/bvalue.cpp:153-153 | dictionary insertion: the last value given for a key is the one found, other keys are unaffected |
| `Bencode.Read` | apps/filesharing/xbt/misc/bvalue.cpp:110-188 | the cursor-moving parser ends, never looks past the end, and computes value and rest as specified; after a failure the cursor is one past the end iff the input ended inside a length, a number, a list or a dictionary, and never otherwise |
| `Bencode.ReadString` | apps/filesharing/xbt/misc/bvalue.cpp:117-140 | the same for strings, with the length prefix |
| `Bencode.ReadList` | apps/filesharing/xbt/misc/bvalue.cpp:171-185 | the same for lists |
| `Bencode.ReadDict` | apps/filesharing/xbt/misc/bvalue.cpp:141-158 | the same for dictionaries |
| `Bencode.NumberCutShort` | apps/filesharing/xbt/misc/bvalue.cpp:160-170 | two bytes of a number without its end leave the cursor at 3 |
| `Sha1.Schedule` | apps/filesharing/xbt/misc/sha1.cpp:250-261 | the array of 80 words holds the message schedule of section 6.1 of RFC 3174 |
| `Sha1.Twenty` | apps/filesharing/xbt/misc/sha1.cpp:269-311 | each of the four loops performs twenty steps with its constant |
| `Sha1.ChoiceBits` | apps/filesharing/xbt/misc/sha1.cpp:269-281 | in every bit the first function takes the second word where the first has a one, and the third elsewhere |
| `Sha1.MajorityAgreed` | apps/filesharing/xbt/misc/sha1.cpp:292-301 | in every bit the third function has the value that the first two words agree on |
| `Sha1.MajorityDecided` | apps/filesharing/xbt/misc/sha1.cpp:292-301 | where they differ it has the value of the third word |
| `Sha1.ProcessMessageBlock` | apps/filesharing/xbt/misc/sha1.cpp:234-319 | one block updates the five words by the 80 specified steps |
| `Sha1Vector.DigestOfAbc` | apps/filesharing/xbt/misc/sha1.cpp:234-391 | the digest of abc is the one that RFC 3174 lists: constants, rotations, logical functions, schedule, word order and padding together |
| `Sha1.DigestBytes` | apps/filesharing/xbt/misc/sha1.cpp:131-135 | the 20 bytes are those of the five words, most significant first |
| `Sha1.DigestBlocks` | apps/filesharing/xbt/misc/sha1.cpp:345-391 | the padded message is its whole blocks and one more block, or two more when the rest leaves no room for the length |
| `Sha1.Context.constructor` | apps/filesharing/xbt/misc/sha1.cpp:60-81 | a reset context stands for the empty message |
| `Sha1.Context.Input` | apps/filesharing/xbt/misc/sha1.cpp:160-211 | for every split into calls: the context stands for the concatenation of everything put in; after a result or an overflow further input is refused |
| `Sha1.Context.AddByte` | apps/filesharing/xbt/misc/sha1.cpp:186-208 | one byte more, through a full block when there is one; the 64-bit length overflows exactly when it must |
| `Sha1.Context.CountByte` | apps/filesharing/xbt/misc/sha1.cpp:191-200 | the two length words hold the bit length, or corruption is flagged at overflow |
| `Sha1.Context.PadMessage` | apps/filesharing/xbt/misc/sha1.cpp:345-391 | in both padding cases, with the index in range throughout, the hash becomes the digest of the message |
| `Sha1.Context.Seal` | apps/filesharing/xbt/misc/sha1.cpp:381-390 | the two length words complete the last block |
| `Sha1.Context.Result` | apps/filesharing/xbt/misc/sha1.cpp:102-138 | the 20 bytes are those of the digest of everything put in, also on a second call; a corrupted context only reports its error |
| `Xif.FileRoundTrip` | apps/filesharing/xbt/misc/xif_key.cpp:113-180 | for every tree: saving writes beyond its buffer iff more values of unknown type are taken for numbers than there are floats; loading the file reports no error iff there are as many of the one as of the other; unless it overran, what was written comes back, and that is the tree iff the stale bytes written for those values are their data |
| `XifExample.FileOfRoot` | apps/filesharing/xbt/misc/xif_key.cpp:162-180 | the exact 82 bytes of a file with a key, an int32, a string and external values at two levels, and that they load as that tree without error: type codes, byte order, header and order of the two passes |
| `XifExample.TypeCodes` | apps/filesharing/xbt/misc/xif_value.cpp:60-83 | for every type byte: 0, 2 and 5 introduce a number, 4 an external value, any other data in place |
| `Xif.KeyBack` | apps/filesharing/xbt/misc/xif_key.cpp:27-104 | first pass: reading what `save` wrote restores keys, delta-coded ids and inline values as written, external payloads still blank |
| `Xif.FillBack` | apps/filesharing/xbt/misc/xif_key.cpp:41-111 | second pass: every external payload finds the value it came from |
| `Xif.ValueBack` | apps/filesharing/xbt/misc/xif_value.cpp:60-139 | a saved value comes back iff it is not taken for a number or the stale bytes are its data |
| `Xif.SizeOfSave` | apps/filesharing/xbt/misc/xif_key.cpp:49-68 | the computed size is 4 bytes too many for every float value and 4 bytes too few for every value taken for a number |
| `Xif.SizeTooSmall` | apps/filesharing/xbt/misc/xif_key.cpp:49-68 | a tree without floats whose computed size is 17 and whose saved form has 21 bytes |
| `Xif.WrittenSame` | apps/filesharing/xbt/misc/xif_value.cpp:115-138 | saving writes the tree itself iff the stale bytes are the data of all values taken for numbers |
| `Xif.CutBody` | apps/filesharing/xbt/misc/xif_key.cpp:151-157 | a file cut short is never loaded without error |
| `Xif.FaultsCancel` | apps/filesharing/xbt/misc/xif_key.cpp:113-180 | with one float and one value taken for a number no error is reported, and still the stale bytes decide whether the tree has come back |
| `Xif.DeltaBack` | apps/filesharing/xbt/misc/xif_key.cpp:81-104 | ids coded as wrapped 32-bit differences are restored |
| `Xif.IntBack` | apps/filesharing/xbt/misc/stream_int.h:58-83 | reading back a written little-endian integer gives it modulo 2^32 |
| `Xif.LittleEndian` | apps/filesharing/xbt/misc/stream_int.h:73-83 | byte j of a written integer n is n / 256^j mod 256 |
| `Xif.LittleEndianRead` | apps/filesharing/xbt/misc/stream_int.h:58-66 | reading adds the bytes up with the weights 256^j, modulo 2^32 |
| `Swarms.Swarm.Connect` | apps/filesharing/xbt/BT Test/bt_peer_link.cpp:380-401 | a new link lacks the whole torrent and changes no piece's count |
| `Swarms.Swarm.Greet` | apps/filesharing/xbt/BT Test/bt_peer_link.cpp:99-110 | after the handshake the link knows of no piece |
| `Swarms.Swarm.RemoteHas` | apps/filesharing/xbt/BT Test/bt_peer_link.cpp:316-326 | the piece's count and the link's missing bytes follow a newly announced piece; unknown indices and repetitions change nothing; every count stays the number of open links that have the piece |
| `Swarms.Swarm.Bitfield` | apps/filesharing/xbt/BT Test/bt_peer_link.cpp:722-733 | a bitfield adds exactly its set bits that lie inside the torrent |
| `Swarms.BitOfNumber` | apps/filesharing/xbt/BT Test/bt_peer_link.cpp:725-732 | bit i is the binary digit of byte i / 8 with the weight 2^(7 - i mod 8) |
| `Swarms.Swarm.Close` | apps/filesharing/xbt/BT Test/bt_peer_link.cpp:193-202 | closing takes the link off every count it was in |
| `Swarms.Swarm.Forget` | apps/filesharing/xbt/BT Test/bt_file.cpp:317-321 | dropping a closed link changes no count |
| `Swarms.Swarm.IsSeeder` | apps/filesharing/xbt/BT Test/bt_peer_link.cpp:184-184 | a link lacks no byte iff its remote side has every piece, and then every piece has a count of at least one |
| `Swarms.LacksOneLess` | apps/filesharing/xbt/BT Test/bt_peer_link.cpp:316-326 | marking one piece lowers what a link lacks by that piece's size |
| `Swarms.LacksNothing` | apps/filesharing/xbt/BT Test/bt_peer_link.cpp:184-184 | nothing is lacking iff every piece is there |
| `Swarms.HoldersGain` | apps/filesharing/xbt/BT Test/bt_peer_link.cpp:316-326 | one link more has the piece; no other piece's holders change |
| `Trackers.Tracker.Announce` | apps/filesharing/xbt/Tracker/server.cpp:346-448 | over any run: each torrent's leechers and seeders are the sizes of the sets they count, and each user's incompletes and completes too, up to an error that no announce changes (zero but for users that came when their peers were there); the answer follows the limits judged by those numbers; a refused announce changes no peer; an accepted one adds, replaces or removes exactly the announcing peer |
| `Trackers.RefusedIff` | apps/filesharing/xbt/Tracker/server.cpp:346-390 | each refusal, and acceptance, as an iff of its own: nobody who may not leech is accepted with data left, nobody with all the data or already known is refused for a limit |
| `Trackers.Tracker.Register` | apps/filesharing/xbt/Tracker/server.cpp:361-367 | looking a torrent up, registering it when new, changes nobody's count |
| `Trackers.Tracker.Limits` | apps/filesharing/xbt/Tracker/server.cpp:378-387 | the counters decide the two limits as the real numbers of downloading peers would, up to the user's error |
| `Trackers.Tracker.CountOut` | apps/filesharing/xbt/Tracker/server.cpp:371-377 | a known peer's counts are taken back before its record changes |
| `Trackers.Tracker.Store` | apps/filesharing/xbt/Tracker/server.cpp:423-441 | recording the peer makes all counts exact again |
| `Trackers.Tracker.Erase` | apps/filesharing/xbt/Tracker/server.cpp:413-421 | removing the record of an uncounted peer makes all counts exact again |
| `Trackers.Tracker.CleanFile` | apps/filesharing/xbt/Tracker/server.cpp:522-539 | exactly the peers last heard of before the limit are forgotten, with all counts exact |
| `Trackers.Tracker.CleanUp` | apps/filesharing/xbt/Tracker/server.cpp:541-546 | the same for all torrents |
| `Trackers.SweptPeers` | apps/filesharing/xbt/Tracker/server.cpp:522-539 | a peer is forgotten iff it was last heard of before the limit, and cleaning up twice is cleaning up at the later limit |
| `Trackers.Tracker.RemoveFile` | apps/filesharing/xbt/Tracker/server.cpp:697-706 | a torrent goes with all its peers, its users' counts stay exact |
| `Trackers.Tracker.RemoveFlagged` | apps/filesharing/xbt/Tracker/server.cpp:693-709 | the same for all flagged torrents, unless torrents register themselves |
| `Trackers.Tracker.ReadList` | apps/filesharing/xbt/Tracker/server.cpp:663-684 | without a database exactly the listed torrents remain; there are no users whose counts could suffer |
| `Trackers.Tracker.ReadUsers` | apps/filesharing/xbt/Tracker/server.cpp:767-800 | re-reading the user table: a user that stays keeps its counts; one that comes, or comes back, is off by exactly the peers it already has; so exact counts stay exact iff nobody comes whose peers are there |
| `Trackers.DroppedUser` | apps/filesharing/xbt/Tracker/server.cpp:767-800 | a run that reaches such an error and keeps it: a user that downloads, is dropped, comes back and stops then counts -1 downloads and has no peer |
| `Trackers.CountLeeching` | apps/filesharing/xbt/Tracker/server.cpp:382-386 | the loop counts the user's downloading peers in the torrent |
| `Trackers.Leaves` | apps/filesharing/xbt/Tracker/server.cpp:371-377 | taking one peer out of its torrent and its counts out of torrent and user keeps everything exact |
| `Trackers.Joins` | apps/filesharing/xbt/Tracker/server.cpp:431-439 | adding one peer and its counts keeps everything exact |
| `Trackers.ReadCounts` | apps/filesharing/xbt/Tracker/server.cpp:767-800 | surviving users keep their error, a new user's is minus the peers it has |
| `Graphs.NetState.AggregateNode` | common-server/src/lib/net_state.cpp:90-167 | any set of vertices but a single one is contracted: for each outside vertex traffic and capacity to and from the new vertex are the sums over the set, an edge is there iff there was one, other edges are unchanged, and the name index stays a bijection; a name in use is refused with nothing changed; a single vertex is renamed, and then the index stays a bijection iff no other vertex has the name |
| `Graphs.RenamedToTaken` | common-server/src/lib/net_state.cpp:90-104 | a run that loses the bijection: of two vertices one is aggregated alone under the name of the other |
| `Graphs.NetState.AddNode` | common-server/src/lib/net_state.cpp:68-88 | refuses a name in use, otherwise adds an isolated vertex; the index stays a bijection |
| `Graphs.NetState.RemoveNode` | common-server/src/lib/net_state.cpp:187-201 | the vertex, its edges and its name go, nothing else |
| `Graphs.NetState.SetName` | common-server/src/include/p4pserver/net_state.h:270-277 | renaming keeps the index a bijection iff no other vertex has the name, because an entry is never overwritten |
| `Graphs.NetState.CopyIncoming` | common-server/src/lib/net_state.cpp:116-133 | every outside edge into the vertex is added to the one into the new vertex |
| `Graphs.NetState.CopyOutgoing` | common-server/src/lib/net_state.cpp:138-155 | every edge from the vertex to the outside is added to the one from the new vertex |
| `Graphs.NetState.Gather` | common-server/src/lib/net_state.cpp:111-156 | after the loop the new vertex carries the sums over the whole set, in whatever order it was visited |
| `Graphs.NetState.RemoveAll` | common-server/src/lib/net_state.cpp:161-164 | the contracted vertices go with their edges and names |
| `Graphs.ContractionKeepsCuts` | common-server/src/lib/net_state.cpp:90-167 | every cut that does not separate the contracted vertices carries the same traffic and capacity, both ways |
| `Graphs.ContractionsCompose` | common-server/src/lib/net_state.cpp:90-167 | contracting in two steps, the second taking in the vertex the first made, is contracting all at once |
| `Graphs.GatheredOne` | common-server/src/lib/net_state.cpp:111-156 | copying one vertex's edges extends the sums by that vertex |
| `Graphs.GatheredAll` | common-server/src/lib/net_state.cpp:161-164 | leaving out the edges of the contracted vertices finishes the contraction |

## Left out

- MerkleStream.ComputeRoot: only lengths that are a multiple of 1024, because the cursor at merkle_tree.cpp:212 steps past the end on any other; `MerkleStream.FileRoot` has no such limit.
- MerkleTrees.MerkleTree.TestProof: a sibling list is a sequence of whole hashes; a trailing part of a hash in the proof string is not modelled.
- Disks.Disk.WriteBytes: assumes that creating and writing files succeeds; failed reads are modelled.
- Torrents.Torrent.WriteData: torrents without Merkle trees, because 32 KB Merkle chunks do not match the 16 KB sub-pieces; the rejected-chunk counters, completion event and renaming of finished torrents are not modelled.
- MerkleStream.FileLeavesRoot: about chunk roots as defined, whatever the length of the last chunk; the hasher's own `compute_root` returns only on multiples of 1024, and `MerkleHashing.CheckChunks` is stated for those.
- MerkleStream.HashedTreeRoot: the same.
- MerkleHashing.CheckChunks: pieces whose length is a multiple of 1024, for the same reason.
- MerkleTorrents.HashSubFile: the tree is new or has the torrent's root; one left half filled by an interrupted hashing is not modelled. The bytes read of each piece are an input; `MerkleWhole.HashTorrent` reads them from files.
- MerkleWhole.HashTorrent: files whose length is a multiple of 1024, as for `MerkleHashing.CheckChunks`, and pieces whose length is a multiple of 32 KB.
- Torrents.Torrent.Run: the verdict on a piece and on the root are inputs; `MerkleTorrents.HashSubFile` and `Torrents.Torrent.HashPiece` say where they come from.
- InfoLayout.PerFileSeamless: every sub-file is nonempty, because the hasher asks an empty one for the root of a tree without nodes; the alignment of sub-files is stated for any piece length, where the source's bit trick needs a power of two.
- Torrents.Torrent.constructor: the invalidation of pieces whose file cannot be opened (bt_file.cpp:190-202) happens before, to the pieces it is given.
- Pieces.Piece.Write: the counters of a valid piece are unconstrained, as `load_state` does not reset them.
- Framing.Link.PostSelect: the message phase only; the two handshake phases and what each message does are not modelled.
- SendQuota.Server.SendRounds: the rounds only; collecting the waiting links and the unlimited case are not modelled.
- Bencode.Read: the parser of uncompressed input; gzip detection is not modelled. A negative length, which `atoi` can return for an overlong number, is an outcome of its own.
- Xif.FileRoundTrip: of a file that overran its buffer only the part inside it is modelled; on values, so the moving data pointer of the source is a remaining byte string; the old and the compressed file layouts are not modelled.
- Swarms.Swarm.RemoteHas: with the torrent's metadata known; the local interest it may raise is not modelled.
- Trackers.Tracker.Announce: logs, statistics, SQL buffers and the peer selection manager are not modelled; the creation time of a new torrent, which the source does not initialise, is an input.
- Trackers.Tracker.ReadUsers: every row carries all columns; the torrent pass index is not modelled.
- Graphs.NetState.AggregateNode: vertex handles given by the caller are in the graph; external flags, PIDs, the index of edge names and change notification are not modelled.
- `Cmerkle_tree::load`: it does not invert `merkle_tree_size`, so there is nothing to round-trip.
- Tracker links, the administration interface, configuration and saving the client's state: I/O and glue.
- PIDs, routing and its static routes, the job queue, the user interfaces, the Python clients and the old tracker: they rest on libraries outside the repository, or are input, output and presentation.
