# A verified model of Chamomile

Chamomile is a peer-to-peer library: peers find each other through a Kademlia routing
table, hold stable connections beside it, relay for each other, and exchange encrypted
and acknowledged messages. This project models that logic in Dafny 4.11 and proves what
it keeps. `dafny verify dfyconfig.toml` checks all of it.

| files | what they model |
|---|---|
| `Metric`, `Trie`, `Lookup`, `RootTrie` | the routing trie as a value: XOR distances, buckets, insertion, search, removal, listing, capacity |
| `KadTree` | the trie as the program keeps it: boxed nodes changed in place |
| `Runs`, `SocketTable` | whole runs of adds and removes: capacity, why only finitely many adds evict, and what fits the socket trie |
| `Table`, `DoubleKad` | the value table behind the two tries |
| `Allows`, `PeerList`, `Buffer`, `Registry`, `Global` | the allow list, the registries of sessions, and every interleaving of the operations that move a session between them |
| `Bytes`, `Peers`, `Wire`, `Core`, `Tcp` | the wire formats and the TCP reader |
| `Relay`, `Keys`, `Handshake` | relaying, key agreement, and key agreement over the wire and over relays |
| `Sessions`, `Delivery` | one session, and acknowledged delivery between two |

How to read the model:

- What the source changes in place is a class whose methods are proved against functions
  or relations on values; the theorems are about these. The effect of an add is a *set* of
  outcomes (`Trie.AddOutcomes`): it is fixed by the map alone except for the choice of the
  victim among the farther cells, which the order of the bucket decides
  (`Trie.InsertInto` fixes it).
- The random 32-bit id of a value, the random secrets and nonces, the reads of a socket and
  the answers of the registries are inputs. Senders are identities. Hash maps are iterated
  in an arbitrary order.
- The cryptographic algorithms are functions with the laws in `Keys.Crypto.Laws`.
- `Distance` is a string of 256 bits (peer ids) or 144 bits (sockets), compared from bit 0.

Where the code and its comments disagree the model follows the code: the comment at
src/kad.rs:49 expects at most 512 socket addresses, but both tries use the same constants,
both are bounded by 1024, and 1024 sockets are reached (`SocketTable.FullTable`), though
never more than four of them IPv4 (`SocketTable.FewIpv4`). The TCP reader does not close on
every end of the stream, nor keep to the frames under every cutting: `Tcp.KeepsToFrames` says
exactly when it keeps to them, and `Tcp.EndsIffComplete` exactly when it then ends. The sweep
of the buffer is announced as every 60 seconds at src/server.rs:138 and happens every 10; the
model counts sweeps, not seconds.

## Model

| member | source | states |
|---|---|---|
| Metric.ComputeXor | src/kad.rs:485-497 | the loop computes the bitwise XOR |
| Metric.LongerSharedPathIsCloser | src/kad.rs:341-376 | of two distances, the one that follows the target one bit longer is strictly closer to it |
| Metric.LessTotal | src/kad.rs:439-443 | distances of one length are totally ordered (with LessAsymmetric, LessTransitive) |
| Metric.LessTransitive | src/kad.rs:439-443 | the order on distances is transitive |
| Metric.LessAsymmetric | src/kad.rs:439-443 | the order on distances is asymmetric |
| Metric.LessIffSmaller | src/kad.rs:439-443 | distances compare as the numbers their bits spell |
| Metric.XorValue | src/kad.rs:485-497 | the XOR of two bit strings spells the XOR of the two numbers |
| Trie.SplitBindings | src/kad.rs:327-333 | sharing a full bucket out between two children loses no binding and invents none |
| Trie.InsertRefines | src/kad.rs:281-339 | insert on a well-formed node leaves a well-formed node (empty lists inside, every cell on the path its bits spell) and is one of the outcomes the map alone allows |
| Trie.AddToFullBottomBucket | src/kad.rs:317-325 | a full bucket at level 8 replaces its first strictly farther cell and reports its id, or refuses and changes nothing |
| Trie.OutcomeLifts | src/kad.rs:282-299 | an add below one side of a node is the same add on the whole node |
| KadTree.Node.Insert | src/kad.rs:281-339 | the in-place insert, including its calls on the same node at the same index, terminates and does exactly what Trie.InsertInto says, with the same report |
| KadTree.Node.TakeOut | src/kad.rs:301-311 | the ids filed under the key are reported and the key's cell is taken out |
| KadTree.Node.ReplaceFarther | src/kad.rs:318-325 | the first strictly farther cell, and no other, is overwritten |
| KadTree.Node.SplitAndInsert | src/kad.rs:327-335 | the new cell is inserted into the fully shared-out node |
| KadTree.Node.ShareOut | src/kad.rs:330-333 | the loop of re-inserts shares the bucket out by the cells' bits |
| KadTree.Node.ReinsertFirst | src/kad.rs:331-332 | the result the source drops is always (true, []) |
| KadTree.ReinsertKeepsAll | src/kad.rs:330-333 | for every split in progress, re-inserting a cell returns (true, []), moves it to the child its bit names and leaves the rest |
| KadTree.Node.Search | src/kad.rs:341-376 | whatever a single path finds is XOR-closest in the whole subtree; a stored key is found as itself; nothing is found exactly when the bucket on the path holds only opposite keys |
| KadTree.Node.Scan | src/kad.rs:342-355 | the bucket scan stops at the key or remembers a closest cell below the all-ones distance |
| KadTree.Node.Remove | src/kad.rs:378-402 | removes exactly the key's binding, returns its id, keeps the node well-formed |
| KadTree.Node.Keys | src/kad.rs:404-416 | appends the keys in the order list, left, right |
| KadTree.Node.IsEmpty | src/kad.rs:418-436 | true exactly when no key is listed |
| KadTree.KadTree.Add | src/kad.rs:160-180 | an add on the whole tree is one of the outcomes its map allows |
| KadTree.KadTree.ContentsBalanced | src/kad.rs:301-325 | the map of a valid tree has at most four keys to eight bits, as the theorems on runs ask of a start |
| KadTree.KadTree.Search | src/kad.rs:188-224 | for the whole tree, including the fall back to the other side of the root: a closest key of the whole map; the key itself exactly when it is stored; nothing exactly when the bucket on the one path read holds only opposite keys |
| KadTree.KadTree.NextClosest | src/kad.rs:182-186 | answers as the search does, with the closest key's id, unless that key is the previous hop |
| KadTree.KadTree.Contains | src/kad.rs:237-243 | true exactly for stored keys |
| KadTree.KadTree.Remove | src/kad.rs:226-235 | removes exactly the key's binding and returns its id |
| KadTree.KadTree.Keys | src/kad.rs:245-254 | every stored key, once |
| KadTree.KadTree.IsEmpty | src/kad.rs:256-269 | true exactly when the map is empty |
| Lookup.ClosestLifts | src/kad.rs:357-371 | a key closest on the target's side of a node is closest in both subtrees |
| Lookup.SearchLifts | src/kad.rs:357-375 | searching one child answers for the node, in all three respects |
| Lookup.KeysExact | src/kad.rs:404-416 | the traversal lists every stored key, no other, and none twice |
| Lookup.Capacity | src/kad.rs:46-50 | a node at level i holds at most 4 * 2^(8 - i) keys |
| RootTrie.RootSearch | src/kad.rs:188-224 | a search of the side that is read answers for the whole tree, also when it is the other side |
| RootTrie.RootRemoved | src/kad.rs:226-235 | taking a key out of the side its first bit names takes exactly its binding out of the whole tree |
| RootTrie.MateIsFound | src/kad.rs:341-376 | a search never comes back with nothing when a stored key shares the first eight bits with the target |
| RootTrie.RootCapacity | src/kad.rs:46-50 | a tree holds at most 4 * 256 = 1024 keys |
| RootTrie.RootBalanced | src/kad.rs:301-325 | in a well-formed tree at most four keys share their first eight bits |
| RootTrie.ClosestBetweenKeys | src/kad.rs:13-21 | closest seen from the root is closest between the keys' own bits |
| RootTrie.ClosestUnique | src/kad.rs:188-224 | when bits tell keys apart, every key other than the closest is strictly farther from the target in the XOR of the keys' own bits |
| Runs.AddExplained | src/kad.rs:160-180 | refused if and only if the key is new and four mates are all at least as close, and then nothing changed; accepted: bound, everything else as before, at most one key gone, and only from a full bucket, which shares 8 bits and is strictly farther; the report names exactly the id that left |
| Runs.StepKeepsBalance | src/kad.rs:301-325 | no step lets five keys share eight bits |
| Runs.RunCapacity | src/kad.rs:46-50 | at every point of every run of adds and removes, from the empty table or any other a run can leave, at most 1024 keys are held |
| Runs.AddRaisesTotal | src/kad.rs:318-325 | an eviction strictly raises the total nearness to the root; re-adding a present key leaves it |
| Runs.FiniteEvictions | src/kad.rs:301-325 | in every run of adds and removes the evictions number at most (1024 + the removes) * 2^(key length), however long the run and wherever it starts |
| Runs.FiniteEvictionsBetween | src/kad.rs:301-325 | every stretch of adds in a run has at most 1024 * 2^(key length) evictions, whatever came before it |
| SocketTable.FullTable | src/kad.rs:46-50 | from every root some run of adds fills the socket trie with 1024 sockets |
| SocketTable.FewIpv4 | src/kad.rs:31-44 | after every run at most four IPv4 sockets are held, because all of them share their first eight bits |
| SocketTable.MatesByFirstByte | src/kad.rs:31-44 | two sockets compete for a bottom bucket exactly when their first address bytes agree |
| Table.AddKeepsLink | src/kad.rs:89-105 | an accepted add keeps peer trie and value table linked if and only if no other surviving peer holds the drawn id |
| Table.AddMakesView | src/kad.rs:89-105 | with a fresh id, an add is the corresponding add on the one map from peers to values |
| Table.MatesAreRivals | src/kad.rs:13-29 | ids compete for a bucket exactly when their first bytes agree, and are compared by the XOR of their numbers with the root's |
| Table.AddedExplained | src/kad.rs:89-105 | an add of a peer read back from the two maps: refused if and only if it is new, four rivals are known and none is farther; otherwise bound, and at most a farther rival gone from a full bucket |
| Table.AddKeepsSockets | src/kad.rs:98-100 | a socket cell whose id is in use still names that value's own socket |
| Table.RemoveKeepsLink | src/kad.rs:128-136 | a remove takes exactly one peer out of the one map |
| Table.EveryRunLinked | src/kad.rs:89-136 | after every run the ids in the peer trie are exactly the domain of the values, and both links hold |
| Table.HitIsNearest | src/kad.rs:121-126 | what the peer trie finds is the one known peer whose id, as a 256-bit number, has the least XOR with the target's |
| Table.NextAnswer | src/kad.rs:107-112 | an id comes back exactly when the path read leads to a bucket that is not all opposite and the nearest peer is not the previous hop; it then is the nearest peer's |
| DoubleKad.DoubleKadTree.Add | src/kad.rs:89-105 | on the one map: bound, minus at most one peer with the same first byte whose number is farther from the root's, or refused and unchanged |
| DoubleKad.DoubleKadTree.Search | src/kad.rs:121-126 | the value of the known peer whose number has the least XOR with the target's; exact exactly for known peers; nothing exactly when the path read misses |
| DoubleKad.DoubleKadTree.IdNextClosest | src/kad.rs:107-112 | the value of the nearest known peer; nothing exactly when the path read misses or the nearest peer is the previous hop |
| DoubleKad.DoubleKadTree.Remove | src/kad.rs:128-136 | takes the peer out and returns its value |
| DoubleKad.DoubleKadTree.Contains | src/kad.rs:138-140 | true exactly for known peers |
| DoubleKad.DoubleKadTree.Keys | src/kad.rs:142-144 | every known peer once |
| DoubleKad.DoubleKadTree.IsEmpty | src/kad.rs:146-148 | true exactly when no peer is known |
| PeerList.PeerList.All | src/peer_list.rs:84-97 | each connected peer once: a stable one with its stable session's sender, any other with that of the routing table |
| PeerList.PeerList.Gossip | src/server.rs:507-512 | a gossip broadcast makes exactly one send per known peer, with id 0 and the data, over the peer's own session |
| PeerList.ListingCounts | src/peer_list.rs:175-197 | a repeat-free listing of a set is as long as the set |
| PeerList.PeerList.HelpDht | src/peer_list.rs:175-197 | each known peer other than the asker exactly once, so as many as there are |
| PeerList.PeerList.IsEmpty | src/peer_list.rs:79-81 | true exactly when no peer is known |
| PeerList.PeerList.Get | src/peer_list.rs:112-117 | the stable value, or else the nearest one of the routing table; exact exactly for known peers; nothing exactly when the peer is not stable and the path read misses |
| PeerList.PeerList.NextClosest | src/peer_list.rs:126-131 | a stable target is reached directly, otherwise the nearest peer; nothing exactly when the path read misses or the nearest peer is the previous hop |
| PeerList.PeerList.Contains | src/peer_list.rs:162-164 | true exactly for known peers |
| PeerList.PeerList.AddStable | src/peer_list.rs:251-266 | the new session is filed, a replaced one is told to close, a new peer is allowed; every stable peer stays allowed |
| PeerList.PeerList.StableToDht | src/peer_list.rs:268-278 | a direct connection goes to the routing table, a relayed one is dropped; the peer's first entry leaves the allow list and every stable peer stays allowed |
| PeerList.PeerList.DhtToStable | src/peer_list.rs:280-288 | succeeds exactly for peers of the routing table, moves them, and allows them |
| PeerList.PeerList.AddDht | src/peer_list.rs:233-246 | an add to the routing table; a public peer with a new socket becomes a bootstrap peer |
| PeerList.PeerList.RemovePeer | src/peer_list.rs:201-206 | takes a peer out of the routing table |
| PeerList.PeerList.PeerDisconnect | src/peer_list.rs:210-222 | the last entry with the socket leaves the allow list |
| Allows.AddBootstrap | src/peer_list.rs:300-310 | appends the peer unless its socket is listed |
| Allows.AddAllowPeer | src/peer_list.rs:312-322 | appends a bare entry unless the id is listed |
| Allows.RemoveAllowPeer | src/peer_list.rs:324-330 | takes out the first entry of the peer |
| Allows.PeerDisconnect | src/peer_list.rs:210-222 | takes out the last entry with the socket |
| Allows.OthersStayAllowed | src/peer_list.rs:324-330 | taking a peer out changes nobody else's permission |
| Allows.BootstrapCame | src/peer_list.rs:300-310 | afterwards the socket is listed; the peer itself if and only if it was or the socket was new; nobody else came or went |
| Allows.PeerWent | src/peer_list.rs:324-330 | the peer has exactly one entry less, if it had one |
| Allows.DisconnectKeepsAllowed | src/peer_list.rs:210-222 | after a disconnect all of a set of allowed peers are still allowed if and only if the entry taken is of none of them or not the only one of its peer |
| Allows.DisconnectForgets | src/peer_list.rs:210-222 | it can fail: the only entry of a stable peer goes with its socket |
| Buffer.Buffer.AddConnect | src/buffer.rs:45-53 | appends to the waiting queue, or starts one |
| Buffer.Buffer.RemoveConnect | src/buffer.rs:55-57 | returns the whole queue and drops it |
| Buffer.Buffer.AddResult | src/buffer.rs:59-67 | appends to the waiting queue, or starts one |
| Buffer.Buffer.RemoveResult | src/buffer.rs:69-71 | returns the whole queue and drops it |
| Buffer.Buffer.AddTmp | src/buffer.rs:86-88 | files a temporary session, unmarked |
| Buffer.Buffer.UpdatePeer | src/buffer.rs:90-92 | replaces the peer record of that entry and nothing else: senders, mark and flag stay |
| Buffer.Buffer.RemoveTmp | src/buffer.rs:94-96 | takes a temporary session out |
| Buffer.Sweep | src/buffer.rs:99-109 | marks what is unmarked and removes what was marked |
| Buffer.Buffer.TimerClear | src/buffer.rs:98-147 | sweeps all four maps; exactly the swept temporary sessions are told to close, each once |
| Buffer.QueueExact | src/buffer.rs:45-71 | after every sequence of pushes, drains and ticks a queue is there if and only if a push created it and it was since neither drained nor ticked twice; it then holds exactly the requests since that push, in order |
| Buffer.TmpLife | src/buffer.rs:134-146 | a temporary session neither replaced nor taken survives one tick and is gone after the second, whatever is learnt of its peer in between |
| Registry.StepKeepsSingle | src/global.rs:113-166 | no step puts a session handle in two places |
| Registry.StepKeepsFlags | src/global.rs:136-166 | the direct flags keep telling which handles were made as relayed, and none of these is in the routing table |
| Registry.EveryRun | src/global.rs:113-166 | over every interleaving of the lock-protected steps, update_peer included, a handle is in at most one of temporary, routing table, stable, in transit |
| Registry.RelayedForGood | src/peer_list.rs:268-278 | a handle once registered as relayed is never in the routing table afterwards |
| Registry.NoHandleLost | src/global.rs:113-166 | after every step a handle is where the step takes it, unless it was dropped by name, replaced, refused or displaced by the routing table, or relayed and bound for it |
| Registry.MadeIsFiled | src/global.rs:113-134 | a new session is filed as made, unless the routing table refuses it |
| Registry.DroppedIsGone | src/global.rs:136-166 | what a step takes or drops is no longer where it was |
| Registry.UpgradeExact | src/global.rs:136-144 | an uninterrupted upgrade leaves the session stable, as direct as it was, and no longer temporary or in the routing table |
| Registry.TmpToDhtExact | src/global.rs:146-156 | an uninterrupted tmp_to_dht leaves the session out of the buffer and, if direct, in the routing table unless that has no room |
| Global.Global.AddTmp | src/global.rs:113-119 | is the step that makes a temporary session, and hands out the waiting requests |
| Global.Global.AddAllTmp | src/global.rs:121-134 | the same with the waiting results |
| Global.Global.Upgrade | src/global.rs:136-144 | files the temporary session, or else the routing table's, as stable with its flag, takes it from where it was, and fails exactly when the peer is in neither; it is the two steps through transit, or the promotion |
| Global.Global.TmpToDht | src/global.rs:146-156 | is the two steps through transit; succeeds exactly when a direct session was there and the routing table took it |
| Global.Global.StableToDht | src/global.rs:158-166 | is the drop of the temporary session followed by the demotion; succeeds exactly when the connection was direct and the routing table took it |
| Global.Global.UpdatePeer | src/session.rs:222 | is the step that revises a temporary session's peer |
| Global.Global.RemoveTmp | src/session.rs:348-354 | is the step that drops a temporary session |
| Global.Global.TimerClear | src/buffer.rs:134-146 | is the step that drops the swept sessions, and exactly these are told to close |
| Global.Global.AddDht | src/server.rs:219 | is the step that makes a session of the routing table, and tells whether the table took it |
| Global.Global.RemovePeer | src/session.rs:349 | is the step that drops a session of the routing table |
| Global.Global.StableLeave | src/session.rs:341 | is the step that drops a stable session |
| Peers.SocketRoundTrip | types/src/peer.rs:8-37 | a socket decodes to its normal form: IPv4-mapped and IPv4-compatible addresses become IPv4, flow and scope are cleared |
| Peers.PeerRoundTrip | types/src/peer.rs:99-122 | a peer is 52 bytes and decodes to its normal form, which is reached once and for all |
| Peers.NormalSocketExact | types/src/peer.rs:20-37 | an IPv6 socket becomes IPv4 exactly when its address is ::ffff:a.b.c.d or ::a.b.c.d |
| Peers.PeerLayout | types/src/peer.rs:99-122 | the offset and value of every field in the 52 bytes |
| Peers.BitsValue | src/kad.rs:23-29 | the bits of a byte string spell the number its bytes spell, most significant first |
| Peers.NearerByGap | src/kad.rs:13-29 | comparing distances of peer ids is comparing the XORs of their 256-bit numbers |
| Peers.SharedByFirstByte | src/kad.rs:13-29 | two ids share the first eight distance bits exactly when their first bytes agree |
| Peers.PeerBitsInjective | src/kad.rs:23-29 | peer ids are told apart by their bits |
| Peers.SocketBitsCollide | src/kad.rs:31-44 | an IPv4 socket and its IPv4-mapped form have the same bits |
| Wire.KeypairRoundTrip | src/keys.rs:175-201 | a keypair decodes to its public part |
| Wire.RemoteRoundTrip | src/transports.rs:120-143 | a remote public decodes to its normal form |
| Wire.DhtRoundTrip | src/hole_punching.rs:39-66 | a peer list decodes to its normal form |
| Wire.ComputeDhtToBytes | src/hole_punching.rs:59-66 | the loop appends the 52-byte records |
| Wire.ComputeDhtFromBytes | src/hole_punching.rs:39-57 | the loop decodes record by record and fails on the first bad one |
| Wire.NormalTwice | src/transports.rs:147-253 | normalising is idempotent and keeps well-formedness |
| Wire.RoundTrip | src/transports.rs:147-253 | a message decodes from its own bytes to its normal form if and only if its key has the right length and its lengths fit their fields |
| Wire.ToBytes | src/transports.rs:147-190 | the appending encoder computes Encode |
| Wire.FromBytes | src/transports.rs:192-252 | the draining decoder computes the total function Decode, for every byte string |
| Wire.Layout | src/transports.rs:147-190 | the tag of every message and where its fields lie |
| Wire.RemoteLayout | src/transports.rs:135-143 | where the fields of a remote public lie |
| Wire.PeersLayout | src/hole_punching.rs:59-66 | the record of every peer of a list at its offset |
| Wire.DecodedIsNormal | src/transports.rs:192-252 | whatever decodes, decodes to a message of the kind its first byte names, well-formed and unchanged by another crossing; data, relayed data and holes only from their own bytes |
| Bytes.ByteOrder | src/transports.rs:126-140 | which end of the integers on the wire is most significant |
| Core.RoundTrip | src/session.rs:947-1060 | every session message decodes from its own bytes to itself |
| Core.Layout | src/session.rs:947-990 | the tag of every session message and the order of its fields |
| Core.DecodedFaithfully | src/session.rs:996-1060 | whatever decodes, decodes to a message of the kind its first byte names, and from that message's own bytes up to what the decoder ignores |
| Tcp.Read | src/transports/tcp.rs:245-287 | for every stream, ended or failed, and every cutting of the reads of prefixes and bodies, the reader emits what following the stream round by round gives |
| Tcp.ReadBody | src/transports/tcp.rs:259-275 | the inner loop fills the body from pieces, or finds the stream ended |
| Tcp.ReadFrame | src/transports/tcp.rs:250-278 | one round of the reader: prefix, body, message, or how it ends |
| Tcp.ReaderEmitsMeaning | src/transports/tcp.rs:249-278 | when every prefix the reader comes to is read whole, it emits what the stream means, however the bodies are cut, down to single bytes |
| Tcp.KeepsToFrames | src/transports/tcp.rs:216-278 | for every list of bodies and every cutting: the reader begins its rounds exactly at the frames if and only if every frame's prefix is read in one piece, and if and only if the decoder is handed exactly the bodies written |
| Tcp.FollowEmitsHanded | src/transports/tcp.rs:249-284 | for every stream and every cutting: what comes out is the messages of the bodies that decode, in order, and the reader closes if and only if a read fails or it stops at the end of the stream, and spins otherwise |
| Tcp.ShortSpan | src/transports/tcp.rs:250-258 | a prefix read short always lands the reader strictly inside the same frame |
| Tcp.ShortHeadDerails | src/transports/tcp.rs:250-258 | a prefix that comes in as three bytes and one loses a frame of one byte, whatever the byte, and leaves the reader spinning on a complete stream |
| Tcp.StreamRoundTrip | src/transports/tcp.rs:216-287 | what the writer writes, the reader emits in order, up to the first Close, and then the Close of the end, when each frame's prefix is read in one piece and the bodies are cut in any way |
| Tcp.ReceivedExact | src/transports/tcp.rs:216-240 | written and received are the messages up to and including the first Close, and none behind it |
| Tcp.CutInsideBody | src/transports/tcp.rs:260-282 | a stream cut inside a body, prefixes read in one piece: the whole frames before it are emitted, and then the reader closes after a failed read and reads zero bytes for ever after a plain end |
| Tcp.EndsIffComplete | src/transports/tcp.rs:249-284 | a reader that reads prefixes whole ends if and only if a read fails or the stream is whole frames and at most three zero bytes |
| Relay.ForwardKeeps | src/session.rs:652-690 | crossing the wire does not change whether a relay passes a message on |
| Relay.ForwardExactly | src/session.rs:652-690 | a relay sends a message on, unchanged, if and only if it relays at all, the message is not for itself, and the handing on reaches a stream before a session that would bounce it |
| Relay.LeavesByFirstStream | src/session.rs:652-690 | inside a relay a message gets onto a stream if and only if the handing on reaches a direct session and no session up to it bounces the message |
| Relay.TravelKeeps | src/session.rs:779-793 | over any chain of relays a message arrives if and only if each of them relays, is not its target and reaches a stream with it, and then as after one crossing |
| Relay.RelayDataUntouched | src/session.rs:756-793 | the two ends and the data cross any chain unchanged |
| Relay.HandshakeStable | src/session.rs:862-878 | a handshake looks the same after any two chains that let it through |
| Keys.SessionKey.Complete | src/keys.rs:303-329 | accepts exactly an Ed25519 key of 32 bytes and 108 bytes whose signature verifies, then holds the hash of the Diffie-Hellman value and the last 12 bytes as nonce; otherwise nothing changes |
| Keys.AcceptsExactly | src/keys.rs:303-329 | the exact condition for acceptance, signature included |
| Keys.CompletedExactly | src/keys.rs:303-329 | a refused session is unchanged, an accepted one gets key, nonce and flag and nothing more |
| Keys.OutBytesLayout | src/keys.rs:331-336 | what an end gives out: its fresh key, its signature of it, its nonce; only Ed25519 can begin |
| Keys.CompletesOn | src/keys.rs:303-336 | a session accepts the bytes of a matching keypair's session, whatever nonce they carry, and takes that nonce over |
| Keys.HandshakeAgrees | src/server.rs:179-200 | initiator and responder accept each other, hold the hash of the shared Diffie-Hellman value and the initiator's nonce, and read each other |
| Keys.TwoInitiators | src/session.rs:808-824 | two initiators share the key but swap nonces, and agree if and only if the nonces were equal |
| Handshake.AgreeOverWire | src/global.rs:54-69 | the handshake agrees when its messages cross the wire |
| Handshake.AgreeOverRelays | src/session.rs:795-861 | the handshake agrees over any two chains of relays that let its messages through |
| Sessions.Session.HandleCoreData | src/session.rs:463-552 | the handler's effect on flags, sends and application, for every sealed message |
| Sessions.Session.HandleOutside | src/session.rs:613-719 | the same for every order of the node |
| Sessions.Session.HandleHeartbeat | src/session.rs:885-892 | counts a beat and pings, or ends the session |
| Sessions.SealIsInvisible | src/session.rs:449-465 | between ends that agree, what is sent is what is handled |
| Sessions.OnlySealed | src/session.rs:449-465 | exactly what opens under the session's key and nonce and decodes is handled, and what is sent opens to the message's bytes |
| Sessions.CoreExact | src/session.rs:463-552 | when a message ends the session, is answered, resets the counter, or shows a leave |
| Sessions.OrderExact | src/session.rs:613-719 | when an order makes a session stable or direct, ends it, or shows a leave |
| Sessions.BeatIsAnswered | src/session.rs:466-472 | a beat is answered by the other end in any state, and the answer resets the counter |
| Sessions.HeartbeatCounts | src/session.rs:470-472 | in every run the counter is the number of beats since the last Pong and at most 4; five unanswered beats end the session |
| Sessions.FifthBeatEnds | src/session.rs:885-892 | a beat ends the session if and only if four are unanswered |
| Sessions.StableForGood | src/session.rs:554-559 | a stable session receives data and stays stable for the rest of its life |
| Delivery.CoreAcksHonestly | src/session.rs:473-543 | exactly what the application is shown of a message is acknowledged, with a prefix of its data |
| Delivery.CoreHands | src/session.rs:473-543 | the application is shown the message as it was sent, once, unless it is data on a session that does not take data |
| Delivery.CoreHandsNoMore | src/session.rs:473-543 | and it is shown no other data |
| Delivery.OrderIsHonest | src/session.rs:613-651 | an order sends exactly the message it asks for, and no acknowledgement |
| Delivery.OrderShowsNothing | src/session.rs:613-651 | an order shows neither a positive delivery nor the other end's data |
| Delivery.CoreShowsHonestly | src/session.rs:489-504 | a positive delivery is shown for exactly every acknowledgement that came in, except of data on a session that takes none |
| Delivery.StepKeepsSound | src/session.rs:463-651 | every step of either end, and every loss, keeps the exact account of messages and acknowledgements |
| Delivery.NoPhantomAck | src/session.rs:463-552 | in every run over lossy, reordering channels, positive deliveries of a kind and id never outnumber the messages handed to the other application, which are one by one the data it was shown, nor these the ones asked for, and every payload is a prefix of the original data |
| Delivery.EveryMessageAccounted | src/session.rs:463-651 | in every run, of every kind and id: messages asked for are handed over, passed over, on their way or lost, and acknowledgements owed are shown, passed over, on their way or lost, with nothing missing and nothing twice |
| Delivery.NothingMissing | src/session.rs:463-651 | when all has arrived and nothing was lost or passed over, there are as many positive deliveries as messages asked for |
| Delivery.AckArrives | src/session.rs:489-504 | handling an acknowledgement shows it then and there |
| Delivery.Exchange | src/session.rs:473-543 | one lossless exchange: handed over, acknowledged, and shown with the first bytes of its data |
| Delivery.BounceReports | src/session.rs:368-415 | a message that comes back is reported as undelivered exactly when it could have been acknowledged |

## Left out

- DoubleKad.DoubleKadTree.Add: takes the random id as an input that is not in use; Table.AddKeepsLink says what happens when it is.
- KadTree.Node.Remove: states the map that is left, not the order of the cells in the bucket, which only decides which of several farther cells a later add replaces.
- PeerList.PeerList.Gossip: lists the sends; that a full or closed channel drops one is not modelled.
- Registry.EveryRun: assumes that a new session comes with a handle never used before; dht_to_stable may also run without the failed look into the buffer that precedes it, which allows more interleavings than the program has.
- Delivery.NoPhantomAck: assumes channels that neither forge nor duplicate; forging is excluded by the sealing, which is a law of the cryptography here.
- Tcp.StreamRoundTrip: assumes that every length prefix is read in one piece, as the handshake path checks; Tcp.KeepsToFrames shows that this is needed and Tcp.ShortHeadDerails what happens without it. The first frame's own reader is not modelled.
- Tcp.KeepsToFrames: takes the writer's frames as written whole; the writer sends the prefix with `write` (src/transports/tcp.rs:226-231), which may write less, and a short write shifts the stream like a short read.
- Tcp.Read: a failed read is taken to be the last: after it the socket has no more bytes.
- Relay.TravelKeeps: takes the routing decision of every relay as given; that relays make progress, or never loop, does not follow from the code. Which sessions a relay hands the message through is an input.
- Keys.HandshakeAgrees: the algorithms are functions with stated laws; a keypair whose halves do not belong together is not modelled.
- The block lists, saving and loading, and the string forms of peers: they would only add easy members, and the string parsers do not read what the printers write.
- Completeness of the socket trie: ids dropped by the peer trie stay in it, so only the one-way link holds.
- QUIC, socket binding, task spawning, channel capacities, timers' lengths and logging: input and output over libraries that are not part of this model.
- Which registries a session still touches when it closes: `listen` closes a second time after any earlier close, so nothing like "exactly one leave" holds.
- The wrap-around of 32-bit and 64-bit lengths on a 32-bit machine, where a peer list's byte count could overflow.
