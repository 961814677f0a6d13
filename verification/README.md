# A verified model of the AmneziaWG data plane

The Go data plane that the AmneziaVPN client vendors (`dep_build/amneziawg-tools/src`) rests on a handful of
small algorithms and protocols.  This project models them in Dafny 4.11 and proves what they are for.  Check it
with `dafny verify dfyconfig.toml`.

| modules | subject |
|---|---|
| AddressBits, TrieHeap, TrieSearch, TrieLists, AllowedIPs, TrieShape, SlowRouter | the routing trie, as linked nodes changed in place, against a plain map from masked prefixes to peers and against the naive router |
| Constants, Words, Wrappers, Chunks, Checksum, Headers | shared limits, byte strings, pieces of one size, and the Internet checksum |
| Gso | splitting large packets |
| GroPackets, GroItems, GroCoalesce, GroTables, GroOrder, GroDone, GroFlows, GroAccounting, Gro | merging small packets: decisions, items, buffers, flow tables, order, packets that are done with, headers, and a whole batch |
| GroRun | the reference for merging: what each packet of a batch does, as a function |
| GroExact, GroTrains | which packets are merged, in terms of their bytes |
| GroSplits, GroLimits, GroSamples | splitting undoes merging; what is not kept, exactly when, and batches that show it |
| Replay, ReplayWindow | the anti-replay window |
| Noise, Device, Agreement, Authenticity | handshake handlers, index table and keypair slots; agreement of the two ends of an exchange; what an end may conclude from a message that it accepts |
| Tai64n | handshake timestamps |
| Nonces, Staging | the shared send counter, and what becomes of a container when it runs out |
| Grouping, Batching | UDP segmentation offload in the socket layer |
| RateLimiter, Timers, Base64, ObfChain | the token buckets, the timers, and the obfuscation chains |

Objects that the source changes in place are classes with fields, and buffers are arrays.  Where handlers or
goroutines interleave, a step is an action and a run is any sequence of actions; an action that cannot be taken
changes nothing.  `old` values on one side and a plain function or relation on the other tie each method to its
specification.

What does not hold is stated too:

- Index 0 stands for "none" in the handshake, but it can be drawn.  The invariants of the index table hold for
  every other index whatever is drawn, and for the whole table as long as 0 was not.  `IndexZeroMixesPeers`
  is a run from a new device that shows what happens otherwise.
- The counter of a keypair survives up to 2^13 concurrent senders without wrapping, and 2^13 + 1 without giving a
  nonce twice; both numbers are exact.
- A segment size larger than the message makes the receiver take bytes that are not part of it
  (`TakenIsCut`).  All datagrams are sent exactly if no empty one is put into an open message
  (`CoalesceMessages`); `SecondEmptyDropped` has the shortest such input.
- The PSH flag of merged TCP packets survives exactly if the packet that has it did not come before the first
  packet of the group (`MergedGivesBack`); `PshIsLost` has two packets for which it does not.
- A datagram that the parser turns down, such as an empty one, can be overtaken by later ones of its flow;
  `FlowOrderExactly` says when, `OrderIsLost` is a batch.  The others keep their order.
- A TCP packet whose checksum is found wrong when another is to be joined to it is written with whatever virtio
  header was there (`DroppedExactly`, `AnnouncedExactly`); `HeaderIsLost` has two packets for which that happens.
- A segment of an IPv6 packet with extension headers announces too small a length
  (`LengthRightExactly`, `ExtensionHeaderNotCounted`).
- Datagrams travel in as few messages as possible if every buffer has room for the payload limit (`Fewest`); with
  smaller ones there may be more than needed (`RoomMatters`).
- Time stamps are monotone except across the point where the seconds wrap (`StampMonotoneExactly`).
- The limiter lets only four packets through at one instant, not the five of its constant, because a bucket must
  hold more than the cost of a packet (`BoundIsMet`).
- After DelSync has returned an expiration can still start without another Mod exactly if the timer is pending at
  the return (`DelSyncExactly`), as it is after a Mod between the second Del and the return (`ModBeforeReturn`).

## Model

| member | source | states |
|---|---|---|
| AllowedIPs.Trie.NodePlacement | dep_build/amneziawg-tools/src/device/allowedips.go:88-99 | stops at the node of the prefix itself, or at the last node on the path of the address, with nothing longer and matching below it |
| AllowedIPs.Trie.Insert | dep_build/amneziawg-tools/src/device/allowedips.go:101-189 | on the pointer structure, every shape case: the new map is the old one with the masked prefix given to the peer; the list of the old owner loses the node, the list of the new one gets it at the end; all heap links stay right |
| AllowedIPs.Trie.RemoveEntry | dep_build/amneziawg-tools/src/device/allowedips.go:226-257 | one prefix leaves the map, the node and a parent that it leaves useless leave the heap, and the rest stays linked |
| AllowedIPs.Trie.Lookup | dep_build/amneziawg-tools/src/device/allowedips.go:191-205 | the answer is the peer of a longest stored prefix that contains the address, or none if no prefix does |
| AllowedIPs.AllowedIPs.Insert | dep_build/amneziawg-tools/src/device/allowedips.go:291-304 | both address lengths together stand for one map, in which the masked prefix now belongs to the peer |
| AllowedIPs.AllowedIPs.Remove | dep_build/amneziawg-tools/src/device/allowedips.go:259-278 | the prefix leaves the map exactly if it belonged to that peer |
| AllowedIPs.AllowedIPs.RemoveByPeer | dep_build/amneziawg-tools/src/device/allowedips.go:280-289 | exactly the prefixes of the peer leave the map, in both tries, and the list of the peer is empty |
| AllowedIPs.AllowedIPs.EntriesForPeer | dep_build/amneziawg-tools/src/device/allowedips.go:213-224 | the callback gets every prefix of the peer exactly once, and all of them unless it stops |
| AllowedIPs.AllowedIPs.Lookup | dep_build/amneziawg-tools/src/device/allowedips.go:306-317 | longest-prefix match in the map that both tries stand for |
| TrieHeap.SameKeySameNode | dep_build/amneziawg-tools/src/device/allowedips.go:88-99 | in a well-formed trie a prefix has at most one node, so the pointer trie is a map |
| TrieHeap.LongestMatchUnique | dep_build/amneziawg-tools/src/device/allowedips.go:191-205 | at most one peer is the right answer for an address |
| TrieHeap.LeafWf | dep_build/amneziawg-tools/src/device/allowedips.go:140-144 | a new leaf keeps the trie well-formed: lengths increase downward, children agree with prefix and branch bit, peerless nodes have two children, back-pointers match |
| TrieHeap.AboveWf | dep_build/amneziawg-tools/src/device/allowedips.go:152-165 | so does a new node above an old one |
| TrieHeap.BranchWf | dep_build/amneziawg-tools/src/device/allowedips.go:167-188 | so does a new branching node with the old and the new node below it |
| TrieHeap.LiftWf | dep_build/amneziawg-tools/src/device/allowedips.go:232-244 | and so does taking out a node with at most one child |
| TrieShape.CanonicalUnique | dep_build/amneziawg-tools/src/device/allowedips.go:58-67 | two canonical trees with the same entries are equal |
| TrieShape.ShapeCanonical | dep_build/amneziawg-tools/src/device/allowedips.go:101-189 | the tree read off a well-formed heap is canonical |
| TrieShape.ShapeEntries | dep_build/amneziawg-tools/src/device/allowedips.go:101-189 | and its entries are the map |
| TrieShape.SameTableSameShape | dep_build/amneziawg-tools/src/device/allowedips.go:101-257 | two tries that stand for the same map have the same tree, whatever was done to get there |
| TrieShape.InsertThenRemove | dep_build/amneziawg-tools/src/device/allowedips.go:101-257 | inserting a fresh prefix and removing it gives back the same tree |
| TrieShape.EmptyTableEmptyTrie | dep_build/amneziawg-tools/src/device/allowedips.go:226-257 | with the last prefix the last node goes |
| SlowRouter.Insert | dep_build/amneziawg-tools/src/device/allowedips_rand_test.go:43-58 | the reference router after an insert stands for the same map that the trie stands for |
| SlowRouter.Lookup | dep_build/amneziawg-tools/src/device/allowedips_rand_test.go:60-68 | the first entry that contains the address is a longest one |
| SlowRouter.RemoveByPeer | dep_build/amneziawg-tools/src/device/allowedips_rand_test.go:70-79 | the entries of the other peers stay, in order, and stand for the reduced map |
| SlowRouter.RoutersAgree | dep_build/amneziawg-tools/src/device/allowedips_rand_test.go:81-141 | trie and reference router never disagree on an address |
| Checksum.ChecksumNoFold | dep_build/amneziawg-tools/src/tun/checksum.go:9-84 | in either byte order and for every length, the unrolled carry chains lose no carry: the result is congruent to the initial value plus the sum of the big-endian words |
| Checksum.Sum | dep_build/amneziawg-tools/src/tun/checksum.go:86-93 | equals section 2 of RFC 1071 for every byte string and every 64-bit initial value |
| Checksum.FourFolds | dep_build/amneziawg-tools/src/tun/checksum.go:88-91 | four folds bring every 64-bit value into 16 bits and give the full fold |
| Checksum.ThreeFoldsAreNotEnough | dep_build/amneziawg-tools/src/tun/checksum.go:88-91 | three do not |
| Checksum.CarryFits | dep_build/amneziawg-tools/src/tun/checksum.go:32 | adding the last carry never overflows |
| Checksum.PseudoHeaderChecksumNoFold | dep_build/amneziawg-tools/src/tun/checksum.go:95-102 | congruent to the sum of addresses, protocol and length |
| Checksum.SumsToOnes | dep_build/amneziawg-tools/src/tun/checksum.go:86-93 | section 2 of RFC 1071 without words or folds: a sum is right exactly if the data, padded with a zero byte to an even length and read as one large number, is a multiple of 0xffff and not all zero |
| Checksum.PseudoHeaderAsBytes | dep_build/amneziawg-tools/src/tun/checksum.go:95-102 | the checksum of a segment is that of the pseudo-header and the segment behind it, as bytes: as section 3.1 of RFC 793 lays it out for IPv4 and section 8.1 of RFC 8200 for IPv6 |
| Checksum.ComplementCompletes | dep_build/amneziawg-tools/src/tun/offload_linux.go:946-947 | storing the complement of a sum makes the whole sum 0xffff |
| Headers.WordSumPut | dep_build/amneziawg-tools/src/tun/offload_linux.go:976-978 | storing a word at an even place changes the sum by the difference of the words |
| Headers.ChecksumValid | dep_build/amneziawg-tools/src/tun/offload_linux.go:388-398 | accepts exactly the packets whose transport checksum, own field included, is right |
| Headers.TransportSumOfBytes | dep_build/amneziawg-tools/src/tun/offload_linux.go:388-398 | what is accepted, said of the bytes on which the checksum is defined: source, destination, protocol, length and segment sum up to ones |
| Chunks.CutJoined | dep_build/amneziawg-tools/src/tun/offload_linux.go:922-981 | the pieces of a payload concatenate to it |
| Chunks.CutLength | dep_build/amneziawg-tools/src/tun/offload_linux.go:922-981 | there are as many as the length divided by the size, rounded up |
| Chunks.CutSizes | dep_build/amneziawg-tools/src/tun/offload_linux.go:922-934 | every piece but the last has full size, and none is empty |
| Chunks.CutAppend | dep_build/amneziawg-tools/src/tun/offload_linux.go:319-327 | a piece that is appended to full ones is the last piece of the result |
| Gso.GsoSplit | dep_build/amneziawg-tools/src/tun/offload_linux.go:901-983 | as many segments as the payload divided by the segment size, rounded up, or the error if there are fewer buffers; every segment has its share of the payload, its number, IPv4 header sum, sequence number, FIN and PSH only on the last, all other header bytes unchanged, and a transport checksum that the test accepts; and its IP length is right (the total length, or what follows the 40 bytes of the fixed IPv6 header) exactly if there are no IPv6 extension headers |
| Gso.FillSegment | dep_build/amneziawg-tools/src/tun/offload_linux.go:935-978 | one segment: headers, payload, and both checksums |
| Gso.FillIpHeader | dep_build/amneziawg-tools/src/tun/offload_linux.go:935-951 | identification and header checksum of one segment, and its length, which is right exactly if there are no IPv6 extension headers |
| Gso.LengthRightExactly | dep_build/amneziawg-tools/src/tun/offload_linux.go:949-951 | the same of every possible segment |
| Gso.FlagsOfSegments | dep_build/amneziawg-tools/src/tun/offload_linux.go:959-968 | FIN and PSH are clear in every segment but the last, which has the flags of the packet; no other flag changes |
| Gso.GsoNoneChecksum | dep_build/amneziawg-tools/src/tun/offload_linux.go:985-993 | the checksum of a packet that is not cut: right for the initial value that the field held, if the field is within reach and at an even distance; no other byte changes |
| Gso.ExtensionHeaderNotCounted | dep_build/amneziawg-tools/src/tun/offload_linux.go:949-951 | a datagram behind a hop-by-hop header whose segment announces 9 of the 17 bytes that follow the fixed header |
| Gso.NoWrap | dep_build/amneziawg-tools/src/tun/offload_linux.go:958 | the offset of a segment does not wrap in 16 bits |
| GroPackets.CandidateShaped | dep_build/amneziawg-tools/src/tun/offload_linux.go:751-775 | the candidate test makes the later header accesses safe |
| GroItems.AppendOk | dep_build/amneziawg-tools/src/tun/offload_linux.go:475-505 | appending a packet that the tests allow: cutting the item at its segment size gives back the old payloads and then the new one, each at its sequence number; the headers stay those of the first packet, and PSH is set exactly if the last packet has it |
| GroItems.PrependOk | dep_build/amneziawg-tools/src/tun/offload_linux.go:450-474 | the same in front of the item, including a first packet that is larger than the only other one; now the headers, and a cleared PSH, are those of the new packet |
| GroItems.AgreeingAlike | dep_build/amneziawg-tools/src/tun/offload_linux.go:279-308 | two packets of a flow that pass the header tests agree in every header byte that the tests compare: ToS or the first half of the traffic class, DF, fragment bytes, TTL or hop limit, protocol, addresses, ports, acknowledgement, and the TCP options |
| GroItems.MergedAlike | dep_build/amneziawg-tools/src/tun/offload_linux.go:279-308 | so all packets of an item agree in those bytes with its first one, whichever of them was compared with what |
| GroFlows.MergedItem | dep_build/amneziawg-tools/src/tun/offload_linux.go:444-506 | whatever the tests and the checksums let through leaves a right item, all of whose packets have right transport checksums and agree in the compared header bytes |
| GroCoalesce.CoalesceTCPPackets | dep_build/amneziawg-tools/src/tun/offload_linux.go:444-506 | exactly when a packet is merged and why it is refused otherwise (room, PSH in front, wrong transport sum of the unmerged item or of the packet), and exactly what becomes of the buffers and the item |
| GroCoalesce.CoalesceUDPPackets | dep_build/amneziawg-tools/src/tun/offload_linux.go:414-438 | the same for UDP |
| GroTables.GroTable.Insert | dep_build/amneziawg-tools/src/tun/offload_linux.go:112-129 | a flow without a list takes one from the pool |
| GroTables.GroTable.Reset | dep_build/amneziawg-tools/src/tun/offload_linux.go:161-167 | all lists go back |
| GroTables.DropItem | dep_build/amneziawg-tools/src/tun/offload_linux.go:608-610 | an item that is dropped was not merged and has a wrong checksum; everything else the tables say still holds |
| GroExact.TcpJoinsExactly | dep_build/amneziawg-tools/src/tun/offload_linux.go:334-384 | in terms of the packets: appended exactly if the packet agrees with the first one in every compared byte, starts where the last one ends, the last one is of full size without PSH, and it is not larger; prepended exactly if it agrees likewise, ends where the first one starts, has no PSH, and is of the same size or larger than an only one |
| GroExact.UdpJoinsExactly | dep_build/amneziawg-tools/src/tun/offload_linux.go:314-329 | appended exactly if the packet agrees likewise, the last one is of full size, and it is not larger |
| GroTrains.WholeAdmitted | dep_build/amneziawg-tools/src/tun/offload_linux.go:751-858 | what makes a packet a candidate that is not turned down, and what is read from it, byte by byte for both IP versions and both protocols |
| GroTrains.TrainMerged | dep_build/amneziawg-tools/src/tun/offload_linux.go:531-621 | any number of packets of one flow with right checksums, of one size, in sequence, PSH in the last at most, and room for all in the first buffer: all of them end up in that buffer, in order, TCP and UDP |
| GroTrains.TrainWritten | dep_build/amneziawg-tools/src/tun/offload_linux.go:865-896 | and it is the only one that is written |
| GroRun.DecidedExactly | dep_build/amneziawg-tools/src/tun/offload_linux.go:591-618 | of the items that would take the packet or find its checksum wrong, the last one decides |
| GroRun.TakerStays | dep_build/amneziawg-tools/src/tun/offload_linux.go:591-618 | items that are deleted on the way do not move the item that takes the packet in the end |
| GroRun.SweepStep | dep_build/amneziawg-tools/src/tun/offload_linux.go:591-618 | trying one item more, from the last one down, and deleting it if it is found wrong, does what the specification of the whole walk says |
| GroFlows.TryFlow | dep_build/amneziawg-tools/src/tun/offload_linux.go:591-618 | the walk over the items of a flow: result, remaining items and dropped items are exactly those of the specification |
| GroFlows.TcpGRO | dep_build/amneziawg-tools/src/tun/offload_linux.go:531-621 | buffers, table, result and the set of dropped items are exactly those of the reference step; every item of the table stays right, a buffer in use is in a table or done with and never both, a virtio header is written early only for the packets that are noted as done, the packet is placed exactly once, and the pool never underflows |
| GroFlows.UdpGRO | dep_build/amneziawg-tools/src/tun/offload_linux.go:786-858 | the same with the last item of the flow deciding alone; and read buffer by buffer the packets of every UDP flow that the parser admits come in the order in which they came in |
| GroFlows.LastOfFlow | dep_build/amneziawg-tools/src/tun/offload_linux.go:832-836 | behind the last item of a UDP flow no buffer holds a packet that was admitted to the flow |
| GroOrder.OrderMerge | dep_build/amneziawg-tools/src/tun/offload_linux.go:832-836 | so a packet that is merged into the last item comes last among the admitted packets of its flow |
| GroLimits.FlowOrderExactly | dep_build/amneziawg-tools/src/tun/offload_linux.go:786-858 | all packets of a UDP flow, those included that the parser turns down, stay in order exactly if no packet is merged into a buffer before one that was turned down and came earlier |
| GroLimits.NoneTurnedDown | dep_build/amneziawg-tools/src/tun/offload_linux.go:797-821 | in particular if the parser turns down none of them |
| GroSamples.OrderIsLost | dep_build/amneziawg-tools/src/tun/offload_linux.go:817-821 | three datagrams of one flow with right checksums, the second one empty: the third is merged into the first and is written before the second |
| GroLimits.DroppedExactly | dep_build/amneziawg-tools/src/tun/offload_linux.go:591-618 | an item is dropped from the table exactly if a later packet of its flow, before any item behind it decides, may be joined to it and would fit, and it is a single packet with a wrong checksum |
| GroLimits.AnnouncedExactly | dep_build/amneziawg-tools/src/tun/offload_linux.go:868-893 | a packet that is written alone gets a virtio header exactly if its item was not dropped; otherwise it keeps the one that was there, and its checksum is wrong |
| GroSamples.HeaderIsLost | dep_build/amneziawg-tools/src/tun/offload_linux.go:606-610 | two packets of one TCP flow, the first with a wrong checksum: it is dropped |
| GroAccounting.ApplyCoalesceAccounting | dep_build/amneziawg-tools/src/tun/offload_linux.go:625-739 | every item is announced as it is and no other buffer is touched, whatever the order in which the map is walked |
| GroAccounting.Account | dep_build/amneziawg-tools/src/tun/offload_linux.go:629-675 | the virtio header, the lengths, the IPv4 header checksum and the pseudo-header checksum fit the merged packet, and all its other bytes are untouched |
| GroAccounting.AccountedBetween | dep_build/amneziawg-tools/src/tun/offload_linux.go:625-739 | after the accounting the tables say the same about the buffers as before |
| Gro.HandleGRO | dep_build/amneziawg-tools/src/tun/offload_linux.go:865-896 | for at most 128 packets: the list to write is strictly increasing and exactly the buffers in use; every packet is in exactly one of them; a buffer holds the unchanged packet that came in it, announced as needing no offload unless it was dropped (then its virtio header stays), or a merged one that gives back its packets when it is split; packets that are left alone are unchanged; with UDP offload the admitted packets of a flow stay in order; contents, tables and dropped packets are those of the reference run; every merged buffer is in a table and has headers to fit; pools are balanced; an empty packet is the only error |
| Gro.LeftUntouched | dep_build/amneziawg-tools/src/tun/offload_linux.go:865-896 | a packet that is no candidate, or that the parser turns down, is in its own buffer, unchanged and announced as needing no offload |
| GroSplits.MergedGivesBack | dep_build/amneziawg-tools/src/tun/offload_linux.go:625-739 | the virtio header names the protocol and IP version of the packet; a merged buffer can be split as that header says, into as many segments as packets were merged, and every possible segment k is packet k in payload, length, sequence number and every header byte outside an explicit list, with a right checksum, and with PSH exactly if packet k has it and did not come before the first packet of the group; the listed bytes are those of the first packet or computed for the segment |
| GroSplits.MergedCompletes | dep_build/amneziawg-tools/src/tun/offload_linux.go:625-739 | completing the checksum that the accounting leaves, as GsoNoneChecksum or a device does, makes the transport checksum of the merged packet right |
| GroSplits.SplitRestores | dep_build/amneziawg-tools/src/tun/offload_linux.go:901-983 | in particular what GsoSplit writes |
| GroSamples.PshIsLost | dep_build/amneziawg-tools/src/tun/offload_linux.go:450-474 | two packets for which PSH is lost: the one with PSH comes first, and the packet before it is put in front |
| Replay.Filter.ValidateCounter | dep_build/amneziawg-tools/src/replay/replay.go:37-62 | true exactly if the counter is below the limit, at most 8128 behind the largest accepted one, and was not accepted since the last reset |
| Replay.Filter.Reset | dep_build/amneziawg-tools/src/replay/replay.go:30-33 | clearing block 0 alone is enough: whatever the other blocks hold, the filter behaves like a new one |
| Replay.Filter.ClearAfter | dep_build/amneziawg-tools/src/replay/replay.go:43-50 | clears the blocks that the window moves over and no block that stays in it |
| ReplayWindow.WindowIsLargest | dep_build/amneziawg-tools/src/replay/replay.go:10-18 | the window is 127 blocks of 64 counters, the largest for which no counter in it has had to give its slot in the ring of 128 blocks to another |
| Replay.NeverTwice | dep_build/amneziawg-tools/src/replay/replay.go:20-27 | no counter is accepted twice in any run |
| Replay.NewCounterRefusedOnlyForAge | dep_build/amneziawg-tools/src/replay/replay.go:37-62 | a counter that was never accepted is refused for its limit or its age only |
| Replay.HighestIsMaximum | dep_build/amneziawg-tools/src/replay/replay.go:41-51 | the mark that the window hangs on is the largest accepted counter |
| Device.IndexTable.NewIndexForHandshake | dep_build/amneziawg-tools/src/device/indextable.go:58-92 | draws until an index is free; the entry is the only change |
| Device.IndexTable.SwapIndexForKeypair | dep_build/amneziawg-tools/src/device/indextable.go:44-56 | turns the entry of a handshake into that of a keypair, and does nothing if there is none |
| Device.Device.CreateMessageInitiation | dep_build/amneziawg-tools/src/device/noise-protocol.go:178-248 | the exact message and record, or the half-written record of a failure; the index table changes by one index given up and one taken; all invariants hold |
| Device.Device.ConsumeMessageInitiation | dep_build/amneziawg-tools/src/device/noise-protocol.go:250-352 | accepts exactly what opens, is newer and is not too early; the log of accepted timestamps stays strictly increasing and more than 20 ms apart |
| Device.Device.CreateMessageResponse | dep_build/amneziawg-tools/src/device/noise-protocol.go:354-420 | the exact message and record; an index is taken even if a shared secret then fails |
| Device.Device.ConsumeMessageResponse | dep_build/amneziawg-tools/src/device/noise-protocol.go:422-517 | finds the record by the receiver index and accepts exactly what authenticates |
| Device.Device.BeginSymmetricSession | dep_build/amneziawg-tools/src/device/noise-protocol.go:522-609 | derives the keypair, puts it under the index of the handshake and rotates the slots; exact table and slots; all invariants hold |
| Device.Device.ReceivedWithKeypair | dep_build/amneziawg-tools/src/device/noise-protocol.go:611-628 | only the keypair waiting in next moves to current |
| Device.Device.ZeroAndFlushAll | dep_build/amneziawg-tools/src/device/peer.go:214-238 | all slots and the handshake are cleared, and exactly their entries leave the table |
| Device.Device.ExpireCurrentKeypairs | dep_build/amneziawg-tools/src/device/peer.go:240-257 | the handshake and its entry go, and the keypairs that could send refuse |
| Device.Device.NewPeer | dep_build/amneziawg-tools/src/device/peer.go:61-114 | a new peer has empty slots and the initial handshake for its key; a closed or full device or a known key is an error and changes nothing |
| Device.Device.RemovePeer | dep_build/amneziawg-tools/src/device/device.go:151-158 | a removed peer is stopped and its key is gone |
| Device.EntriesOfPeer | dep_build/amneziawg-tools/src/device/indextable.go:14-22 | the nonzero indices that lead to a peer are exactly those of its handshake and its three slots, at most four |
| Device.IndicesDistinct | dep_build/amneziawg-tools/src/device/indextable.go:14-22 | two keypairs never share a nonzero index |
| Device.PromoteAgrees | dep_build/amneziawg-tools/src/device/noise-protocol.go:576-606 | swapping in a new keypair and dropping the ones that rotate out leaves no entry behind and removes none that is needed |
| Device.IndexZeroMixesPeers | dep_build/amneziawg-tools/src/device/indextable.go:58-92 | a run from a new device: two peers, one handshake that draws index 0, and in the end the keypair of one peer is under an entry of the other |
| Noise.AcceptanceSpaced | dep_build/amneziawg-tools/src/device/noise-protocol.go:315-344 | one accepted initiation extends the log by a larger timestamp more than 20 ms later, provided only that the two clock readings of the call are in order |
| Noise.AllSpaced | dep_build/amneziawg-tools/src/device/noise-protocol.go:315-344 | hence any two acceptances in a log are ordered and apart |
| Agreement.InitiationUnderstood | dep_build/amneziawg-tools/src/device/noise-protocol.go:250-352 | the intended receiver of an initiation reads the sender's key and refuses for age or frequency only; its transcript is the sender's |
| Agreement.ResponseUnderstood | dep_build/amneziawg-tools/src/device/noise-protocol.go:422-517 | the answer to an initiation is always accepted, and the two records fit |
| Agreement.RunInvariant | dep_build/amneziawg-tools/src/device/noise-protocol.go:178-559 | what every run keeps, over a network that drops, delays, duplicates and invents messages |
| Agreement.Agreement | dep_build/amneziawg-tools/src/device/noise-protocol.go:178-559 | in every run, an end that still waits accepts every response made to its initiation, and then both have equal hash and chaining key, crossed keys and each other's indices |
| Agreement.ExchangeCompletes | dep_build/amneziawg-tools/src/device/noise-protocol.go:178-559 | with nothing lost the exchange goes through |
| Agreement.HonestNeverReplays | dep_build/amneziawg-tools/src/device/noise-protocol.go:315-319 | a peer that stamps its initiations a flood interval apart is turned down for flooding only |
| Authenticity.ResponseExactly | dep_build/amneziawg-tools/src/device/noise-protocol.go:354-517 | with primitives that leave no room for forgery, an initiator accepts the box of a response exactly if it waits, the ephemeral key is the one that was sent, and both ends have the same hash, chaining key, preshared key and products |
| Authenticity.OtherKeyRefused | dep_build/amneziawg-tools/src/device/noise-protocol.go:400-410 | a response made under another preshared key is refused |
| Authenticity.AcceptedAgrees | dep_build/amneziawg-tools/src/device/noise-protocol.go:522-559 | after a response that is accepted both ends have equal hashes and chaining keys, and crossed session keys |
| Authenticity.SenderExactly | dep_build/amneziawg-tools/src/device/noise-protocol.go:250-300 | a receiver can read the identity in an initiation exactly if it was made for its key, and then it reads the key of the sender |
| Authenticity.InitiationExactly | dep_build/amneziawg-tools/src/device/noise-protocol.go:250-344 | an initiation is accepted exactly if it was made for the receiver, with the same products, the static one included, and is newer and not too early |
| Authenticity.AnswersOwnInitiation | dep_build/amneziawg-tools/src/device/noise-protocol.go:178-517 | an initiator that accepts a response knows that whoever made it had accepted exactly the initiation that it sent, every field, and was the end it was meant for |
| Authenticity.DirectionsApart | dep_build/amneziawg-tools/src/device/noise-protocol.go:522-559 | the initiator sends under the first output of HKDF and receives under the second, the responder the other way round, and the two differ |
| Authenticity.IdealSuite | dep_build/amneziawg-tools/src/device/noise-helpers.go:24-62 | primitives as these lemmas assume them exist |
| Tai64n.StampOrder | dep_build/amneziawg-tools/src/tai64n/tai64n.go:22-29 | the byte-wise order of two stamps, for all readings including those whose seconds wrap |
| Tai64n.StampMonotoneExactly | dep_build/amneziawg-tools/src/tai64n/tai64n.go:22-37 | a later reading never gets a smaller stamp, except exactly when the earlier one wraps and the later does not |
| Tai64n.StampStrict | dep_build/amneziawg-tools/src/tai64n/tai64n.go:22-37 | readings at least 2^24 ns apart get increasing stamps |
| Tai64n.StampStrictTight | dep_build/amneziawg-tools/src/tai64n/tai64n.go:22-37 | no smaller distance will do |
| Tai64n.AfterTotal | dep_build/amneziawg-tools/src/tai64n/tai64n.go:35-37 | of two different stamps exactly one is after the other |
| Tai64n.AfterTransitive | dep_build/amneziawg-tools/src/tai64n/tai64n.go:35-37 | byte-wise comparison is transitive |
| Nonces.NeverWrapsExactly | dep_build/amneziawg-tools/src/device/send.go:406-426 | the send counter never wraps under any interleaving of draws, put-backs and expiries exactly if there are at most 2^13 senders |
| Nonces.NeverReusedExactly | dep_build/amneziawg-tools/src/device/send.go:406-426 | no nonce below the limit is given twice exactly if there are at most 2^13 + 1 |
| Nonces.RefusalIsFinal | dep_build/amneziawg-tools/src/device/send.go:419-426 | once a nonce is refused all later ones are, whoever draws them |
| Nonces.RunInvariant | dep_build/amneziawg-tools/src/device/send.go:406-426 | the counter is above the limit by at most one for each sender that has yet to put it back |
| Staging.Assign | dep_build/amneziawg-tools/src/device/send.go:415-435 | in place: the elements with a nonce below the limit move to the front in order, the others are put aside in order |
| Staging.SentIsPrefix | dep_build/amneziawg-tools/src/device/send.go:415-439 | what is sent of a container is a prefix of it under distinct nonces, and the rest is staged again, in order |
| Staging.ChosenConserve | dep_build/amneziawg-tools/src/device/send.go:415-439 | no element is lost or doubled |
| Staging.Queue.StagePackets | dep_build/amneziawg-tools/src/device/send.go:381-398 | never waits, and pushes out the oldest container exactly if the queue is full |
| Batching.CoalesceMessages | dep_build/amneziawg-tools/src/conn/bind_std.go:450-498 | exactly which datagrams make which message, from lengths and capacities alone: each message has at most 64, all of one size but for a shorter last one, within the payload limit and the first buffer, and could not have taken the next one as well; cutting every message at its recorded size gives the datagrams in order, all of them exactly if no empty one is put into an open message, and all but those otherwise; at most 64 to a message, merged messages within the payload limit, buffers within capacity |
| Grouping.JoinsExactly | dep_build/amneziawg-tools/src/conn/bind_std.go:465-480 | the test of the loop asks exactly whether the next datagram can travel with the ones before it |
| Grouping.Fewest | dep_build/amneziawg-tools/src/conn/bind_std.go:450-498 | if every buffer has room for the payload limit, no other division of the datagrams into messages that the limits allow needs fewer |
| Grouping.RoomMatters | dep_build/amneziawg-tools/src/conn/bind_std.go:465-469 | otherwise one may: four datagrams that are sent as three messages where two would do |
| Grouping.EqualOnesTogether | dep_build/amneziawg-tools/src/conn/bind_std.go:450-498 | up to 64 datagrams of one size that fit are one message |
| Batching.SplitCoalescedMessages | dep_build/amneziawg-tools/src/conn/bind_std.go:502-544 | in place: slots 0 to n hold the pieces of the messages in order, for every input including bad control data and overflow |
| Batching.Next | dep_build/amneziawg-tools/src/conn/bind_std.go:518-536 | the cursor of the inner loop never reads what it has written |
| Batching.NeverOverflows | dep_build/amneziawg-tools/src/conn/bind_std.go:243-248 | with 128 slots read from 126 and at most 64 pieces a message there is no overflow |
| Batching.TakenIsCut | dep_build/amneziawg-tools/src/conn/bind_std.go:514-521 | a message is cut as it was put together exactly if the segment size is not larger than the message |
| Batching.SecondEmptyDropped | dep_build/amneziawg-tools/src/conn/bind_std.go:461-482 | an empty datagram behind a first one is not sent exactly if the first one is within the payload limit |
| Batching.RoundTrip | dep_build/amneziawg-tools/src/conn/bind_std.go:502-544 | the pieces of arriving messages are the datagrams that were sent |
| Batching.Delivered | dep_build/amneziawg-tools/src/conn/bind_std.go:226-278 | two messages of the sender that carry no empty datagram, cut by a receiver of 128 slots, give back the datagrams without overflow |
| RateLimiter.Ratelimiter.Allow | dep_build/amneziawg-tools/src/ratelimiter/ratelimiter.go:99-137 | answers like a limiter that never forgets an address |
| RateLimiter.Ratelimiter.Cleanup | dep_build/amneziawg-tools/src/ratelimiter/ratelimiter.go:84-97 | forgets exactly the addresses idle for more than a second, and no later answer can tell |
| RateLimiter.WindowBound | dep_build/amneziawg-tools/src/ratelimiter/ratelimiter.go:99-137 | in any stretch of length T fewer than 5 + T / 50 ms packets of an address get through |
| RateLimiter.RefusedExactly | dep_build/amneziawg-tools/src/ratelimiter/ratelimiter.go:121-136 | a packet is refused exactly if letting it through would break that bound for some stretch that ends with it |
| RateLimiter.NeverMore | dep_build/amneziawg-tools/src/ratelimiter/ratelimiter.go:99-137 | in whole packets: at most as many as the bound allows |
| RateLimiter.BoundIsMet | dep_build/amneziawg-tools/src/ratelimiter/ratelimiter.go:129-133 | for stretches of every length a log that lets that many through; four at one instant, five within a nanosecond |
| Timers.DelSyncExactly | dep_build/amneziawg-tools/src/device/timers.go:62-67 | at the moment DelSync returns no expiration function is running, and an expiration can follow without another Mod exactly if the timer is pending |
| Timers.DelSyncWaits | dep_build/amneziawg-tools/src/device/timers.go:62-67 | when DelSync has returned no expiration function is running, unless there was a Mod since its second Del |
| Timers.NoneStarts | dep_build/amneziawg-tools/src/device/timers.go:62-67 | and none starts before the next Mod, however the run goes on |
| Timers.DelStops | dep_build/amneziawg-tools/src/device/timers.go:55-60 | right after Del, whatever is going on, no expiration can start before the next Mod; nor after the first half of DelSync |
| Timers.ModStarts | dep_build/amneziawg-tools/src/device/timers.go:48-53 | after Mod one can, as soon as nobody holds runningLock |
| Timers.ExpirationsBounded | dep_build/amneziawg-tools/src/device/timers.go:28-46 | there are never more expirations than calls of Mod |
| Timers.OneAtATime | dep_build/amneziawg-tools/src/device/timers.go:28-46 | at most one expiration function runs at a time |
| Timers.ModBeforeReturn | dep_build/amneziawg-tools/src/device/timers.go:62-67 | a run in which the timer is pending when DelSync returns: a Mod between the second Del and the return |
| Timers.RunInvariant | dep_build/amneziawg-tools/src/device/timers.go:28-67 | what every interleaving keeps |
| ObfChain.Obfuscate | dep_build/amneziawg-tools/src/device/obf.go:95-102 | fills exactly the length of the chain with the outputs of the tags, in order |
| ObfChain.Deobfuscate | dep_build/amneziawg-tools/src/device/obf.go:104-122 | accepts exactly what every tag accepts, and then the destination starts with the decoded payload |
| ObfChain.RoundTrip | dep_build/amneziawg-tools/src/device/obf.go:95-140 | for every chain with one data tag the lengths are inverse, and what Obfuscate writes is accepted and gives back the source |
| ObfChain.LengthsInverseExactly | dep_build/amneziawg-tools/src/device/obf.go:124-140 | the length of the source can be told from that of the packet exactly if there is one data tag |
| ObfChain.SizeIsNumber | dep_build/amneziawg-tools/src/device/obf_datasize.go:20-26 | the bytes of the size tag spell the size, most significant byte first, as far as it fits |
| ObfChain.OutputAccepted | dep_build/amneziawg-tools/src/device/obf_bytes.go:33-39 | every tag accepts its own output |
| Base64.RoundTrip | dep_build/amneziawg-tools/src/device/obf_datastring.go:14-21 | decoding inverts encoding for every byte string |
| Base64.LettersInOrder | dep_build/amneziawg-tools/src/device/obf_datastring.go:14-21 | the letters are those of table 1 in RFC 4648, in its order |
| Base64.LengthsInverse | dep_build/amneziawg-tools/src/device/obf_datastring.go:23-29 | the two length functions are inverse |
| Base64.LengthFormulas | dep_build/amneziawg-tools/src/device/obf_datastring.go:23-29 | and equal the closed forms of encoding/base64 |

## Left out

- Locks around whole operations: each handler and each table operation is one step.  In particular
  ConsumeMessageResponse checks the handshake under one lock and updates it under another; the finer interleaving
  is not modelled, and the index invariant is not claimed for it.
- Failing random sources: an index or a key is always drawn in the end.  The messages of a handshake carry no type
  word and no MACs; classification, padding, cookies and MACs are not part of this model.
- Changing the static key or the preshared key of a running device.
- BLAKE2s, ChaCha20-Poly1305 and Curve25519: a record of functions stands for them, and the agreement lemmas assume
  only that the two sides of a Diffie-Hellman exchange agree and that opening inverts sealing.  The lemmas of
  Authenticity assume that hash and HMAC never collide and that a box opens for its own key and data only, which the
  real primitives do up to a negligible chance.
- AllowedIPs: addresses are sequences of bits, so byte order inside a word does not appear; `perPeerElem` is not a
  field, since it is nil exactly when the node has no peer; `parentIndirection` is a parent node, or none for the
  root, with a branch bit; masking the caller's slice in place is not modelled.  `AddPeer` stands for handing a
  peer with an empty list to the table.
- SlowRouter: sorting is insertion at a place that keeps the order.
- Replay.Filter: concurrent use, which the source rules out as well.
- Gso, GroItems: a buffer is the byte string from the packet on, held in an array slot that is rewritten; `outOffset` and
  the bytes before the packet, other than the virtio header as a value, do not appear.  One table type serves TCP
  and UDP.  The number that GsoSplit returns together with the error is not specified.
- Gro.HandleGRO: buffers are assumed to have room for at most 65535 bytes, as the buffers of the device have.
- GroSplits.MergedGivesBack: some header bytes of packets after the first do not come back, since merging does not
  compare them: the TCP window and urgent pointer, the reserved bits next to the TCP header length, the second half
  of the IPv6 traffic class and the flow label, and the IPv4 identification.  The lengths and checksums of IPv4 and
  UDP headers are computed anew.  `GroSplits.Replaced` lists the bytes.
- handleVirtioRead: the header checks before the split are the conditions of `Gso.WellFormed`.
- Batching: control data is the segment size itself; datagrams have disjoint backing arrays, so a buffer is a value.
- Staging: the outer loop of SendStagedPackets over several containers, and the queues behind it.
- Staging.Queue.StagePackets: other goroutines that take from the channel between two steps are not modelled.
- RateLimiter.Ratelimiter.Allow: one step, while the source gives up the lock between looking up an address and
  storing a new entry.  Several first requests of one address at the same time can all find no entry and all pass,
  and the last one stored replaces the others.
- RateLimiter.WindowBound: it is the bound for requests of an address that do not overlap, for the same reason.
- RateLimiter: 64-bit overflow, which takes a gap of 292 years between two requests; the ticker that calls cleanup;
  an entry that is refilled while cleanup drops it.
- Timers: what the expiration functions do, and DelSync called from an expiration function, which waits for itself.
- ObfChain: parsing of the specification; negative lengths; line breaks inside base64 input, and what a decoder
  leaves behind after bad input.  The `dz` and `r` tags are read back as fillers, as the source does.
- Device.Device.RemovePeer: the routing entries of the peer go in the source as well; that step is
  `AllowedIPs.AllowedIPs.RemoveByPeer` here.
- Device.Device.ZeroAndFlushAll: the staged packets are flushed in the source as well.
- Device: sockets, queues, endpoints, keepalives and the configuration protocol.
- The Python application, QML, scripts and packaging: user interface and process plumbing.
