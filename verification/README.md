# The Linux offload engine: GRO, GSO and the internet checksum

This project models the part of the Linux TUN device that coalesces and splits packets, and the checksum that both
directions rest on, and proves what the code is for.

- On **write**, `handleGRO` takes a batch of IP packets, keeps TCP and UDP flows in two tables, merges packets in place
  (appending, or for TCP prepending with a swap of buffers), rewrites the headers of what it merged, and puts a virtio
  header in front of each packet that goes to the file.
- On **read**, `handleVirtioRead` checks a frame and cuts a super-packet into segments, or completes a partial checksum.
- **`checksum.go`** sums 64-bit native-endian words with an end-around carry, in blocks of 128 bytes, and folds four times.
- The **events channel** of the device is shared by two listeners and any number of calls to `Close`.

Every operation that works in place is an imperative method over arrays, tables and loops, and is proved equal to a
function on values; the laws are proved of those functions for all batches, frames and runs. The two layers meet in
`Device.NativeTun.Write`, `Handler.HandleBatch` and `Reader.HandleVirtioRead`.

What those functions compute is stated a second time without them. `Reference` says which packets of a flow belong
together, in terms of their bytes and of nothing that handleGRO keeps, and `GroTheorems.MergedExactly` that handleGRO
merges exactly those. `ReadTheorems` says in terms of a frame's bytes which frames are delivered and as what.

## How the modules fit together

| layer | modules |
|---|---|
| bytes, segments, sums | `Bytes`, `Segments`, `OnesComplement`, `InternetChecksum` |
| packets and frames | `Packets`, `Virtio` |
| read side | `Gso` (values), `GsoTheorems` and `ReadTheorems` (laws), `Slices` and `Reader` (methods over buffers) |
| write side as values | `Gro`, `Accounting`, `Batch` |
| what it is to do, on packets alone | `Headers`, `Reference` |
| its laws | `Admission`, `Coalescing`, `Joining`, `Matching`, `PshFlag`, `TcpScanning`, `BatchSteps`, `Dropping`, `Refinement`, `Lengths`, `GroTheorems`, `UdpOrder` |
| both directions | `RoundTrip` |
| write side as methods | `Buffers`, `GroTables`, `Merger`, `Writer`, `Rewriter`, `AccountingPass`, `Handler`, `Device` |
| where less holds than expected | `Counterexamples` (write side), `Misreads` (read side) |
| device lifecycle | `Events` |

## What the code relies on without checking

These are hypotheses of the theorems, because no line of the source establishes them.

- A batch has at most 128 buffers, the size of the pool of item lists (offload_linux.go:77, offload_linux.go:155-158).
- The buffers of a batch have pairwise distinct backing arrays (`Buffers.Distinct`, `Reader.Disjoint`), and slices start
  where their arrays start, so that the length of the array is the capacity.
- For the laws about merged packets (`Batch.BatchOk`), no buffer has a capacity above 65535 plus twice the offset; the
  capacity tests then bound a merged packet by 65535 bytes, and nothing else does (offload_linux.go:419,
  offload_linux.go:452, offload_linux.go:477). `AccountLengthExact` says why it is needed: the length written for a
  packet is right exactly when the packet is at most 65535 bytes long (65575 over IPv6). `Handler.HandleBatch` and
  `Device.NativeTun.Write` do without it.

## Choices in the model

- The byte order of the machine is a parameter; all checksum and header results hold for both.
- The unrolled groups of additions in `checksumNoFold` are loops over the same words in the same order.
- `tcpGROTable` and `udpGROTable` differ in their key and item types only; one class stands for both, with one key and
  one item datatype that have a TCP and a UDP case. Addresses are kept at their own length instead of padded to 16 bytes.
  `coalesceTCPPackets` and `coalesceUDPPackets` share one method in the same way, as do the two accounting functions.
- `fate` and `origin` are history: what became of each packet, and which packets each buffer carries, in stream order.
- Errors are an enumeration; their texts are not modelled. `toWrite` is returned instead of filled in by the callee.
- What the device writes to its file is returned by `Write` as a list of frames; what the file answers is a parameter.

## Where the code does less than one would expect

- A TCP item that is deleted for its checksum stays in `toWrite`, but accounting no longer sees it: it is written with
  whatever bytes lie in front of it instead of a virtio header. `DroppedWithoutHeader` is such a batch. The exact
  condition is `Dropping.Exposed`: the packet's checksum fails, and a later packet adjoins it (same flow and shape,
  consecutive in sequence space, sizes, PSH flags and capacity allow the merge) while no item behind it in its flow takes
  that packet first. `DroppedByScan`, `DroppedByStep` and `DroppedExactly` prove it for a scan, a step and a batch, and
  `HeaderExactly` that a buffer has the header it is owed if and only if its packet is not exposed or came in behind that
  very header.
- Prepending to an item that ends in PSH leaves the flag out of the header in front. `PrependHidesPsh` is such a batch,
  `PshShown` the exact condition for one merge. For a batch, the flags of a packet come back if and only if it is not the
  last of its item in stream order, or has no PSH, or arrived after all the others (`SegmentComesBack`). The batch also
  shows that the hypotheses of the laws about merging can be met.
- `gsoSplit` writes the IPv6 payload length as the length after `csumStart`: right exactly when `csumStart` is 40
  (`Ipv6LengthExact`). `ExtensionHeaderMiscounted` is a frame with an extension header that is accepted and miscounted.
- `gsoNoneChecksum` leaves a sum of all ones for every even `csumOffset`, and for an odd one exactly when the sum is a
  multiple of 257 (`NoneChecksumVerifies`). `OddOffsetNotCompleted` is a frame that is delivered with another sum.
- `Events` is said to be closed when the device is (tun_linux.go:514-516). Nobody has to read events, and while nobody
  does, it stays open exactly as long as both listeners are blocked by the full channel (`ClosingGoesOn`);
  `ClosingCanBlock` exhibits such a run, and `ClosingEnds` shows that a reader is all that is missing.
- Three folds do not take every 64-bit sum to 16 bits; four do (`ThreeFoldsDoNotSuffice`, `FourFoldsSuffice`).

## Model

| member | source | states |
|---|---|---|
| InternetChecksum.AddWordStep | checksum.go:15-80 | after an addition with carry, a carry of one leaves at most 2^64-2 in the accumulator, so adding the carry at the end of a chain never wraps, and accumulator and carry together still represent the true sum |
| InternetChecksum.AddBlock | checksum.go:15-66 | a chain of additions and the carry added at its end take in exactly the words of the block, for the unrolled and the single-word tails |
| InternetChecksum.ChecksumNoFold | checksum.go:9-84 | for every byte string, odd lengths included, every initial value and either byte order, the 64-bit result is congruent to the big-endian 16-bit word sum modulo 65535, and zero only when that sum is |
| InternetChecksum.FourFoldsSuffice | checksum.go:86-93 | four folds take every 64-bit value to at most 0xFFFF and to its end-around residue |
| InternetChecksum.ThreeFoldsDoNotSuffice | checksum.go:86-93 | a value that three folds leave above 0xFFFF |
| InternetChecksum.Checksum | checksum.go:86-93 | equals the folded big-endian sum of RFC 1071, sections 1 and 2(B): equality, not congruence |
| InternetChecksum.PseudoHeaderChecksumNoFold | checksum.go:95-102 | congruent to the word sum of the pseudo-header's bytes: both addresses, zero, protocol and length for IPv4, both addresses, length, zeros and next header for IPv6; and zero only when that is |
| InternetChecksum.ChainedChecksum | offload_linux.go:396-397 | a checksum started from an unfolded sum continues that sum |
| OnesComplement.FoldAllIsNorm | checksum.go:86-93 | folding until nothing carries computes the residue modulo 65535 that is zero only for zero |
| OnesComplement.WordSumWeights | checksum.go:9-84 | the word sum counts every byte once, with weight 256 at even positions, an odd last one included, and 1 at odd ones |
| OnesComplement.PseudoHeaderSum | checksum.go:95-102 | the sum of the parts of the pseudo-header is the word sum of its bytes in order |
| OnesComplement.ComplementVerifies | checksum.go:86-93 | storing the complement of the sum in a cleared 16-bit field makes the whole sum to all ones |
| Packets.ChecksumValid | offload_linux.go:388-398 | true exactly when pseudo-header, transport header and payload sum to all ones |
| Packets.ReceiverTest | offload_linux.go:388-398 | that test is the receiver's of section 3.1 of RFC 9293 and section 8.1 of RFC 8200: pseudo-header and transport part, byte for byte, fold to 0xFFFF |
| Virtio.DecodeEncode | offload_linux.go:38-52 | decoding an encoded header gives the header, in either byte order and whatever follows it |
| Virtio.Layout | offload_linux.go:29-36 | the ten bytes of the header: flags, type, then four 16-bit fields in the machine's byte order |
| Virtio.ZeroBytes | offload_linux.go:883-887 | the empty header is ten zero bytes |
| Segments.SplitCount | offload_linux.go:1061-1066 | the number of segments is the payload length divided by the segment size, rounded up |
| Segments.ConcatSplit | offload_linux.go:923-968 | cutting a payload and joining the parts gives the payload |
| Segments.SplitAppend | offload_linux.go:350-367 | appending one more segment to a payload whose segments are full appends one part |
| Segments.SplitPrepend | offload_linux.go:368-383 | a full segment put in front becomes the first part |
| Segments.FullParts | offload_linux.go:358-362 | a payload that the segment size divides is as many full segments as it has parts |
| Gso.AcceptedSplit | offload_linux.go:983-1094 | a frame that passes validation has all its headers and segments in range, enough buffers and room in each |
| GsoTheorems.SplitIsPartition | offload_linux.go:923-980 | the segments of an accepted frame are exactly as many as the rounded-up quotient, all but the last are full, and their payloads concatenate to the input payload |
| GsoTheorems.SegmentFields | offload_linux.go:930-968 | segment i has exact length fields, IPv4 identification first + i modulo 2^16, sequence number first + i * gsoSize modulo 2^32, FIN and PSH only on the last, and every other header byte copied |
| GsoTheorems.ClearFinPshBits | offload_linux.go:957-961 | the mask clears FIN and PSH and no other flag |
| GsoTheorems.SegmentVerifies | offload_linux.go:941-975 | the IPv4 header of every segment sums to all ones, its transport part passes the receiver's test, and both checksum fields hold the representative below 0xFFFF |
| GsoTheorems.Ipv6LengthExact | offload_linux.go:946 | the IPv6 payload length is that of section 3 of RFC 8200 if and only if csumStart is 40 |
| GsoTheorems.SwappedComplement | offload_linux.go:1122-1133 | a complement stored with its bytes swapped cancels a sum if and only if 257 divides the sum |
| GsoTheorems.NoneChecksumVerifies | offload_linux.go:1122-1133 | the completed part sums to all ones if and only if csumOffset is even or 257 divides the sum |
| ReadTheorems.DeliveredExactly | tun_linux.go:387-482 | a frame is delivered if and only if it holds a virtio header and, by its type, its packet or its headers and segments fit |
| ReadTheorems.PlainDelivered | tun_linux.go:394-422 | a frame with gsoType NONE is delivered if and only if there is a buffer with room for its packet at the offset and, when a checksum is asked for, the field is inside the packet |
| ReadTheorems.PlainPacket | tun_linux.go:394-422 | what is delivered is the packet itself, or with NEEDS_CSUM the packet with the checksum field, and nothing else, replaced by the complement of the sum of field and rest, which sums to all ones if and only if csumOffset is even or 257 divides that sum |
| ReadTheorems.HeaderParsed | tun_linux.go:440-467 | the header length comes from csumStart and, for TCP, from the packet's data offset |
| ReadTheorems.HdrLenIgnored | tun_linux.go:440-467 | frames that differ only in the kernel's hdrLen have the same outcome |
| ReadTheorems.GsoDelivered | offload_linux.go:983-1094 | a segmentation frame is delivered if and only if version fits type, csumStart is the IP header length, the TCP data offset is at least 5, csumOffset is that of the protocol, a payload follows, gsoSize is positive, the longest segment fits its length field, and there are enough buffers with room |
| ReadTheorems.GsoPackets | offload_linux.go:923-980 | it becomes as many packets as the payload has segments, each with its own window of the payload, headers right for it, and checksums that the receiver accepts |
| ReadTheorems.ShortBufferExactly | tun_linux.go:36-41 | the error for a packet that does not fit is given if and only if everything else is in order, and names the first buffer that is too small |
| Reader.ValidateGsoSplit | offload_linux.go:983-1094 | the counting loop answers what the specification of the checks does, errors and their order included |
| Reader.WriteIp | offload_linux.go:930-947 | writes the IP header of a segment into its place and leaves every byte outside alone |
| Reader.WriteTransport | offload_linux.go:949-965 | writes the transport header of a segment likewise |
| Reader.WriteTransportChecksum | offload_linux.go:970-975 | stores the complement of the pseudo-header, header and payload sum |
| Reader.WriteSegment | offload_linux.go:925-976 | writes exactly one segment, and nothing outside [outOffset, outOffset + totalLen) |
| Reader.WriteSegments | offload_linux.go:923-979 | after the loop the first n buffers and sizes hold the segments, and every other byte and size is as before |
| Reader.GsoSplit | offload_linux.go:901-981 | all the segments, or an error with every buffer and size unchanged |
| Reader.GsoNoneChecksum | offload_linux.go:1122-1133 | completes the checksum in place, or fails without a change, exactly when its position is out of range |
| Reader.ReadPlainFrame | tun_linux.go:394-422 | one packet with its partial checksum completed, or an error and no change; the checksum error after the copy cannot occur |
| Reader.HandleVirtioRead | tun_linux.go:387-482 | for any frame, offset and buffers: the packets that the specification prescribes and no other change, or an error with count 0 and nothing changed; no index is ever out of range |
| Admission.AdmittedExactly | offload_linux.go:531-591 | a packet reaches a flow table if and only if it is a whole, unfragmented IPv4 packet without options or a whole IPv6 packet, at most 65535 bytes, with a TCP segment that has a payload and no flag but ACK and PSH, or a non-empty UDP datagram when UDP offload is on |
| Gro.AdmitFacts | offload_linux.go:531-580 | the sizes that admission records add up to the packet, without 16-bit truncation |
| Gro.StepSafe | offload_linux.go:865-893 | every step keeps tables and buffers consistent: each index is held by one item of one flow, indices increase within a flow, UDP lists are not empty, and later packets are untouched |
| Gro.DropSafe | offload_linux.go:136-140 | deleting an item keeps that consistency and changes no buffer |
| Gro.UdpTarget | offload_linux.go:832-836 | taking the last item of a UDP flow is safe, and its headers fit packet and buffer |
| Coalescing.MemberShape | offload_linux.go:531-591 | what admission says about the header bytes of a packet |
| Coalescing.SameShape | offload_linux.go:279-307 | two packets of a flow pass the comparison of IP headers and TCP options if and only if they agree on version, traffic class, fragment bits, hop limit, protocol, addresses, ports, acknowledgement and options |
| Headers.ShapeInBytes | offload_linux.go:279-307 | two packets have the same shape if and only if their headers are equal byte for byte outside length, identification, checksum, flow label, sequence number, flags, window, urgent pointer and the halves of two bytes that are not compared |
| Headers.MergeableExactly | offload_linux.go:279-307 | two packets of a flow pass the comparison of IP headers and TCP options if and only if their headers agree in that sense |
| Headers.KeysExactly | offload_linux.go:54-110 | two packets that reach the tables are of one flow if and only if version, protocol, both addresses, both ports and for TCP the acknowledgement number are equal byte for byte |
| Coalescing.NewItemInv | offload_linux.go:112-129 | an inserted item starts with the item invariant |
| Joining.AppendFacts | offload_linux.go:351-367 | what an append has established about sequence, sizes and PSH |
| Joining.PrependFacts | offload_linux.go:368-383 | what a prepend has established |
| Joining.NarrowSequenceExact | offload_linux.go:350-353 | whenever the answer is append, seq is sentSeq plus the true payload length modulo 2^32, although lhsLen has 16 bits |
| Joining.JoinLength | offload_linux.go:452-456 | the capacity tests bound the merged packet by 65535 bytes, and the extension stays inside the array |
| Joining.JoinPayloads | offload_linux.go:470-497 | the payload of the merged buffer cut by its gsoSize is the list of the packets' payloads, with the new one last or first |
| Joining.JoinSequence | offload_linux.go:468-503 | sequence numbers stay contiguous from sentSeq modulo 2^32, and PSH stays on the last packet |
| Joining.JoinHeader | offload_linux.go:450-497 | the header in front stays that of the first packet in stream order, but for the PSH flag |
| Joining.JoinStaysChecked | offload_linux.go:460-489 | every packet inside a merged item had a valid checksum when it came in |
| Joining.JoinInv | offload_linux.go:444-506 | appending, equal-size prepending and larger-first prepending all keep the whole item invariant |
| Matching.EndExact | offload_linux.go:350-351 | the 16-bit end of an item is its true end whenever its last segment is full |
| Matching.TcpExactly | offload_linux.go:334-386 | a TCP packet is appended, or prepended, if and only if headers agree, it is adjacent in true sequence space, and sizes and PSH allow it: the narrow arithmetic admits no wrong merge and loses no right one |
| Matching.UdpExactly | offload_linux.go:314-329 | a datagram is appended if and only if headers agree, the last segment is full, and it is no larger |
| PshFlag.PshShown | offload_linux.go:450-497 | the header in front shows the recorded PSH if and only if the packet was appended or the item had no PSH |
| TcpScanning.ScanExact | offload_linux.go:591-620 | the reverse scan, deletions included, leaves the list that looking at every item once on the unchanged buffers prescribes |
| Matching.VerdictExactly | offload_linux.go:599-617 | one turn of the scan passes over an item unless the packet adjoins it and the front buffer has the capacity; else it deletes the item if that is a lone packet with a bad checksum, else rejects the packet if its own checksum fails, else merges |
| Dropping.DroppedByScan | offload_linux.go:591-620 | a scan deletes the item of a packet if and only if its verdict on that item is to delete it and no item behind it stops the scan |
| Dropping.LoneTries | offload_linux.go:334-386 | an item of one packet is tried exactly by the packets that adjoin that packet as they both came in |
| Dropping.DroppedByStep | offload_linux.go:865-893 | a step deletes packet j's item if and only if the step's packet adjoins packet j, j's checksum fails and no item behind it takes the packet |
| Dropping.DroppedExactly | offload_linux.go:865-893 | over a whole batch, a packet is deleted from its table if and only if such a later packet comes |
| Refinement.GroupVerdict | offload_linux.go:599-617 | one turn of the scan gives the verdict that the reference gives on the item's packets |
| Refinement.UdpGroupVerdict | offload_linux.go:832-844 | a datagram is merged into the last item of its flow if and only if headers agree, the item's last datagram is as long as its first, the new one is no longer, both fit the first one's array, and the checksums of the first and the new one verify |
| Refinement.ScanGroups | offload_linux.go:591-620 | the scan, with its deletions, does to the items of a flow what the reference does to its groups |
| Refinement.StepGroups | offload_linux.go:865-893 | after every step each flow carries the groups that the reference gives, in its order |
| Refinement.GroupsBefore | offload_linux.go:865-893 | so it does before every packet of the batch |
| Refinement.FatesByGroups | offload_linux.go:865-893 | a packet is held if and only if it is the earliest of its group, and coalesced into packet j if and only if j is |
| BatchSteps.JoinCause | offload_linux.go:601-607 | a packet is merged only after every check has passed |
| BatchSteps.PlacementMoves | offload_linux.go:450-497 | moving a packet into another buffer keeps every packet in exactly one place |
| BatchSteps.UdpMergeStreams | offload_linux.go:838-843 | a datagram appended to the last item extends its flow's stream at the end |
| BatchSteps.StepInv | offload_linux.go:865-893 | every step of handleGRO keeps the invariant of the batch: positions, items, placement, backing arrays, write list and UDP streams |
| BatchSteps.LoopInv | offload_linux.go:865-893 | the invariant holds when the loop ends, and the loop ends well exactly when offsets fit |
| Lengths.AcceptedLong | offload_linux.go:866-893 | every buffer to write has room for a virtio header in front of a non-empty packet, whatever was merged or swapped |
| Accounting.FinishHeld | offload_linux.go:625-739 | after both passes each item's buffer is its accounted packet |
| GroTheorems.AcceptsExactly | offload_linux.go:866-869 | a batch is accepted if and only if it is empty, or the offset leaves room for the virtio header and every buffer is longer |
| GroTheorems.Conservation | offload_linux.go:865-896 | every packet is carried by exactly one buffer that is written, toWrite is increasing and is exactly the packets not coalesced, the buffers are the batch's own arrays, permuted, and every packet ends up left alone, held by an item of its flow, deleted, or coalesced into one that is held |
| GroTheorems.MergedExactly | offload_linux.go:865-896 | for every batch: each group of the reference ends in the buffer of its earliest packet, in the group's order; a packet is written if and only if no earlier packet is in its group; one that reaches no flow is left alone; one in no group is deleted if exposed and left alone otherwise |
| GroTheorems.SinglePacketsKeepBytes | offload_linux.go:884-892 | a packet that is not merged keeps its bytes from offset on, behind an empty virtio header, or as it came in exactly when it is exposed |
| GroTheorems.HeaderExactly | offload_linux.go:865-896 | a buffer to write has the virtio header it is owed in front of it, its item's if anything was merged and the empty one otherwise, if and only if its packet is not exposed or came in behind an empty header; an exposed packet is corrupt and its buffer is as it came in |
| GroTheorems.NoCorruptPacketMerged | offload_linux.go:414-506 | a packet whose checksum fails is never merged and nothing is merged into it |
| GroTheorems.WriteThenRead | tun_linux.go:387-482 | the frame of every index to write is read back as exactly the packets its buffer carries, given room for them, except where a packet is exposed and the bytes in front of it name a GSO type or a checksum to complete |
| RoundTrip.AccountKeeps | offload_linux.go:625-739 | accounting changes length fields and checksums and no other byte |
| RoundTrip.AccountWrites | offload_linux.go:625-739 | it writes exact lengths, an IPv4 header that sums to all ones, and the pseudo-header sum |
| RoundTrip.AccountLengthExact | offload_linux.go:638-648 | the length field written is that of the packet if and only if the packet is at most 65535 bytes long, 65575 over IPv6 |
| RoundTrip.EmittedFrame | offload_linux.go:649-735 | the frame of a merged item, byte for byte: flags, segmentation type by protocol and version, lengths of headers and segments, position of the checksum, and in that field the folded word sum of the pseudo-header's bytes |
| RoundTrip.PartialChecksumCompletes | offload_linux.go:625-739 | the emitted header asks for completion, and completing the checksum at its csumStart and csumOffset gives a packet that the receiver accepts |
| RoundTrip.PlainRoundTrip | tun_linux.go:394-422 | a packet behind an empty virtio header is read back unchanged |
| RoundTrip.SegmentComesBack | offload_linux.go:901-981 | segment m of an accounted item is the m-th original packet: same length and payload, same bytes in every header position that is compared, same sequence number, a right length field, valid checksums, and its flags, except that the last one in stream order loses PSH unless it arrived after all the others |
| RoundTrip.FlowComesBack | offload_linux.go:901-981 | in particular addresses, ports, acknowledgement number and TCP options come back |
| RoundTrip.ItemRoundTrip | tun_linux.go:423-481 | reading the frame of an item with numMerged > 0 succeeds and returns exactly its numMerged + 1 packets in stream order |
| UdpOrder.UdpOrder | offload_linux.go:832-857 | the items of a UDP flow, cut in list order, are the datagrams admitted to it in order of arrival, and they are written in that order |
| Buffers.Extend | offload_linux.go:434-436 | append and copy within the capacity: the buffer grows by the bytes given, no array is reallocated and no other buffer changes |
| Buffers.Swap | offload_linux.go:475 | the two slice headers change places |
| Merger.MayCoalesce | offload_linux.go:414-433 | the tests and their order, with real checksums |
| Merger.CoalescePackets | offload_linux.go:444-506 | all of a merge, in buffers and item, or no change to either |
| GroTables.ShiftDown | offload_linux.go:136-140 | the in-place shift of deleteAt removes one element |
| GroTables.GroTable.constructor | offload_linux.go:74-83 | a new table has 128 separate lists in its pool |
| GroTables.GroTable.Insert | offload_linux.go:112-129 | the item goes to the end of its flow and nowhere else; flows and pool stay 128 together and share no list, so the pool never underflows |
| GroTables.GroTable.UpdateAt | offload_linux.go:131-134 | replaces one item of one flow |
| GroTables.GroTable.DeleteAt | offload_linux.go:136-140 | removes one item of one flow and keeps its backing list |
| GroTables.GroTable.Reset | offload_linux.go:161-167 | empties the table and fills the pool |
| Writer.TcpAttempt | offload_linux.go:599-603 | one comparison and attempt: the verdict of the specification, and no change unless it succeeds |
| Writer.TcpTurn | offload_linux.go:591-617 | one turn of the loop writes to the item it examined, or deletes that item, and nothing else |
| Writer.ScanFlow | offload_linux.go:591-620 | the loop over the slice read before it, while deleteAt shifts its backing list, ends as the specified scan does |
| Writer.TcpGro | offload_linux.go:531-621 | tcpGRO is the specified step, in buffers, table, write list and result |
| Writer.UdpAttempt | offload_linux.go:836-855 | the attempt with the last item, and the flag for a packet known to be invalid |
| Writer.UdpGro | offload_linux.go:786-858 | udpGRO is the specified step |
| Rewriter.RewriteIp | offload_linux.go:638-648 | rewrites length and checksum of the IP header in place |
| Rewriter.RewriteTransport | offload_linux.go:711-728 | writes the UDP length and the folded pseudo-header sum in place |
| Rewriter.AccountBuffer | offload_linux.go:625-739 | the accounting of one item turns its buffer into the specified bytes |
| AccountingPass.ApplyCoalesceAccounting | offload_linux.go:625-739 | a pass over a table, flows taken in an arbitrary order, accounts for exactly the flows of that table |
| AccountingPass.BothPasses | offload_linux.go:893-895 | after both passes the buffers are those of the specification, whatever the order of iteration |
| Handler.GroTurn | offload_linux.go:866-891 | one turn of handleGRO is the specified step |
| Handler.GroPass | offload_linux.go:866-892 | so is the loop, its error included |
| Handler.HandleBatch | offload_linux.go:865-896 | handleGRO on empty tables computes the specified indices, error and buffers |
| Device.WriteBatch | tun_linux.go:365-382 | hands the buffers to write to the file, from offset on, in order, up to and including the first that finds the descriptor closed; every buffer tried before that is counted as written or has its error collected, and a closed file discards the errors |
| Device.ResultCounts | tun_linux.go:365-382 | the count returned is that of the writes accepted before the first bad descriptor, and without one all errors are returned in order |
| Device.NativeTun.Write | tun_linux.go:343-363 | from empty tables with full pools to empty tables with full pools, with an error or without, handing the specified frames to the file and returning the specified count and errors |
| Events.Reachable | tun_linux.go:73-175 | in every state of every run the invariant holds and nothing has panicked: no send on or close of a closed channel, no unlock of a free mutex |
| Events.ClosedOnceThenSilent | tun_linux.go:137-142 | events is closed at most once in a run, and nothing is sent on it afterwards |
| Events.LockJoinsHackListener | tun_linux.go:137-142 | once the netlink listener has the mutex the hack listener takes no further step |
| Events.ShutdownOnce | tun_linux.go:521-535 | the shutdown channel is closed at most once, however many calls to Close there are |
| Events.HackAlternates | tun_linux.go:78-106 | the hack listener never sends the same event twice in a row |
| Events.HackReportsChanges | tun_linux.go:78-106 | what the hack listener has sent and is about to send is what its probes found, with repetitions left out |
| Events.NetlinkForwards | tun_linux.go:163-173 | the netlink listener sends every event of the messages received before shutdown, in order and once |
| Events.CloseReturns | tun_linux.go:521-535 | no call to Close returns before the listeners have been told to stop, or without listeners events has been closed |
| Events.ClosingGoesOn | tun_linux.go:78-175 | after shutdown and until events is closed, some listener can take a step if and only if they are not both blocked by the full channel, and then one of its steps brings the close nearer |
| Events.ClosingCanBlock | tun_linux.go:167-172 | a run without a reader in which shutdown is closed and both listeners are blocked or gone |
| Events.ClosingEnds | tun_linux.go:137-142 | with a reader, the close is a bounded number of steps away from every state after shutdown |
| Events.ReportsOnce | tun_linux.go:145-160 | at most one error is reported in a run, so the errors channel never blocks the listener |
| Counterexamples.DroppedWithoutHeader | offload_linux.go:608-610 | two packets of which the first is written without a virtio header |
| Counterexamples.PrependHidesPsh | offload_linux.go:450-475 | two packets of which the merged one lacks the PSH flag that the item records |
| Misreads.ExtensionHeaderMiscounted | offload_linux.go:946 | a frame with csumStart 48 that is accepted and becomes a packet of 57 bytes with payload length 9 |
| Misreads.OddOffsetNotCompleted | offload_linux.go:1122-1133 | a frame with an odd csumOffset that is delivered and whose sum is not all ones |

## Left out

- `RoundTrip.SegmentComesBack`: the TCP window and urgent fields, the IPv6 flow label, the IPv4 identification, the low
  four bits of the TCP data-offset byte and the UDP length field of the originals are not claimed to come back, because
  the code does not compare them before merging; the IPv4 identifications that result are stated instead.
- `UdpOrder.UdpOrder`: speaks of datagrams admitted to a table. A datagram that is not admitted is written where it
  arrived, and later datagrams of its flow may be merged into an earlier buffer.
- `Device.NativeTun.Write`: the mutex. Calls are modelled one after another, as the mutex makes them.
- `Events.ClosingEnds`: says that the close is within reach, not that it happens: that rests on the scheduler and on
  system calls returning.
- `GsoTheorems.SegmentVerifies`: there is no substitution of 0xFFFF for a zero UDP checksum in the code, and none is claimed.
- Aliasing inside the items: `updateAt` copies an item back in the source, as it does here.
- `Read`, `validateReadBuffers`, `BatchSize` and device flags: thin wrappers around `handleVirtioRead`.
- Creation of devices, ioctls, sockets, MTU and name calls, and the devices of the other platforms.
- `rateJuggler` of the Windows device: its byte count is approximate under races.
- `rwcancel` and the parsing of netlink messages: cancellation is a system call that may fail at any time, and a message
  is an arbitrary list of events.
- Texts of errors, timers, and the behaviour of the kernel beyond what `Read` does with a frame.
