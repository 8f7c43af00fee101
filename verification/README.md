# Verified model of the IPv8+ protocol cores

The repository is an encrypted overlay network. This project models the protocol cores on which it
rests, in Dafny, and proves what they promise for every input, every run and every interleaving.
`dafny verify dfyconfig.toml` checks the whole project.

Code that works by changing things step by step is modelled by classes and loops that are proved
against specification functions; the properties are then lemmas about those functions. Concurrent
code is modelled as a machine of atomic steps, one for each critical section, message or access
between them.

| component | files | main results |
|---|---|---|
| wire codec | `Header`, `Encode`, `Decode`, `RoundTrip`, `AddressText` | both round trips, each with its exact condition |
| fragmentation and reassembly, after section 4.5 of RFC 8200 | `Fragment`, `SplitProofs`, `GroupProofs`, `Reassembly`, `ReassemblyProofs`, `AnyOrder`, `ReassemblySafety` | any order and interleaving, repetitions included, gives the original bytes back; safety over arbitrary fragments |
| forward error correction | `Fec`, `FecReceive`, `FecProofs`, `FecRun`, `FecCache`, `FecLossy` | exact recovery; delivered and reconstructed frames are the frames sent |
| router compatibility: RFC 1071, section 3.2 of RFC 9293, RFC 4443, section 4 of RFC 1191 | `Checksum`, `IpPacket`, `Mss`, `MssProofs`, `Icmp`, `Compat`, `CompatProofs` | what is forwarded, dropped or answered, and that every checksum verifies |
| NDIS driver | `Driver`, `DriverProofs`, `DriverSafety`, `DriverWaits`, `DriverLists` | nodes, requests and frames are conserved in every interleaving; when a READ misses a frame |
| hook bus | `Hook`, `HookProofs`, `HookSafety` | one decider, one reply, justified verdicts, counters that add up |
| agent name service | `Ans`, `AnsProofs` | no double booking; ranking; the name index |
| neighbour discovery | `Neighbors`, `NeighborRuns` | replay distance; each ACK takes a HELLO of its own; the table file |
| resolver | `JsonList`, `ResolverCache`, `ResolverCacheRuns` | the list text round trip; the cache answers as the store; what the cache keeps |
| path observation | `CongestionControl`, `RoundTripTime` | range and speed of the rate; samples are delays whatever the clocks |

`Bytes`, `Counting` and `Wrappers` hold machine integers, words and exclusive or, counting in lists,
and the result types.

## Where the code and its promises part

Each of these has its exact condition, and some a concrete run or input besides.

- The reassembler takes the success of the encoder for granted (`fragment.rs:325-326`).
  `ReassemblySafety.RebuildSucceeds` says exactly when it succeeds and
  `ReassemblySafety.ReservedFlagReachesEncoder` gives a fragment for which it does not.
- Reassembly restores a packet that is marked as a fragment, has a nonzero byte 39 or carries
  bytes after its payload in a different form: `AnyOrder.RestoredIsOriginal`.
- Splitting a packet that has an empty payload and trailing bytes gives no fragment at all:
  `SplitProofs.SplitSucceeds`.
- The encoder prints packets that the decoder refuses: `RoundTrip.EncodeThenDecode`,
  `RoundTrip.RepeatedTypeIsRefused`.
- A recovery frame that comes before more than one member of its group is cached reconstructs nothing,
  and is not looked at again while its group is remembered: `FecLossy.FirstOutcomeExactly`,
  `FecLossy.OutcomeExactly`.
- Recovery fails for groups with a frame longer than 65535 bytes or with a missing frame that does
  not start like a data frame: `FecProofs.RecoversExactly`.
- The 32-bit checksum accumulator can lose carries on very long buffers:
  `Checksum.OverflowHarmlessWhen`.
- An ICMP error quotes the packet with its hop count already lowered, so not as it arrived unless that
  count was zero: `CompatProofs.AnswerIsValid4`, `CompatProofs.AnswerIsValid6`.
- A READ can wait beside a queued frame that it would accept. `DriverWaits.NeverBesideExactly` says when,
  for every run; `DriverWaits.OrderlyNeverBeside` gives schedules in which it does not happen; and
  `DriverSafety.WaitsBesideFrame` is a run in which it does.
- A READ that waits for any interface is not handed a frame that arrives for a specific one:
  `DriverWaits.MatchedExactly`, `DriverWaits.HandedExactly`. Frames are in order for each interface, not
  across them.
- An event refused by a slow decider is counted as backpressure and again as decided:
  `HookSafety.CountersAddUp`.
- An agent that registers again under a new name stays reachable under the old one, which stays
  taken: `AnsProofs.RenamingLeavesAlias`, `AnsProofs.TakenExactly`.
- A table of neighbours with a repeated key or more than 2^32 - 1 records does not survive its file:
  `NeighborRuns.FileRoundTrip`.
- The list parser reads the escapes for backspace and form feed as the letters `b` and `f`:
  `JsonList.ReadsStandardEscape`. It drops surrogate escapes, so it reads no character beyond 16 bits from
  them: `JsonList.ReadsUnicodeEscape`, `JsonList.DropsSurrogatePair`.
- A sweep counts an entry that is both stored and cached twice:
  `ResolverCache.CachedStore.SweepExpired`.
- A controller whose ceiling is below 256 kbit/s starts below its floor:
  `CongestionControl.RangeExactly`; its loss test gives up beyond 64 bits:
  `CongestionControl.LossTestMeans`; and its products leave 64 bits for ceilings beyond a seventh of
  them: `CongestionControl.NoOverflowExactly`.
- A round-trip sample is too large when the peer holds the report longer than the 32-bit field can
  state: `RoundTripTime.SamplesAreDelays`.

## Model

| member | source | states |
|---|---|---|
| `RoundTrip.EncodeThenDecode` | src/core/ipv8-codec/src/encode.rs:7-84 | printing a header and payload and decoding the bytes is the identity if and only if the chain is valid (distinct canonical types, each payload a multiple of 8 in 8..2040, length field equal to the payload); the printer alone does not check that |
| `RoundTrip.DecodeThenEncode` | src/core/ipv8-codec/src/decode.rs:67-176 | re-printing an accepted packet gives back exactly the consumed bytes if and only if its reserved flags and byte 39 are zero |
| `RoundTrip.DecodeCharacterised` | src/core/ipv8-codec/src/decode.rs:67-176 | the decoder's language: with zero reserved bits and padding a buffer decodes to (header, payload) exactly when it starts with the printed form of that well-formed pair |
| `RoundTrip.PrintedPacketDecodes` | src/core/ipv8-codec/src/decode.rs:67-176 | a printed packet of a valid chain decodes to what was printed, whatever bytes follow it |
| `RoundTrip.DecodedIsValid` | src/core/ipv8-codec/src/decode.rs:67-176 | every decoded header has a valid chain and an honest length field, and the printer refuses it only for reserved flag bits, which the decoder ignores |
| `RoundTrip.RepeatedTypeIsRefused` | src/core/ipv8-codec/src/decode.rs:110-112 | a concrete packet with a repeated extension type that the printer accepts and the decoder refuses |
| `RoundTrip.PrintedChainParses` | src/core/ipv8-codec/src/decode.rs:102-141 | a printed extension chain parses back to itself inside any surrounding bytes |
| `RoundTrip.ParsedChainPrints` | src/core/ipv8-codec/src/decode.rs:102-141 | what the chain parser accepts is a valid chain and prints to the very bytes it was read from |
| `Decode.Decode` | src/core/ipv8-codec/src/decode.rs:67-176 | the decoder with its loop returns exactly the specified result, every error branch in the order of the code |
| `Decode.WalkChain` | src/core/ipv8-codec/src/decode.rs:102-141 | the chain loop (cursor, current type, seen types) returns the chain that the recursive reading gives; it ends because the cursor grows |
| `Encode.EncodeHeader` | src/core/ipv8-codec/src/encode.rs:7-70 | appends exactly the printed header to the vector, or refuses and leaves the vector as it was |
| `Encode.AppendChain` | src/core/ipv8-codec/src/encode.rs:61-67 | appends the chain, each header pointing at the type of its successor |
| `Encode.EncodePacket` | src/core/ipv8-codec/src/encode.rs:73-84 | a fresh packet of header and payload, or the refusal of the header |
| `AddressText.PrintThenParse` | src/core/ipv8-codec/src/header.rs:127-189 | printing an address as 32 digits and parsing it gives it back if it carries the protocol number, and the protocol error otherwise |
| `AddressText.ParseThenPrint` | src/core/ipv8-codec/src/header.rs:127-189 | a text parses exactly when it is 32 hexadecimal digits starting with fb14 in either case, and prints back as its lower-case form |
| `AddressText.CanonicalInjective` | src/core/ipv8-codec/src/header.rs:127-140 | different addresses have different texts |
| `AddressText.ToCanonicalString` | src/core/ipv8-codec/src/header.rs:127-140 | the text builder writes the 32 digits of the wire form |
| `AddressText.ParseCanonical` | src/core/ipv8-codec/src/header.rs:166-183 | the parser with its digit loop: value or the first error in the order of the code |
| `Header.AddressInjective` | src/core/ipv8-codec/src/header.rs:158-163 | the 16-byte wire form identifies the address |
| `AnyOrder.EveryDelivery` | src/core/ipv8-codec/src/fragment.rs:225-329 | up to 64 packets under distinct keys are cut by the splitter and all fragments arrive in any order and interleaving within one timeout: an arrival yields a packet exactly when it is the last of its packet, and then the restored packet; every other arrival is absorbed without error |
| `AnyOrder.EveryArrival` | src/core/ipv8-codec/src/fragment.rs:225-329 | the same traffic with fragments lost and repeated at will: a fragment that arrived since its packet was last complete is refused as overlapping, one that completes the set returns the packet, any other is absorbed |
| `AnyOrder.RestoredIsOriginal` | src/core/ipv8-codec/src/fragment.rs:308-328 | the restored packet equals the original byte for byte if and only if the original was not marked as a fragment, had zero in byte 39 and nothing after its payload |
| `AnyOrder.NothingIsLeft` | src/core/ipv8-codec/src/fragment.rs:225-329 | after such a run the reassembler holds no group |
| `AnyOrder.CutIsSplittable` | src/core/ipv8-codec/src/fragment.rs:83-141 | every fragment is at most the wanted length and is the printed piece at its offset |
| `AnyOrder.RestoredReads` | src/core/ipv8-codec/src/fragment.rs:308-328 | the restored packet decodes to the original header (fragment mark cleared) and payload |
| `SplitProofs.SplitSucceeds` | src/core/ipv8-codec/src/fragment.rs:83-141 | splitting a decoded packet that is too long succeeds exactly when its reserved flags are zero, one more extension fits the chain limit and the first fragment fits a packet; with an empty payload it succeeds with no fragment at all |
| `SplitProofs.PieceLength` | src/core/ipv8-codec/src/fragment.rs:83-141 | no fragment is longer than asked for |
| `SplitProofs.PieceDecodes` | src/core/ipv8-codec/src/fragment.rs:83-141 | every fragment decodes to its own header and its slice of the payload |
| `SplitProofs.PiecesAreAll` | src/core/ipv8-codec/src/fragment.rs:104-140 | the fragments emitted are exactly the pieces at consecutive offsets, none skipped and none twice |
| `Fragment.FragmentPacket` | src/core/ipv8-codec/src/fragment.rs:83-141 | the splitter with its loop returns the specified list or the specified error |
| `Fragment.CutLoop` | src/core/ipv8-codec/src/fragment.rs:104-140 | the loop appends the remaining pieces in order or stops at the first refusal |
| `Fragment.InfoRoundTrip` | src/core/ipv8-codec/src/fragment.rs:37-54 | the fragment header reads back as written exactly for offsets below 8192 units |
| `Reassembly.Reassembler.Insert` | src/core/ipv8-codec/src/fragment.rs:225-329 | inserting a decoded fragment changes the groups and answers exactly as specified, errors included |
| `Reassembly.Reassembler.PlaceAt` | src/core/ipv8-codec/src/fragment.rs:272-302 | storing a chunk (a rejected duplicate still overwrites), then advancing the contiguous payload |
| `Reassembly.Reassembler.AdvanceGroup` | src/core/ipv8-codec/src/fragment.rs:298-302 | the advance loop consumes stored chunks up to the first gap and ends because the chunk map shrinks |
| `Reassembly.Reassembler.RebuildPacket` | src/core/ipv8-codec/src/fragment.rs:308-328 | the completed group as a packet, or the encoder's refusal |
| `Reassembly.Reassembler.Reap` | src/core/ipv8-codec/src/fragment.rs:332-336 | drops exactly the groups whose timeout has passed |
| `ReassemblyProofs.StepKeepsHolds` | src/core/ipv8-codec/src/fragment.rs:225-329 | after any arrival, repeated or not, every group is determined by the set of fragments received since its packet was last complete, not by their order |
| `GroupProofs.PlaceAddsFragment` | src/core/ipv8-codec/src/fragment.rs:272-302 | a missing fragment of a packet is always accepted, and the group then depends only on the set received |
| `GroupProofs.PlaceRepeats` | src/core/ipv8-codec/src/fragment.rs:272-295 | a fragment that the group holds is refused and the group is as before, though its chunk is written again |
| `GroupProofs.AdvanceReachesFrontier` | src/core/ipv8-codec/src/fragment.rs:298-302 | the advance loop moves the contiguous payload to the first missing offset |
| `GroupProofs.FrontierComplete` | src/core/ipv8-codec/src/fragment.rs:298-307 | the contiguous payload is complete exactly when everything has been received |
| `ReassemblySafety.EveryRunIsOk` | src/core/ipv8-codec/src/fragment.rs:225-329 | for every history of arbitrary decoded fragments: at most 64 groups, payload length equal to position, total at most 65467, and every payload byte is the byte that some fragment of that key carried for that offset |
| `ReassemblySafety.OtherGroupsUntouched` | src/core/ipv8-codec/src/fragment.rs:225-329 | an insertion leaves every other key's group as it is unless that group timed out |
| `ReassemblySafety.RefusedChangesNothing` | src/core/ipv8-codec/src/fragment.rs:230-249 | a fragment refused by the first checks changes nothing, not even timed-out groups |
| `ReassemblySafety.RebuildSucceeds` | src/core/ipv8-codec/src/fragment.rs:308-328 | rebuilding a complete group succeeds if and only if its first fragment had zero reserved flags and the original chain still fits beside the payload |
| `ReassemblySafety.ReservedFlagReachesEncoder` | src/core/ipv8-codec/src/fragment.rs:325-326 | a concrete decodable fragment that reaches the rebuild and is refused by the encoder, whose success the code takes for granted |
| `FecLossy.LossyRun` | src/core/ipv8-fec/src/rx.rs:59-191 | for every traffic with distinct counters, cut into groups of k, over a channel that loses, repeats and reorders: what is delivered and reconstructed is only what was sent; and it is exactly what was sent when of each group all members but one at most arrive, those others being cached when the recovery frame first comes, and the unfinished last group arrives |
| `FecRun.OnlySentFrames` | src/core/ipv8-fec/src/rx.rs:86-191 | whatever the channel does, every recovery frame is answered without error and a reconstructed frame is, byte for byte, a sent member of that group |
| `FecRun.EmitsEachGroup` | src/core/ipv8-fec/src/tx.rs:60-87 | the sender emits exactly one recovery frame for each complete group, in order, numbered modulo 2^64 |
| `FecRun.GenuineAnswer` | src/core/ipv8-fec/src/rx.rs:86-191 | the answer to a group's recovery frame over a genuine cache is never an error and never anything but a member of the group |
| `FecProofs.RecoversExactly` | src/core/ipv8-fec/src/rx.rs:86-191 | for every k in 2..16, all frame lengths and every missing position: the receiver returns exactly the missing member if and only if every length fits sixteen bits and the member starts like a data frame; otherwise the error that says which failed |
| `FecProofs.OutcomeByMissing` | src/core/ipv8-fec/src/rx.rs:133-157 | a new recovery frame that misses no member returns nothing and changes only the memory of groups; one that misses several returns nothing and is counted as given up |
| `FecProofs.NoneMissing` | src/core/ipv8-fec/src/rx.rs:138-149 | no member counts as missing exactly when every one is cached |
| `FecProofs.RecoveryTable` | src/core/ipv8-fec/src/tx.rs:90-115 | the table that the receiver reads from a recovery frame is the members' counters, clamped lengths and parity |
| `FecProofs.TableAccepted` | src/core/ipv8-fec/src/rx.rs:111-131 | the receiver accepts that table exactly when every member's length fits sixteen bits |
| `FecCache.StaysRecent` | src/core/ipv8-fec/src/rx.rs:59-82 | from the moment it enters, a frame stays cached exactly as long as fewer frames than the capacity come that are not cached when they come; repetitions of cached frames do not count |
| `FecLossy.OutcomeExactly` | src/core/ipv8-fec/src/rx.rs:86-191 | in any run, the answer to a recovery frame is a frame exactly when its group is not remembered as processed and that frame is the only member not cached at that moment |
| `FecLossy.FirstOutcomeExactly` | src/core/ipv8-fec/src/rx.rs:138-187 | when a recovery frame comes for the first time, be it before members of its group, a frame is reconstructed exactly when one member, no more and no fewer, is not cached at that moment, and it is that member |
| `FecLossy.NothingLostExactly` | src/core/ipv8-fec/src/rx.rs:59-191 | delivered and reconstructed frames are exactly the sent ones if and only if every sent frame arrives or is the only uncached member of its group when a recovery frame of the group comes that is not taken for a repetition |
| `FecReceive.ObserveKeepsValid` | src/core/ipv8-fec/src/rx.rs:59-82 | observing arbitrary bytes keeps cache and eviction order the same duplicate-free set of at most `limit` counters |
| `FecReceive.AcceptKeepsValid` | src/core/ipv8-fec/src/rx.rs:86-191 | accepting arbitrary bytes keeps that invariant and never touches the cache |
| `FecReceive.ReturnedFrameWasMissing` | src/core/ipv8-fec/src/rx.rs:159-187 | whatever the bytes, a returned frame has a counter that was not cached and is a well-formed data frame |
| `FecReceive.OutcomesAreCounted` | src/core/ipv8-fec/src/rx.rs:150-190 | every processed recovery frame is counted in exactly one way |
| `FecReceive.EvictOne` | src/core/ipv8-fec/src/rx.rs:74-80 | one frame too many drops exactly the oldest |
| `FecReceive.FecRx.ObserveData` | src/core/ipv8-fec/src/rx.rs:59-82 | the observing method makes exactly the specified change |
| `FecReceive.FecRx.AcceptRecovery` | src/core/ipv8-fec/src/rx.rs:86-191 | the accepting method answers and changes state exactly as specified, never indexing out of range |
| `FecReceive.FecRx.Reconstruct` | src/core/ipv8-fec/src/rx.rs:163-187 | the loops that mix the cached members out of the parity give the specified remainder and verdict |
| `Fec.FecTx.Push` | src/core/ipv8-fec/src/tx.rs:60-87 | one pushed frame changes the group and emits exactly as specified; a short frame changes nothing |
| `Fec.FecTx.EncodeRecovery` | src/core/ipv8-fec/src/tx.rs:90-115 | the emitted bytes are the recovery frame of the collected group |
| `Fec.ParityStep` | src/core/ipv8-fec/src/tx.rs:68-74 | widening with zeros and mixing in one more frame keeps the accumulator the parity of the group |
| `Fec.XorInto` | src/core/ipv8-fec/src/lib.rs:90-95 | the in-place loop mixes the other frame in as far as both reach and leaves the rest |
| `Bytes.XorGroup` | src/core/ipv8-fec/src/lib.rs:90-95 | bytes under exclusive or form a group in which every element is its own inverse |
| `Checksum.OverflowHarmlessWhen` | src/core/ipv8-compat/src/checksum.rs:9-27 | the 32-bit accumulator gives the true one's-complement sum (RFC 1071) exactly when the carries lost beyond 32 bits are a multiple of 65535 and did not wipe the sum out |
| `Checksum.OnesSumIs` | src/core/ipv8-compat/src/checksum.rs:9-27 | up to 131074 bytes it always does |
| `Checksum.FoldIsOnes` | src/core/ipv8-compat/src/checksum.rs:22-26 | end-around carry computes the one's-complement representative |
| `Checksum.ChecksumVerifies` | src/core/ipv8-compat/src/checksum.rs:9-34 | filling a computed checksum into any even place makes the data sum to all ones |
| `Checksum.OnesComplementSum` | src/core/ipv8-compat/src/checksum.rs:9-27 | the summing loop computes the specified sum, odd last byte included |
| `Checksum.Fold` | src/core/ipv8-compat/src/checksum.rs:22-26 | the folding loop terminates and computes the folded value |
| `IpPacket.HeaderVerifies` | src/core/ipv8-compat/src/checksum.rs:36-49 | an IPv4 header with its checksum filled in sums to all ones |
| `IpPacket.JointVerifies` | src/core/ipv8-compat/src/checksum.rs:52-118 | filling in the checksum makes pseudo-header and segment together sum to all ones |
| `IpPacket.JointIsWhole` | src/core/ipv8-compat/src/checksum.rs:52-118 | the sum over pseudo-header and segment in two parts is the sum of the two put together |
| `IpPacket.LocateL4` | src/core/ipv8-compat/src/ip.rs:159-217 | the walk over the IPv6 extension headers stays in bounds, ends, and finds the specified transport header |
| `IpPacket.WalkReadsBefore` | src/core/ipv8-compat/src/ip.rs:159-217 | the walk depends on nothing at or after the transport header |
| `IpPacket.TcpChecksumV4` | src/core/ipv8-compat/src/checksum.rs:52-82 | the checksum under the IPv4 pseudo-header as specified |
| `IpPacket.TcpChecksumV6` | src/core/ipv8-compat/src/checksum.rs:85-118 | the checksum under the IPv6 pseudo-header as specified |
| `IpPacket.IpHeaderChecksum` | src/core/ipv8-compat/src/checksum.rs:36-49 | clears the checksum field in place and returns what belongs there |
| `MssProofs.ClampMeaning` | src/core/ipv8-compat/src/mss.rs:28-84 | for every byte string: a packet that is not a SYN with an MSS option comes out unchanged; otherwise its MSS reads as the smaller of old and target and every other option stays where it was |
| `MssProofs.RewriteVerifies` | src/core/ipv8-compat/src/mss.rs:87-107 | after a rewrite the TCP checksum verifies under the pseudo-header of its IP version |
| `MssProofs.RecomputedVerifies` | src/core/ipv8-compat/src/mss.rs:87-107 | after recomputation both the IPv4 header checksum and the TCP checksum verify |
| `MssProofs.ClampIdempotent` | src/core/ipv8-compat/src/mss.rs:28-84 | clamping again to the same or a larger target does nothing |
| `MssProofs.FindReads` | src/core/ipv8-compat/src/mss.rs:51-81 | the option scan depends on nothing after the kind and length of the option it finds |
| `Mss.ClampMss` | src/core/ipv8-compat/src/mss.rs:28-84 | the in-place clamp makes exactly the specified change to the packet |
| `Mss.ReadMss` | src/core/ipv8-compat/src/mss.rs:110-144 | the reading scan returns the specified option value |
| `Mss.RecomputeChecksums` | src/core/ipv8-compat/src/mss.rs:87-107 | rewrites exactly the two checksum fields |
| `Compat.DecrementTtl` | src/core/ipv8-compat/src/ttl.rs:9-42 | the in-place decrement: one hop less and the header checksum refreshed, or not alive |
| `CompatProofs.OutcomeDecided` | src/core/ipv8-compat/src/lib.rs:53-120 | forwarded, dropped or answered: exactly when each; multicast and broadcast packets are byte-identical |
| `CompatProofs.ForwardedHeader` | src/core/ipv8-compat/src/lib.rs:53-120 | a forwarded packet has exactly one hop less and still some, fits the MTU where it must, and an IPv4 packet with a valid IHL has a header checksum that verifies |
| `CompatProofs.ForwardedContents` | src/core/ipv8-compat/src/lib.rs:53-120 | a forwarded packet differs from the original only in hop count, checksums and MSS value; the MSS of a SYN reads as the smaller of old and target; a rewritten TCP checksum verifies |
| `CompatProofs.AnswerIsValid4` | src/core/ipv8-compat/src/lib.rs:53-120 | an answer to an IPv4 packet is a valid ICMP error from our address to its sender, of the right kind, at most 96 bytes, quoting the decremented packet, which is the packet as it arrived exactly when its hop count was zero (or the header length malformed) |
| `CompatProofs.AnswerIsValid6` | src/core/ipv8-compat/src/lib.rs:53-120 | the same for IPv6, whose checksum covers the pseudo-header; the quote is that of the packet as it arrived exactly when its hop count was zero |
| `Compat.ProcessOutbound` | src/core/ipv8-compat/src/lib.rs:53-120 | the method on the packet buffer returns the specified outcome and leaves the specified bytes |
| `Compat.ProcessInbound` | src/core/ipv8-compat/src/lib.rs:126-136 | inbound packets are clamped and nothing else |
| `Icmp.Error4IsValid` | src/core/ipv8-compat/src/icmp.rs:29-107 | an ICMP error for IPv4: both checksums verify, from our address to the offender, length field honest, quoting the beginning of the packet |
| `Icmp.Error6IsValid` | src/core/ipv8-compat/src/icmp.rs:110-177 | an ICMPv6 error: checksum verifies under its own pseudo-header, from our address to the offender, quoting the beginning of the packet |
| `Icmp.GenerateTimeExceededV4` | src/core/ipv8-compat/src/icmp.rs:29-67 | the generator that fills buffers step by step builds exactly the specified error packet |
| `Icmp.GenerateFragNeededV4` | src/core/ipv8-compat/src/icmp.rs:70-107 | the same, with the next-hop MTU |
| `Icmp.GenerateTimeExceededV6` | src/core/ipv8-compat/src/icmp.rs:110-140 | the same for IPv6 |
| `Icmp.GeneratePacketTooBigV6` | src/core/ipv8-compat/src/icmp.rs:143-177 | the same for IPv6, with the MTU |
| `DriverSafety.EveryRunIsSound` | src/driver/ipv8proto/driver.c:616-1042 | whatever the threads do and however their critical sections interleave, from any sound state: nodes partitioned, requests accounted for, frames in order |
| `DriverSafety.ReachableIsSound` | src/driver/ipv8proto/driver.c:82-91 | every reachable state satisfies that invariant |
| `DriverProofs.StepBalances` | src/driver/ipv8proto/driver.c:616-1042 | no atomic step makes or loses a receive node, a send node, a request or a frame |
| `DriverSafety.CompletedOnce` | src/driver/ipv8proto/driver-ctl.c:413-530 | no request is completed twice, and a completed one was issued and is neither waiting, nor in flight, nor held by a thread |
| `DriverSafety.ReadsAreGenuine` | src/driver/ipv8proto/driver-ctl.c:442-476 | a READ never returns a frame that did not arrive, nor one frame twice |
| `DriverSafety.NothingIsLost` | src/driver/ipv8proto/driver.c:646-746 | with every thread idle each arrived frame was handed to a waiting READ, dropped, read, or is still queued; each of the 128 and 32 nodes is free or in use, exactly once |
| `DriverSafety.TakesOldest` | src/driver/ipv8proto/driver.c:163-184 | dequeuing takes the oldest queued frame of its interface, so the frames of one interface leave in the order they came |
| `DriverSafety.HeldOnce` | src/driver/ipv8proto/driver.c:646-746 | two threads never hold the same node |
| `DriverSafety.WaitsBesideFrame` | src/driver/ipv8proto/driver-ctl.c:442-476 | a concrete run of two threads that ends with a READ waiting beside a queued frame that it would accept |
| `DriverWaits.BesideExactly` | src/driver/ipv8proto/driver-ctl.c:442-476 | from a state in which no READ waits beside a queued frame that it accepts, a step leads to one exactly when it parks a READ whose frame is already queued or queues a frame whose READ already waits; no other step does |
| `DriverWaits.NeverBesideExactly` | src/driver/ipv8proto/driver-ctl.c:442-476 | through a whole run of any threads from the start, no READ ever waits beside a frame that it accepts if and only if no step of the run does one of those two things |
| `DriverWaits.OrderlyNeverBeside` | src/driver/ipv8proto/driver-ctl.c:442-476 | it never happens in a run without READs for any interface in which no frame is queued between the two sections of a READ that accepts it and no READ parks between the two sections of a frame that it accepts |
| `DriverWaits.ParkBeside` | src/driver/ipv8proto/driver-ctl.c:471-476 | after a READ parks there is such a pair exactly when the queue holds a frame that this READ accepts |
| `DriverWaits.EnqueueBeside` | src/driver/ipv8proto/driver.c:733-738 | after a frame is queued there is such a pair exactly when some waiting READ accepts it |
| `DriverWaits.HandedExactly` | src/driver/ipv8proto/driver-ctl.c:81-90 | an arriving frame is handed over exactly when a READ waits for its very interface or the frame is for any, and it goes to the first such READ |
| `DriverWaits.MatchedExactly` | src/driver/ipv8proto/driver-ctl.c:81-90 | a waiting READ that accepts an arriving frame is one the frame looks for exactly when it waits for the very interface or the frame is for any; otherwise it goes on waiting |
| `DriverLists.Globals.FrameDequeueLocked` | src/driver/ipv8proto/driver.c:163-184 | the list walk unlinks the first node whose frame the READ accepts and leaves the rest in order |
| `DriverLists.Globals.CsqPeekNextIrp` | src/driver/ipv8proto/driver-ctl.c:50-104 | the list walk returns the first later waiter that matches |
| `DriverLists.Globals.CsqRemoveNextIrp` | src/driver/ipv8proto/driver-ctl.c:40-104 | peek and unlink together; the waiter returned is no longer in the list |
| `DriverLists.Globals.TakeAll` | src/driver/ipv8proto/driver-ctl.c:247-263 | the cleanup loop takes exactly the matching waiters, in their order, and leaves the others as they were |
| `HookSafety.AtMostOneDecider` | src/core/ipv8-hook/src/lib.rs:527-560 | in every reachable state at most one client is in decision mode, and the flag that evaluating threads read says whether there is one |
| `HookSafety.RepliedOnce` | src/core/ipv8-hook/src/lib.rs:562-660 | a reply once given never changes; it is the default or the ruling, for that event number, of the client who was decider when it came |
| `HookSafety.VerdictsAreJustified` | src/core/ipv8-hook/src/lib.rs:285-396 | every verdict returned is a cached ruling of a decider for the same flow, the reply to the event asked for this packet's flow, or the default |
| `HookSafety.CountersAddUp` | src/core/ipv8-hook/src/lib.rs:379-396 | with no evaluation open, accepted + dropped = seen, and cached + decided + fallbacks = seen + slow-decider events (each of which is counted twice) |
| `HookSafety.EveryRunIsSound` | src/core/ipv8-hook/src/lib.rs:285-660 | every interleaving of evaluations, hellos, verdicts and disconnects keeps the invariant from which these follow |
| `HookProofs.OnlyDeciderRules` | src/core/ipv8-hook/src/lib.rs:609-631 | only the decider rules, and only on an event it was given |
| `HookProofs.NewReply` | src/core/ipv8-hook/src/lib.rs:562-660 | where every new reply comes from |
| `HookProofs.NewEntry` | src/core/ipv8-hook/src/lib.rs:609-631 | where every new cached verdict comes from |
| `Hook.Dispatcher.HandleMessage` | src/core/ipv8-hook/src/lib.rs:525-660 | the body of the dispatch loop makes exactly the specified change for every kind of message |
| `Hook.Dispatcher.Prune` | src/core/ipv8-hook/src/lib.rs:563-567 | drops exactly the overdue events when there are too many |
| `Hook.Dispatcher.Drain` | src/core/ipv8-hook/src/lib.rs:647-656 | every waiting event gets the default, in any order |
| `AnsProofs.NoDoubleBooking` | src/cloud/ans/src/lib.rs:449-507 | over every history with non-decreasing time two plans never hold overlapping leases on one agent unless in between the first reported done or the agent's record had expired and was removed |
| `AnsProofs.RemovedWasExpired` | src/cloud/ans/src/lib.rs:373-507 | an agent that is gone after any operation had expired at that time |
| `AnsProofs.PlanTakesBest` | src/cloud/ans/src/lib.rs:449-470 | a plan assigns exactly the wanted number of distinct eligible agents, and no eligible agent left out ranks before one taken; a refused plan changes nothing |
| `AnsProofs.PlanLeases` | src/cloud/ans/src/lib.rs:449-470 | a plan leases exactly the agents it assigns, none of them leased or expired, and changes no other record |
| `AnsProofs.PlanIdsGrow` | src/cloud/ans/src/lib.rs:449-470 | plan numbers only grow, so no two plans of a history share one |
| `AnsProofs.SearchRanks` | src/cloud/ans/src/lib.rs:422-446 | a search returns exactly the eligible agents, ranked |
| `AnsProofs.SearchIgnoresOrder` | src/cloud/ans/src/lib.rs:422-446 | and the same list whatever order the store enumerates its addresses in |
| `AnsProofs.RankingUnique` | src/cloud/ans/src/lib.rs:439-444 | there is only one ranking of a set of agents |
| `AnsProofs.EveryHistoryIsIndexed` | src/cloud/ans/src/lib.rs:274-299 | over every history the name index leads back to every registered agent |
| `AnsProofs.NamesAreUnique` | src/cloud/ans/src/lib.rs:373-400 | registered agents have pairwise different names, each found under its own |
| `AnsProofs.ResolvesToNamesake` | src/cloud/ans/src/lib.rs:404-420 | a name resolves to the live agent of that name exactly if it is no stale alias |
| `AnsProofs.TakenExactly` | src/cloud/ans/src/lib.rs:373-386 | a name counts as taken exactly if another live agent has it or it is the stale alias of one |
| `AnsProofs.RenamingLeavesAlias` | src/cloud/ans/src/lib.rs:275-278 | registering an address again under a new name leaves the old name leading to it |
| `AnsProofs.LeaseHolds` | src/cloud/ans/src/lib.rs:473-507 | a lease that has not run out survives everything but its own plan's report and the record's removal |
| `Ans.AnsService.RegisterAgent` | src/cloud/ans/src/lib.rs:342-401 | registration accepts, refuses and updates exactly as specified |
| `Ans.AnsService.SearchCapability` | src/cloud/ans/src/lib.rs:422-446 | the collecting and ranking loop returns the specified list |
| `Ans.AnsService.PlanTasks` | src/cloud/ans/src/lib.rs:449-470 | the planning loop returns the plan and grants the leases as specified |
| `Ans.AnsService.ReportDoneBy` | src/cloud/ans/src/lib.rs:473-483 | frees exactly the lease of that plan on that agent, or refuses |
| `Ans.AnsService.ReapAll` | src/cloud/ans/src/lib.rs:486-507 | clears past leases and removes expired agents, returning both counts |
| `Ans.AnsService.StoreRemove` | src/cloud/ans/src/lib.rs:288-295 | removes a record and its index entry, and no other |
| `NeighborRuns.ReplayDistance` | src/core/ipv8-neigh/src/lib.rs:606-640 | two acceptances of one nonce from one key, as HELLO or ACK, have at least 64 acceptances of other messages from that key between them |
| `NeighborRuns.AcceptedExactly` | src/core/ipv8-neigh/src/lib.rs:606-640 | a frame is accepted exactly when it decodes to the wanted type, its signature and time hold, and its nonce is not among the last 64 accepted from its key |
| `NeighborRuns.RingIsRecent` | src/core/ipv8-neigh/src/lib.rs:628-638 | in every run the ring of a key holds exactly its 64 most recently accepted nonces, oldest first |
| `NeighborRuns.AcksTakeDistinctHellos` | src/core/ipv8-neigh/src/lib.rs:569-581 | in every run the HELLOs taken by successful ACKs together with those still waiting are among the HELLOs sent, counting repetitions; at most 1024 wait |
| `NeighborRuns.AckNeedsHello` | src/core/ipv8-neigh/src/lib.rs:679-701 | a successful ACK answers an earlier HELLO of ours with its nonce, sent at most 30 seconds before |
| `NeighborRuns.NewKeysAreAdmitted` | src/core/ipv8-neigh/src/lib.rs:647-701 | keys stay unique, and a key in the table that was not there at the start was admitted by a consent or by a successful ACK that carried it |
| `NeighborRuns.KeptMembers` | src/core/ipv8-neigh/src/lib.rs:389-417 | removal keeps the records that are not selected, and only those |
| `NeighborRuns.FileRoundTrip` | src/core/ipv8-neigh/src/lib.rs:420-475 | reading back a written file gives the same table in the same order exactly when no key repeats and the count fits 32 bits |
| `NeighborRuns.EnteredIsUnique` | src/core/ipv8-neigh/src/lib.rs:461-474 | whatever the file, the table read from it has unique keys |
| `Neighbors.EncodeThenDecode` | src/core/ipv8-neigh/src/lib.rs:179-241 | decoding inverts encoding exactly for type HELLO or ACK, no flags, and a time stamp that is not negative |
| `Neighbors.DecodeThenEncode` | src/core/ipv8-neigh/src/lib.rs:201-241 | an accepted frame is the encoding of what was decoded: two frames never decode to one message |
| `Neighbors.NeighborProcessor.ProcessHello` | src/core/ipv8-neigh/src/lib.rs:647-664 | the HELLO handler decides and changes state exactly as specified |
| `Neighbors.NeighborProcessor.ProcessAck` | src/core/ipv8-neigh/src/lib.rs:679-701 | the ACK handler, which notes the nonce even when no HELLO waits for it |
| `Neighbors.NeighborProcessor.VerifyFrame` | src/core/ipv8-neigh/src/lib.rs:606-640 | the shared checks in the order of the code; a refused frame changes nothing |
| `Neighbors.NeighborProcessor.RecordHelloSent` | src/core/ipv8-neigh/src/lib.rs:569-575 | drops the HELLOs older than 30 seconds, then the oldest at the cap, then notes the new one |
| `Neighbors.NeighborStore.Authorize` | src/core/ipv8-neigh/src/lib.rs:366-386 | replaces the record of a known key in its place or appends a new one |
| `Neighbors.NeighborStore.Remove` | src/core/ipv8-neigh/src/lib.rs:389-417 | the four removals as one filter that keeps the order |
| `Neighbors.NeighborStore.EncodeVec` | src/core/ipv8-neigh/src/lib.rs:420-438 | the loop writes the specified file |
| `Neighbors.NeighborStore.DecodeSlice` | src/core/ipv8-neigh/src/lib.rs:441-475 | the reader returns the specified table or the first error in the order of the code |
| `JsonList.PrintThenParse` | src/cloud/resolver/src/sqlite_store.rs:102-189 | parsing what was printed gives back every list of strings: the empty list, empty strings, quotes, backslashes and control characters included |
| `JsonList.EncodedInjective` | src/cloud/resolver/src/sqlite_store.rs:102-128 | different lists have different texts |
| `JsonList.EncodedPrintable` | src/cloud/resolver/src/sqlite_store.rs:111-122 | no raw control character is ever printed, as section 7 of RFC 8259 demands |
| `JsonList.ReadsStandardEscape` | src/cloud/resolver/src/sqlite_store.rs:150-172 | a standard one-letter escape is read as section 7 of RFC 8259 says exactly when it is neither \b nor \f, which this parser reads as the bare letters |
| `JsonList.ReadsUnicodeEscape` | src/cloud/resolver/src/sqlite_store.rs:158-169 | a unicode escape of four hexadecimal digits, wherever it stands in a string, is read as the character of section 7 of RFC 8259 exactly when it is no surrogate, and as nothing when it is |
| `JsonList.DropsSurrogatePair` | src/cloud/resolver/src/sqlite_store.rs:158-169 | a pair of surrogate escapes reads as nothing, while the character it denotes is printed and read as itself |
| `JsonList.ParsesHexExactly` | src/cloud/resolver/src/sqlite_store.rs:160-162 | four characters are read as a number exactly when they are hexadecimal digits, or three of them after a plus sign, which the standard does not allow |
| `JsonList.EncodeJsonStrings` | src/cloud/resolver/src/sqlite_store.rs:102-128 | the printing loops produce the specified text |
| `JsonList.DecodeJsonStrings` | src/cloud/resolver/src/sqlite_store.rs:130-189 | the scanning loop returns the specified list for every text, malformed ones included |
| `ResolverCacheRuns.AnswersAsStore` | src/cloud/resolver/src/cached_store.rs:119-157 | in every run of overlapping lookups, inserts and sweeps, whatever the times and the evictions, a lookup is answered as the plain store under the same writes would answer it at that moment |
| `ResolverCacheRuns.EveryRunIsSound` | src/cloud/resolver/src/cached_store.rs:119-193 | cached entries and remembered misses (expired ones too) agree with the store, the list keeps to its capacity, and the store is what the same writes make of a plain store |
| `ResolverCacheRuns.KeepsMostRecent` | src/cloud/resolver/src/cached_store.rs:119-193 | the list is in order of last use, and a stored address that was used but is not listed was last used before everything listed |
| `ResolverCacheRuns.HitWhileRecent` | src/cloud/resolver/src/cached_store.rs:119-142 | a stored address is a cache hit as long as fewer than the capacity of other addresses were used since its last use |
| `ResolverCache.CachedStore.BeginGet` | src/cloud/resolver/src/cached_store.rs:120-142 | the first critical section of a lookup |
| `ResolverCache.CachedStore.FinishGet` | src/cloud/resolver/src/cached_store.rs:143-157 | the query of the store and the second critical section |
| `ResolverCache.CachedStore.Insert` | src/cloud/resolver/src/cached_store.rs:160-170 | writes through to the store, the list and the remembered misses |
| `ResolverCache.CachedStore.SweepExpired` | src/cloud/resolver/src/cached_store.rs:172-193 | drops exactly the expired entries of both, and the past misses; its count has an entry that is stored and cached twice |
| `ResolverCache.DropExpired` | src/cloud/resolver/src/cached_store.rs:177-188 | popping every expired key one by one leaves exactly the unexpired slots |
| `ResolverCache.MemStore.SweepExpired` | src/cloud/resolver/src/lib.rs:217-221 | the plain store keeps exactly the unexpired entries and returns how many went |
| `CongestionControl.RangeExactly` | src/core/ipv8-observe/src/cc.rs:29-41 | the rate of a default controller stays between floor and ceiling in every run exactly when the ceiling is at least 256 kbit/s |
| `CongestionControl.EightBadReachFloor` | src/core/ipv8-observe/src/cc.rs:112-114 | eight bad evaluations in a row bring any rate up to the ceiling down to the floor |
| `CongestionControl.EightGoodReachCeiling` | src/core/ipv8-observe/src/cc.rs:115-118 | eight good evaluations in a row bring any rate in range up to the ceiling |
| `CongestionControl.SevenAreNotEnough` | src/core/ipv8-observe/src/cc.rs:112-118 | seven are not enough in either direction |
| `CongestionControl.RunOfOneKind` | src/core/ipv8-observe/src/cc.rs:76-119 | in a run whose evaluations all go one way, with any reports that only accumulate between them, the rate moves once for each evaluation and never else |
| `CongestionControl.EightEvaluationsDecide` | src/core/ipv8-observe/src/cc.rs:76-119 | a run with at least eight evaluations, all bad or all good, ends at the floor or at the ceiling, from any state in range and however the counts were reported |
| `CongestionControl.SplitDoesNotMatter` | src/core/ipv8-observe/src/cc.rs:76-88 | two ways of splitting reports between evaluations with the same summed counts and lowest round trip lead to the same state |
| `CongestionControl.ReportsMerge` | src/core/ipv8-observe/src/cc.rs:76-88 | reports that lead to no evaluation before the last act as one report with their sums and lowest round trip |
| `CongestionControl.LossTestMeans` | src/core/ipv8-observe/src/cc.rs:110-112 | the loss test is the comparison it stands for exactly while the threshold times the expected count fits 64 bits; beyond that it misses any loss |
| `CongestionControl.NoOverflowExactly` | src/core/ipv8-observe/src/cc.rs:112-118 | in every run of a default controller all products and sums of rates fit 64 bits exactly when seven times the ceiling does |
| `CongestionControl.CongestionController.Update` | src/core/ipv8-observe/src/cc.rs:76-119 | the method makes exactly the specified change |
| `RoundTripTime.SamplesAreDelays` | src/core/ipv8-observe/src/rtt.rs:22-41 | in every run over a channel that loses, repeats and reorders, with any clock offsets, every delivered echo gives a sample, and it is the forward plus the return delay of the copies involved exactly when the holding time fits the 32-bit field |
| `RoundTripTime.SampleIs` | src/core/ipv8-observe/src/rtt.rs:22-41 | when it does not fit, the sample is too large by the excess |
| `RoundTripTime.OtherStepsKeepSamples` | src/core/ipv8-observe/src/rtt.rs:22-32 | sending, and reports that echo nothing, leave the sample alone |
| `RoundTripTime.EveryRunIsSound` | src/core/ipv8-observe/src/rtt.rs:22-41 | in every run each node holds the echo material of the last report it heard and every report sent is truthful |
| `RoundTripTime.RttTracker.OnPeerReport` | src/core/ipv8-observe/src/rtt.rs:22-32 | the method makes exactly the specified change |
| `RoundTripTime.RttTracker.Echo` | src/core/ipv8-observe/src/rtt.rs:35-41 | the echoed send time and holding time, capped and with the mark for none |

## Left out

- Cryptography: signatures, certificates and proofs of possession are opaque predicates or parameters; sealing of frames is not modelled, so the sealed frame is an input of the error-correction model.
- Time: every clock reading is a parameter in whole seconds, milliseconds or microseconds as the component uses it; conversions of clock types, and the overflow of adding a lifetime to a time, are not modelled.
- Files, sockets, databases and the foreign-function layers; of the resolver's database only the list text, of the neighbour table only its bytes.
- Tunnel engine, routing, Chord, portal and tools.
- Address display forms with separators, pseudo-random session numbers and version negotiation: easy members.
- Fragments that arrive after a timeout are covered by the safety results over arbitrary histories, not by the any-order results.
- Driver: binding and unbinding of adapters, requests for statistics and versions (they complete at once), the hardware address and padding that a sent frame gets, and the size of output buffers, whose failures are nondeterministic steps.
- Hook: text of the messages, delays and tags beyond being carried along, observers' copies of events, and the statistics request.
- Agent name service: the wire form and hash of agent cards; a registration that is refused for a key conflict may already have removed an expired record, as in the code.
- Neighbour discovery: classification of frames, the key pair and building of signed messages, and the transports.
- Resolver cache: the hit and miss counters.
- Resolver service: registration, rendezvous and their messages.
- Unbounded counters: statistics are unbounded numbers; identifiers that wrap are modelled modulo their width.
- Unreachable defensive branches of the error-correction receiver (`rx.rs`) that its earlier checks exclude.
- Path observation: report windows, breaker, gates and floating-point pacing.
- CongestionControl.CongestionController.Update: requires divisors that are not zero and a rate whose product and sum fit 64 bits, as the arithmetic of the code does; with default settings that always holds exactly up to a seventh of the range.
