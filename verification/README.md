# Verified model of the vnt core

vnt connects clients of a virtual network directly where it can and through servers
where it must. This project models the stateful parts of `vnt-core` in Dafny and
proves what they promise. `dafny verify dfyconfig.toml` checks all of it.

Four components, and the packet code that joins them:

- **Forward error correction.** The encoder numbers packets into batches per
  destination, flushes a batch when it is full or late, and sends Reed-Solomon
  parity for it (`FecEncoder`, `FecNumbering`, `FecTiming`). The decoder takes
  shards in any order, delivers originals at once, rebuilds missing ones and evicts
  old groups (`FecDecoder`, `FecDelivery`, `FecRecovery`); `FecSession` joins both
  ends. The code itself is a parameter: every result holds for each column-wise code
  in which any k positions determine the codeword (`ErasureCode`), and `FecWitness`
  builds one over bytes for every batch size in use. The flags column is treated in
  `FecFlags` and, for linear codes, in `FecLinear`; `FecLog` carries both to what a
  run delivers.
- **Route table.** Three maps under three locks: as a class whose operations refine
  one timestamped relation (`RouteList`, `RouteTable`, `RouteRuns`) and hold exactly
  the routes and claims recorded (`RouteMemory`), and as lock-level steps of any
  number of threads (`RouteLocks`).
- **Server view and broadcasts.** The merged client list summarises the per-server
  maps (`ServerInfo`), also under its two locks (`ServerLocks`); a broadcast is
  split between direct sends and the servers (`Broadcast`).
- **Packet path.** The offset buffer (`Transmission`), the header (`NetPacket`),
  compression and encryption in place (`PacketStages`), sending, relaying and
  receiving (`PacketPath`). Of LZ4 and of ChaCha20-Poly1305 (section 2.8 of RFC
  8439) only the inverse laws are assumed, as named hypotheses.

Three companions: two-phase registration with several servers (`Registration`),
longest-prefix subnet routing (`SubnetRoute`), and the port-mapping text form
(`PortMapping`).

Imperative source is modelled by classes and loops proved against functions of the
old state; the theorems over runs are about those functions. Where the source walks
a hash map, the model walks its keys in an arbitrary order.

## Where the code does less than one might expect

Each of these is stated as a lemma with the exact condition:

- Recovery works for every loss pattern if and only if all payloads of the batch
  have the same length. The encoder pads shards before computing parity, the decoder
  stores them unpadded, and the Reed-Solomon crate refuses unequal lengths. The call
  that fails also drops the packet in hand (`FecLengths.RecoversIffEqualLengths`,
  `FecLengths.ReceiveFailsIff`, `FecDelivery.LostForGood`).
- The flags byte is recorded before the FEC bit is set on one side and while it is
  set on the other. Rebuilt flags are right when only parity arrived
  (`FecFlags.FlagsRightWithoutOriginals`). For a linear code, as Reed-Solomon is,
  they are right if and only if the decoding coefficients of the originals that
  arrived add up to zero or one (`FecLinear.LinearFlagsRightIff`, and of every
  delivery of a session `FecLog.SessionFlagsRightIff`); with two originals they do
  not (`FecFlagsExample.FlagsAppear`). The type, the length and the payload are
  exact.
- `add_owner_route` appends its unmeasured route, so a list stays sorted only while
  its last entry is no slower than the default (`RouteRuns.OwnerAddedSorted`).
- Claiming a tunnel that is already listed as a relay route leaves it one, so the
  peer goes on being punched (`RouteMemory.PunchedIff`).
- A stamp is left without a route if and only if a sweep drops a pair that was
  stamped again after the sweep had collected it
  (`RouteLocks.OrphansComeFromDrops`), and that can happen
  (`RouteLocks.RefreshCanLeaveAnOrphan`).
- A clear of the server view takes its two locks one after the other. Outside an
  update the merged list is the summary of the maps if and only if, since the last
  update, clears have emptied both of them or neither, or that update left nobody
  known (`ServerLocks.SummaryHoldsIff`); an update between the halves of a clear
  leaves it wrong (`ServerLocks.InterruptedClearDisagrees`).
- A peer is sent a broadcast once if and only if the best server has it or only one
  other server does (`Broadcast.PlanReaches`); with three servers it can be sent
  twice (`Broadcast.ReachedTwice`).
- `set_len` and `put` check the allocated capacity, not the length of the block. The
  window leaves the block, or the copy panics, exactly between the two
  (`Transmission.TransmissionBytes.SetLen`, `Transmission.TransmissionBytes.Put`).
  Both callers start from a zeroed block, which has no spare capacity, so no input
  of the program gets there (`PacketPath.FromTun`, `PacketPath.FromStack`).
- Sending writes every header byte but the flags, the reserved byte and the sequence
  number, which keep what the head room held. Flags left there would break the path,
  and exactly when is stated in `PacketPath.PathIdentity`; both callers hand over
  zeroed head room, so in the program the path is the identity
  (`PacketPath.ZeroedPathIdentity`).
- A broadcast without any server reports an error even though nobody is to be
  reached (`Broadcast.Ipv4BroadcastOutbound`).
- When one confirmation fails, the other servers stay confirmed
  (`Registration.TwoPhases`).

## Model

| member | source | states |
|---|---|---|
| FecRecovery.Recovers | vnt-2.0.0/vnt-core/src/fec/decoder.rs:65-252 | Recovery: whenever as many distinct shards as the batch has originals reach a living group, in any order, with repeats and amid other traffic, every original is delivered exactly once with the type and payload sent, for every MDS code, if the originals received are full length |
| FecLengths.RecoversIffEqualLengths | vnt-2.0.0/vnt-core/src/fec/decoder.rs:145-164 | A batch is recovered from every loss pattern if and only if its payloads all have the same length: the encoder pads, the decoder does not |
| FecLengths.ShortLosesAnother | vnt-2.0.0/vnt-core/src/fec/decoder.rs:203-230 | For any short original and any other one, a run that loses the other and brings enough shards never delivers it |
| FecLengths.ReceiveFailsIff | vnt-2.0.0/vnt-core/src/fec/decoder.rs:145-164 | The exact condition under which receiving a new shard fails, and that the slot of the packet in hand is closed all the same |
| FecDelivery.AtMostOnce | vnt-2.0.0/vnt-core/src/fec/decoder.rs:84-162 | At most once: over the life of a group no index is delivered twice, directly or by recovery, whatever arrives and whichever calls fail |
| FecDelivery.LostForGood | vnt-2.0.0/vnt-core/src/fec/decoder.rs:88-94 | An original whose receive fails once stored is never delivered, neither by a repeat nor by recovery |
| FecDelivery.EvictionIsFair | vnt-2.0.0/vnt-core/src/fec/decoder.rs:287-301 | A group, the receiving one included, leaves only in a due cleanup, and only if it timed out or the table is full of groups at least as new |
| FecDelivery.CleanupBounds | vnt-2.0.0/vnt-core/src/fec/decoder.rs:157-169 | Over every run: right after a receive that cleaned up all groups are fresh, and at any moment there are at most 1000 and one for each receive since |
| FecDelivery.AlwaysBounded | vnt-2.0.0/vnt-core/src/fec/decoder.rs:77-127 | Over every run each group holds a bounded number of slots, whatever the packets claim |
| FecDelivery.CleanupHappens | vnt-2.0.0/vnt-core/src/fec/decoder.rs:157-169 | After a receive that hands something on or stores a shard the last cleanup is at most a second past; a failed one never cleans up |
| FecDelivery.ReceiveRefuses | vnt-2.0.0/vnt-core/src/fec/decoder.rs:84-127 | Exactly which shards are ignored or refused, that those change nothing, and that every other one fills its slot and renews its group |
| FecDelivery.ShardCountsFixed | vnt-2.0.0/vnt-core/src/fec/decoder.rs:108-121 | Over every run the shard counts of a group, once known, never change while it lives |
| FecDelivery.LoggedEnds | vnt-2.0.0/vnt-core/src/fec/decoder.rs:131-281 | Over every run everything delivered for a group goes between the ends of the packets it came with, FEC flag off |
| FecDecoder.Decoder.constructor | vnt-2.0.0/vnt-core/src/fec/decoder.rs:55-62 | A new decoder has no groups |
| FecDecoder.Decoder.Receive | vnt-2.0.0/vnt-core/src/fec/decoder.rs:65-179 | One receive moves the decoder between states as the receive relation says, cleanup included; what it hands on are recovered packets in slot order with headers that follow the packet in hand, then that packet itself with only its FEC flag cleared |
| FecDecoder.Decoder.ReceiveInGroup | vnt-2.0.0/vnt-core/src/fec/decoder.rs:83-164 | What a receive does to its group and delivers: the group step on which the run theorems rest |
| FecDecoder.Decoder.Store | vnt-2.0.0/vnt-core/src/fec/decoder.rs:95-153 | A shard is stored only if its index and shard counts fit; an original is handed on with its FEC flag cleared |
| FecDecoder.Decoder.TryDecode | vnt-2.0.0/vnt-core/src/fec/decoder.rs:182-200 | Decoding starts exactly when the shard count is known, an original is missing and enough shards are there |
| FecDecoder.Decoder.DecodeWithRs | vnt-2.0.0/vnt-core/src/fec/decoder.rs:203-281 | The missing originals are rebuilt in index order, each between the ends of the packet in hand, with its TTL in both nibbles, the FEC flag off and no sequence number; the group is over, or nothing changes but the reconstructed shards |
| FecDecoder.RebuiltMeans | vnt-2.0.0/vnt-core/src/fec/decoder.rs:255-285 | Exactly which shards give a packet, and each of its header fields: type and payload from the shard, flags from the shard but for the FEC flag, the rest from the packet in hand |
| FecDecoder.ReceiveHandsOn | vnt-2.0.0/vnt-core/src/fec/decoder.rs:131-178 | Every packet a receive hands on, in which order, and what its header holds, whatever arrives |
| FecDecoder.Decoder.CleanupOldGroups | vnt-2.0.0/vnt-core/src/fec/decoder.rs:287-301 | The groups left are the fresh ones, cut to the newest 1000 |
| FecDecoder.OldestRemoved | vnt-2.0.0/vnt-core/src/fec/decoder.rs:292-299 | Removing the first of the ids sorted by age leaves the wanted number, none of them older than one removed |
| FecDelivery.ReceiveOpens | vnt-2.0.0/vnt-core/src/fec/decoder.rs:84-251 | A receive delivers only distinct open slots and closes them; a closed slot stays closed |
| FecDelivery.ClosedStays | vnt-2.0.0/vnt-core/src/fec/decoder.rs:84-94 | A slot once closed is silent for the rest of the group’s life |
| FecRecovery.EncoderSendsParity | vnt-2.0.0/vnt-core/src/fec/encoder.rs:204-233 | The parity frames the encoder sends for a batch are what the recovery theorem takes as its parity packets |
| FecRecovery.ReceiveShard | vnt-2.0.0/vnt-core/src/fec/decoder.rs:83-252 | Each receive of a shard keeps the progress invariant: still waiting with too few shards, or everything delivered |
| FecRecovery.DecodesIff | vnt-2.0.0/vnt-core/src/fec/decoder.rs:203-252 | With enough shards decoding succeeds exactly when all stored shards are as long as the parity, and then rebuilds exactly the missing originals |
| FecRecovery.RebuiltExact | vnt-2.0.0/vnt-core/src/fec/decoder.rs:255-285 | A packet rebuilt from a solved shard has the type and payload of the original it replaces |
| FecRecovery.ReconstructsIff | vnt-2.0.0/vnt-core/src/fec/decoder.rs:229-230 | Reconstruction is accepted exactly when every stored shard has the length of the parity |
| ErasureCode.SolveExact | vnt-2.0.0/vnt-core/src/fec/decoder.rs:229-230 | Under the MDS hypothesis solving a consistent column returns the data it was coded from |
| FecWitness.HypothesesCanBeMet | vnt-2.0.0/vnt-core/src/fec/encoder.rs:186-188 | The code hypotheses hold of a concrete two-parity code over bytes for every batch size and parity count the encoder uses |
| FecFlags.FlagsColumnIsStored | vnt-2.0.0/vnt-core/src/fec/decoder.rs:142-150 | The flags column that is solved is the wire flags of the stored originals beside parity of the flags as recorded before the FEC bit |
| FecFlags.FlagsRightWithoutOriginals | vnt-2.0.0/vnt-core/src/fec/decoder.rs:263-281 | When only parity arrived the rebuilt flags are the ones sent, for every code |
| FecFlags.FlagsWrongWithAnOriginal | vnt-2.0.0/vnt-core/src/fec/decoder.rs:144-144 | When an original arrived and another is missing, some equally good code rebuilds wrong flags |
| FecFlags.SolutionsDiffer | vnt-2.0.0/vnt-core/src/fec/decoder.rs:229-230 | Changing one used byte of a column changes every byte solved for a missing place |
| FecLinear.SolvedFlags | vnt-2.0.0/vnt-core/src/fec/decoder.rs:229-230 | For every linear MDS code the flags byte solved for a missing original is the one sent plus 0x20 times the sum of the decoding coefficients of the originals that arrived |
| FecLinear.LinearFlagsRightIff | vnt-2.0.0/vnt-core/src/fec/decoder.rs:255-281 | For every linear MDS code rebuilt flags are right if and only if that sum is zero or one |
| FecLinear.SolvedSum | vnt-2.0.0/vnt-core/src/fec/decoder.rs:229-230 | The byte solved for ones in the places of the originals is the sum of their coefficients |
| FecLog.DeliveredFlags | vnt-2.0.0/vnt-core/src/fec/decoder.rs:131-281 | Over every run of a batch, the flags byte of everything delivered: its own for the original in hand, and for a recovered packet the byte solved from the flags column of the slots filled by then |
| FecLog.LogRightWithoutOriginals | vnt-2.0.0/vnt-core/src/fec/decoder.rs:203-281 | Over every run in which only parity arrived, each recovered packet carries the flags it was sent with, for every code |
| FecLog.LogRightIff | vnt-2.0.0/vnt-core/src/fec/decoder.rs:203-281 | Over every run and linear MDS code, a delivered packet carries its flags if and only if it is the original itself or the coefficients of the originals seen add up to zero or one |
| FecLog.SessionFlagsRightIff | vnt-2.0.0/vnt-core/src/fec/decoder.rs:65-281 | The same from encoder to decoder, with nothing assumed of the flags that arrive |
| FecFlagsExample.FlagsAppear | vnt-2.0.0/vnt-core/src/fec/decoder.rs:144-144 | Under the systematic Vandermonde code for two originals, losing the first of two packets without flags rebuilds it as compressed and for the gateway, losing the second rebuilds an unused bit |
| FecShard.FramingRoundTrip | vnt-2.0.0/vnt-core/src/fec/decoder.rs:255-285 | Unpacking a zero-padded packed shard gives the fields back if and only if the payload fits its 16-bit length |
| FecShard.PaddingKeepsFields | vnt-2.0.0/vnt-core/src/fec/encoder.rs:190-202 | Padding a readable shard does not change what it unpacks to |
| FecEncoder.Encoder.constructor | vnt-2.0.0/vnt-core/src/fec/encoder.rs:40-52 | A new encoder has no batches |
| FecEncoder.Encoder.Encode | vnt-2.0.0/vnt-core/src/fec/encoder.rs:54-128 | The new batch states and queue, the number given to the packet, and the two outcomes: too long a payload changes nothing |
| FecEncoder.Encoder.HandleQueued | vnt-2.0.0/vnt-core/src/fec/encoder.rs:140-144 | The worker takes the oldest queued batch and sends its parity, with the heads stated for it |
| FecEncoder.Encoder.Visit | vnt-2.0.0/vnt-core/src/fec/encoder.rs:152-160 | One destination is flushed exactly when it has packets and its deadline has passed |
| FecEncoder.Encoder.Tick | vnt-2.0.0/vnt-core/src/fec/encoder.rs:146-162 | A tick flushes the due destinations in some order and leaves the others |
| FecEncoder.DueFlushesOnce | vnt-2.0.0/vnt-core/src/fec/encoder.rs:152-160 | The flushes of a tick are exactly the due destinations, each once |
| FecEncoder.PadAll | vnt-2.0.0/vnt-core/src/fec/encoder.rs:197-202 | Every shard of a batch is brought to the length of the longest |
| FecEncoder.LongestBounds | vnt-2.0.0/vnt-core/src/fec/encoder.rs:190-190 | The length padded to is reached by a shard and exceeded by none |
| FecEncoder.EncodeAndSendParity | vnt-2.0.0/vnt-core/src/fec/encoder.rs:175-247 | For a batch with any bytes a fifth of it in parity, rounded up, each frame of type Turn from the source of the flush to its destination with both TTL nibbles 5 and only the FEC flag, numbered after the originals, with both shard counts |
| FecEncoder.ParityHeads | vnt-2.0.0/vnt-core/src/fec/encoder.rs:175-233 | The same header, numbers and count for every flush, as a fact about the frames the run theorems use |
| FecNumbering.NumberedOnce | vnt-2.0.0/vnt-core/src/fec/encoder.rs:77-110 | Over any interleaving of packets and ticks no (destination, group, index) is handed out twice |
| FecNumbering.FlushedBatchIsItsGroup | vnt-2.0.0/vnt-core/src/fec/encoder.rs:77-162 | A flushed batch is exactly the packets of its group in index order, at most ten, no later packet joins it and no other flush is for that group |
| FecNumbering.NothingForgotten | vnt-2.0.0/vnt-core/src/fec/encoder.rs:77-162 | Every numbered packet is in the open batch or in the flushed batch of its group |
| FecNumbering.FlushedFrom | vnt-2.0.0/vnt-core/src/fec/encoder.rs:68-103 | When the packets for a destination share their source, so do all its flushes, full or late, over every interleaving |
| FecNumbering.FlushSource | vnt-2.0.0/vnt-core/src/fec/encoder.rs:97-160 | With mixed sources: a full batch goes out as from its last packet’s source, a late one as from that of the first packet its destination ever got |
| FecTiming.TickFlushesIff | vnt-2.0.0/vnt-core/src/fec/encoder.rs:146-162 | A tick closes a batch exactly when it has a packet and its group was opened 20 ms ago or more, by the history of the run |
| FecTiming.NoPacketWaitsLonger | vnt-2.0.0/vnt-core/src/fec/encoder.rs:146-162 | Over every run, once a tick comes 20 ms or more after a packet was numbered, its group has been flushed |
| FecSession.SentIsRecovered | vnt-2.0.0/vnt-core/src/fec/encoder.rs:54-247 | Encoder to decoder: if as many distinct frames of a flushed group arrive as it has packets, in any order and with repeats, every packet the encoder numbered into it is delivered with its type, payload, source and destination and no index twice, if the originals received are full length |
| FecSession.FrameEnds | vnt-2.0.0/vnt-core/src/fec/encoder.rs:112-233 | Originals and parity of a flush carry the same ends and fall under one group of the decoder, when the packets for that destination share their source |
| FecSession.ArrivedIsSeen | vnt-2.0.0/vnt-core/src/fec/decoder.rs:79-83 | Frames of a flush that arrive are counted in the decoder’s group of that flush |
| FecSession.LogEnds | vnt-2.0.0/vnt-core/src/fec/decoder.rs:131-281 | All that is delivered for the flush goes between its ends |
| FecSession.OriginalOfBatch | vnt-2.0.0/vnt-core/src/fec/encoder.rs:77-126 | The frame returned for a numbered packet is the original of its group’s batch at its own index |
| FecSession.FlushIsBatch | vnt-2.0.0/vnt-core/src/fec/encoder.rs:60-110 | A flushed batch is the packed form of at most ten packets, each of at most 65535 bytes |
| RouteList.Place | vnt-2.0.0/vnt-core/src/tunnel_core/p2p/route_table.rs:203-226 | The two swap loops and the insertion end, and compute the placing function |
| RouteList.Retain | vnt-2.0.0/vnt-core/src/tunnel_core/p2p/route_table.rs:139-142 | Retaining drops exactly the entries of one key |
| RouteList.PlacedOthers | vnt-2.0.0/vnt-core/src/tunnel_core/p2p/route_table.rs:203-226 | Placing a route changes only the entry of its key: all others keep their order |
| RouteList.PlacedKeys | vnt-2.0.0/vnt-core/src/tunnel_core/p2p/route_table.rs:203-226 | Placing adds exactly the key of the route |
| RouteList.PlacedDistinct | vnt-2.0.0/vnt-core/src/tunnel_core/p2p/route_table.rs:203-226 | Placing keeps the keys distinct |
| RouteList.PlacedSorted | vnt-2.0.0/vnt-core/src/tunnel_core/p2p/route_table.rs:203-226 | Placing keeps a sorted list sorted, whichever way the round-trip time moved |
| RouteTable.RouteTables.constructor | vnt-2.0.0/vnt-core/src/tunnel_core/p2p/route_table.rs:64-68 | A new table is empty |
| RouteTable.RouteTables.GetById | vnt-2.0.0/vnt-core/src/tunnel_core/p2p/route_table.rs:162-166 | The first route of a peer, if it has any |
| RouteTable.RouteTables.NeedPunch | vnt-2.0.0/vnt-core/src/tunnel_core/p2p/route_table.rs:83-90 | A peer needs punching exactly when none of its routes is direct |
| RouteTable.RouteTables.AddOwnerRoute | vnt-2.0.0/vnt-core/src/tunnel_core/p2p/route_table.rs:168-180 | The new three maps: owner replaced, pair stamped, unmeasured route appended if new |
| RouteTable.RouteTables.AddRoute | vnt-2.0.0/vnt-core/src/tunnel_core/p2p/route_table.rs:182-227 | The new three maps, and that a relay route for an unknown peer changes nothing |
| RouteTable.RouteTables.AddRouteIfAbsent | vnt-2.0.0/vnt-core/src/tunnel_core/p2p/route_table.rs:112-119 | A known peer is left alone, an unknown one gets the route |
| RouteTable.RouteTables.RemoveRoute | vnt-2.0.0/vnt-core/src/tunnel_core/p2p/route_table.rs:134-153 | The pair leaves all three maps, an emptied peer its list, an owner only if it is this peer |
| RouteTable.RouteTables.CollectExpired | vnt-2.0.0/vnt-core/src/tunnel_core/p2p/route_table.rs:231-241 | The stamps taken out are exactly those not after the limit |
| RouteTable.RouteTables.RemoveOldestRoute | vnt-2.0.0/vnt-core/src/tunnel_core/p2p/route_table.rs:229-264 | The sweep, pair by pair in any order, equals removing all expired pairs at once |
| RouteTable.DropIsPurge | vnt-2.0.0/vnt-core/src/tunnel_core/p2p/route_table.rs:250-263 | Dropping one more pair from a purged table purges that pair too |
| RouteRuns.TableRefinesRelation | vnt-2.0.0/vnt-core/src/tunnel_core/p2p/route_table.rs:112-264 | After every run the three maps list exactly one timestamped relation: distinct keys, no empty list, owners listed, and a route is found exactly for the known peers |
| RouteRuns.StepRefines | vnt-2.0.0/vnt-core/src/tunnel_core/p2p/route_table.rs:112-264 | Each operation acts on the stamps as the relation says |
| RouteRuns.StepConsistent | vnt-2.0.0/vnt-core/src/tunnel_core/p2p/route_table.rs:112-264 | Each operation keeps the three maps consistent |
| RouteRuns.SweepIsExact | vnt-2.0.0/vnt-core/src/tunnel_core/p2p/route_table.rs:229-264 | A sweep leaves exactly the pairs stamped after its limit, with their stamps |
| RouteRuns.SweepKeepsOrder | vnt-2.0.0/vnt-core/src/tunnel_core/p2p/route_table.rs:250-263 | What a sweep leaves stays in order, a peer goes exactly when nothing of it is left, an owner stays exactly when its pair does |
| RouteRuns.OwnerAddedSorted | vnt-2.0.0/vnt-core/src/tunnel_core/p2p/route_table.rs:175-179 | Appending an unmeasured route keeps the order if and only if the key is known, the list empty or its last route no slower |
| RouteRuns.FirstIsFastest | vnt-2.0.0/vnt-core/src/tunnel_core/p2p/route_table.rs:162-227 | While no sample is slower than the default, the route found for a peer is one of its fastest after every run |
| RouteMemory.TableRemembers | vnt-2.0.0/vnt-core/src/tunnel_core/p2p/route_table.rs:112-264 | After every run the lists hold exactly the routes last recorded for their pairs, a claimed tunnel belongs to the last peer that claimed it or else the first that had a direct route, and both go with their pairs |
| RouteMemory.PunchedIff | vnt-2.0.0/vnt-core/src/tunnel_core/p2p/route_table.rs:168-200 | Claiming a tunnel ends the need to punch if and only if the tunnel was new to the peer or a route was direct already; a direct route ends it always |
| RouteLocks.OperationsDisciplined | vnt-2.0.0/vnt-core/src/tunnel_core/p2p/route_table.rs:112-264 | Every operation takes its locks in rank order, holds what each step needs, lists only what it stamped, and releases all |
| RouteLocks.NoRouteIsImmortal | vnt-2.0.0/vnt-core/src/tunnel_core/p2p/route_table.rs:112-264 | In every interleaving of any number of threads a listed route is stamped or on the list of a running sweep; an owner is listed or being added under the write lock; lists are non-empty with distinct keys |
| RouteLocks.QuietTableExpires | vnt-2.0.0/vnt-core/src/tunnel_core/p2p/route_table.rs:229-264 | When all operations have finished, every listed route is stamped, every owner listed, and a late enough sweep empties the table |
| RouteLocks.FireKeeps | vnt-2.0.0/vnt-core/src/tunnel_core/p2p/route_table.rs:112-264 | Every single lock-level step keeps the invariant |
| RouteLocks.DeadlockFree | vnt-2.0.0/vnt-core/src/tunnel_core/p2p/route_table.rs:112-264 | Whenever an operation has not finished some operation can step, even if readers must wait for a waiting writer |
| RouteLocks.StepsEnd | vnt-2.0.0/vnt-core/src/tunnel_core/p2p/route_table.rs:112-264 | Every step of an operation shortens what is left of it |
| RouteLocks.RunsToEnd | vnt-2.0.0/vnt-core/src/tunnel_core/p2p/route_table.rs:112-264 | An operation can always finish while the others hold no lock |
| RouteLocks.UninterruptedIsAtomic | vnt-2.0.0/vnt-core/src/tunnel_core/p2p/route_table.rs:112-264 | The steps of one operation, uninterrupted, have the effect of the atomic operation |
| RouteLocks.AloneIsAtomic | vnt-2.0.0/vnt-core/src/tunnel_core/p2p/route_table.rs:112-264 | The step sequence of each operation computes its atomic counterpart |
| RouteLocks.OrphansComeFromDrops | vnt-2.0.0/vnt-core/src/tunnel_core/p2p/route_table.rs:168-264 | At every moment of a run each stamped pair is listed or being listed under the write lock, if and only if no sweep of the run drops a pair that has been stamped again |
| RouteLocks.FireOrphans | vnt-2.0.0/vnt-core/src/tunnel_core/p2p/route_table.rs:168-264 | Over every reachable state a step leaves a stamp without a route exactly when it drops that pair while it is stamped |
| RouteLocks.QuietTableConsistent | vnt-2.0.0/vnt-core/src/tunnel_core/p2p/route_table.rs:168-264 | A run without such a drop leaves, once all operations have finished, tables as consistent as operations run one at a time |
| RouteLocks.RefreshCanLeaveAnOrphan | vnt-2.0.0/vnt-core/src/tunnel_core/p2p/route_table.rs:229-248 | Such a drop can happen: a reachable quiet state has a stamp without a listed route |
| ServerInfo.ServerInfoCollection.UpdateServer | vnt-2.0.0/vnt-core/src/context/mod.rs:342-355 | Fresh nodes for the given servers and an empty merged list |
| ServerInfo.ServerInfoCollection.UpdateClientSimpleList | vnt-2.0.0/vnt-core/src/context/mod.rs:417-457 | For every address: listed afterwards if and only if the list names it and it is not the own one, or the list is a difference and it was listed before; with the last entry that names it; other servers, connection, version and round-trip time as stated; the merged list is the summary of all servers |
| ServerInfo.ServerInfoCollection.SetServerConnected | vnt-2.0.0/vnt-core/src/context/mod.rs:458-464 | The old value is returned, a missing node is made, and the merged list stays right |
| ServerInfo.ServerInfoCollection.SetServerRtt | vnt-2.0.0/vnt-core/src/context/mod.rs:504-508 | Only an existing node changes, and the merged list stays right |
| ServerInfo.ServerInfoCollection.Clear | vnt-2.0.0/vnt-core/src/context/mod.rs:534-545 | Nodes are kept and emptied together with the merged list |
| ServerInfo.ServerInfoCollection.FindConnectedServer | vnt-2.0.0/vnt-core/src/context/mod.rs:356-374 | A connected server of least round-trip time, the first among equals, none exactly when none listed is connected |
| ServerInfo.ServerInfoCollection.FindIpToServer | vnt-2.0.0/vnt-core/src/context/mod.rs:375-398 | A connected server that shows the address online, of least round-trip time, none exactly when none does |
| ServerInfo.ServerInfoCollection.ClientOnlineIps | vnt-2.0.0/vnt-core/src/context/mod.rs:399-406 | Exactly the addresses some server shows online, each once |
| ServerInfo.ServerInfoCollection.ExistsOnlineClientIp | vnt-2.0.0/vnt-core/src/context/mod.rs:528-533 | True exactly when some server shows the address online |
| ServerInfo.ServerInfoCollection.ServerClientIpMap | vnt-2.0.0/vnt-core/src/context/mod.rs:320-338 | Per server its online addresses, each once, and its round-trip time or 500 |
| ServerInfo.Merge | vnt-2.0.0/vnt-core/src/context/mod.rs:441-456 | Walking the maps in any order gives each known address once, online as the OR over servers |
| ServerInfo.MergedIsUnique | vnt-2.0.0/vnt-core/src/context/mod.rs:441-456 | The merged list is determined up to order, so iteration order does not matter |
| ServerInfo.OthersMeans | vnt-2.0.0/vnt-core/src/context/mod.rs:430-435 | A received list keeps every named address but the own one, a later entry winning |
| ServerInfo.UpdatedMeans | vnt-2.0.0/vnt-core/src/context/mod.rs:417-440 | The same about the maps alone, as the run theorems use them |
| ServerInfo.OwnIpNeverKnown | vnt-2.0.0/vnt-core/src/context/mod.rs:342-457 | After any sequence of calls the own address is known to no server map and not in the merged list |
| ServerInfo.FastestMeans | vnt-2.0.0/vnt-core/src/context/mod.rs:361-373 | The choice is a minimum and the earliest among equals |
| ServerLocks.SummaryHoldsIff | vnt-2.0.0/vnt-core/src/context/mod.rs:342-545 | In every interleaving, at any moment outside an update, the list is the summary of the maps if and only if since the last update clears have emptied both or neither, or that update left nobody known |
| ServerLocks.UninterruptedClearsAgree | vnt-2.0.0/vnt-core/src/context/mod.rs:534-545 | If no update falls between the halves of a clear, the list is the summary whenever no call is under way |
| ServerLocks.InterruptedClearDisagrees | vnt-2.0.0/vnt-core/src/context/mod.rs:534-545 | With an update in between, a finished clear leaves a client in the list that no map knows |
| Broadcast.Ipv4BroadcastOutbound | vnt-2.0.0/vnt-core/src/tunnel_core/outbound.rs:252-281 | Each online address is reached directly or through servers and never both, nobody else is reached, with at most two servers nobody twice, and below 16 direct sends nobody that could be reached directly is left to the servers; failure only without servers |
| Broadcast.SendRawBroadcast | vnt-2.0.0/vnt-core/src/tunnel_core/server/outbound.rs:138-238 | The plan: the best server, the rest in any order, and each early return and error |
| Broadcast.PlanReaches | vnt-2.0.0/vnt-core/src/tunnel_core/server/outbound.rs:171-238 | With a sender for every server a plan reaches exactly the online addresses not excluded, and exactly when each is reached once |
| Broadcast.HitsExact | vnt-2.0.0/vnt-core/src/tunnel_core/server/outbound.rs:204-238 | The exact number of sends of a plan that reach an address, missing senders included |
| Broadcast.BestEmpty | vnt-2.0.0/vnt-core/src/tunnel_core/server/outbound.rs:173-187 | If the best server shows nobody online, no server does, so returning early loses nobody |
| Broadcast.BestServer | vnt-2.0.0/vnt-core/src/tunnel_core/server/outbound.rs:173-184 | The chosen server has the highest score |
| Broadcast.BestMeans | vnt-2.0.0/vnt-core/src/tunnel_core/server/outbound.rs:173-184 | The choice in whole numbers: clients and round-trip times compare crosswise with every other server |
| Broadcast.P2pBroadcast | vnt-2.0.0/vnt-core/src/tunnel_core/p2p/outbound.rs:108-132 | The peers sent to directly, up to the cap |
| Broadcast.TakenMeans | vnt-2.0.0/vnt-core/src/tunnel_core/p2p/outbound.rs:108-132 | At most the cap, each once, none in favour of a later one; counts agree only if all were reached; one is left out only at the cap |
| Broadcast.ReachedTwice | vnt-2.0.0/vnt-core/src/tunnel_core/server/outbound.rs:212-238 | With three servers an address on two of them is sent to twice |
| Transmission.TransmissionBytes.From | vnt-2.0.0/vnt-core/src/protocol/transmission.rs:13-38 | A window on exactly the given bytes |
| Transmission.TransmissionBytes.NewOffset | vnt-2.0.0/vnt-core/src/protocol/transmission.rs:41-47 | The window is in range exactly when the head room fits the default block |
| Transmission.TransmissionBytes.NewOffsetZeroed | vnt-2.0.0/vnt-core/src/protocol/transmission.rs:48-54 | The window is all of a zeroed block behind the head room |
| Transmission.TransmissionBytes.ZeroedSize | vnt-2.0.0/vnt-core/src/protocol/transmission.rs:62-68 | A zeroed window with reserve behind it |
| Transmission.TransmissionBytes.Put | vnt-2.0.0/vnt-core/src/protocol/transmission.rs:108-122 | Appends, refuses or panics, and exactly when; without spare capacity it never panics |
| Transmission.TransmissionBytes.RetreatHead | vnt-2.0.0/vnt-core/src/protocol/transmission.rs:123-135 | Head room comes into view unchanged, refused exactly when there is too little |
| Transmission.TransmissionBytes.AdvanceHead | vnt-2.0.0/vnt-core/src/protocol/transmission.rs:136-148 | Drops bytes from the front, refused exactly when there are too few |
| Transmission.TransmissionBytes.SetLen | vnt-2.0.0/vnt-core/src/protocol/transmission.rs:149-162 | When it is refused, and exactly when the window stays inside the block: always without spare capacity |
| Transmission.TransmissionBytes.Resize | vnt-2.0.0/vnt-core/src/protocol/transmission.rs:163-167 | The window gets the length and keeps its prefix; new bytes are what the block held there, or the fill byte past its end |
| Transmission.TransmissionBytes.ExtendEnd | vnt-2.0.0/vnt-core/src/protocol/transmission.rs:168-173 | The window grows behind, its bytes unchanged; new bytes are what the block held there, or zero past its end |
| Transmission.TransmissionBytes.ShrinkEnd | vnt-2.0.0/vnt-core/src/protocol/transmission.rs:174-180 | Bytes go from the back, at most all |
| Transmission.TransmissionBytes.IntoBytes | vnt-2.0.0/vnt-core/src/protocol/transmission.rs:186-192 | The bytes of the window and nothing else |
| NetPacket.HeaderRoundTrip | vnt-2.0.0/vnt-core/src/protocol/ip_packet_protocol.rs:25-37 | Reading and writing a header are inverse in both directions |
| NetPacket.TypeRoundTrip | vnt-2.0.0/vnt-core/src/protocol/ip_packet_protocol.rs:44-51 | Every message type reads back as set |
| NetPacket.TypeKnown | vnt-2.0.0/vnt-core/src/protocol/ip_packet_protocol.rs:95-152 | A type byte is understood exactly when its low seven bits are 1 to 15 or 17 |
| NetPacket.WireLayout | vnt-2.0.0/vnt-core/src/protocol/ip_packet_protocol.rs:25-37 | Where each field of a header lies, words in network order |
| NetPacket.TtlNibbles | vnt-2.0.0/vnt-core/src/protocol/ip_packet_protocol.rs:54-75 | Both nibbles are set together, a decrement lowers only the current one and stops at zero |
| NetPacket.FlagBits | vnt-2.0.0/vnt-core/src/protocol/ip_packet_protocol.rs:77-83 | Writing one flag changes that flag and no other bit |
| PacketStages.EncryptInPlace | vnt-2.0.0/vnt-core/src/crypto/mod.rs:27-36 | What leaves the stage is the header as it was, exactly the sealed payload and its tag; without a cipher the packet as it was |
| PacketStages.DecryptInPlace | vnt-2.0.0/vnt-core/src/crypto/mod.rs:37-46 | Accepted if and only if the payload opens under the nonce of its header, then with the opened bytes behind the old header; refused with nothing changed |
| PacketStages.Compress | vnt-2.0.0/vnt-core/src/compression/lz4_compression.rs:20-42 | The packet is replaced by its compressed form exactly when it has 256 bytes or more and gets shorter; it never grows |
| PacketStages.Decompress | vnt-2.0.0/vnt-core/src/compression/lz4_compression.rs:46-71 | A flagged packet is decompressed and its flag cleared, any other comes through |
| PacketStages.NonceDetermined | vnt-2.0.0/vnt-core/src/crypto/chacha20_poly1305.rs:43-66 | Two headers share a nonce if and only if type, ends and the low 24 bits of the sequence agree: TTL and flags do not matter |
| PacketStages.NonceLayout | vnt-2.0.0/vnt-core/src/crypto/chacha20_poly1305.rs:43-66 | The nonce by its place in the bytes of the packet |
| PacketStages.DecryptUndoes | vnt-2.0.0/vnt-core/src/crypto/chacha20_poly1305.rs:68-103 | A sealed payload opens under every header with the same nonce |
| PacketStages.DecompressUndoes | vnt-2.0.0/vnt-core/src/compression/lz4_compression.rs:20-71 | Decompressing undoes compressing, and the exact condition for a packet sent uncompressed |
| PacketStages.CompressedMeans | vnt-2.0.0/vnt-core/src/compression/lz4_compression.rs:20-42 | Exactly which payloads change, to what, and that just those are flagged, no other header bit touched |
| PacketPath.Ipv4Outbound | vnt-2.0.0/vnt-core/src/tunnel_core/outbound.rs:197-236 | The packet on the wire for every payload, destination and stale head room, and the cases in which nothing is sent |
| PacketPath.OutgoingMeans | vnt-2.0.0/vnt-core/src/tunnel_core/outbound.rs:197-236 | Every byte of what goes on the wire: header fields, the one flag that may be added, the payload compressed or not and sealed as a whole |
| PacketPath.NextHandle | vnt-2.0.0/vnt-core/src/tunnel_core/p2p/inbound.rs:76-164 | Forwards if and only if the type is known, source and destination differ, the TTL is at least 2 and not above its maximum, the destination is none of the four addresses the node listens to and a route is known, with the TTL one lower; what it accepts or gives to the decoder had arrived and, behind a cipher, opened |
| PacketPath.ForwardsIff | vnt-2.0.0/vnt-core/src/tunnel_core/p2p/inbound.rs:83-116 | The same condition for forwarding, as a fact about the verdict the path theorems use |
| PacketPath.ArrivesIff | vnt-2.0.0/vnt-core/src/tunnel_core/p2p/inbound.rs:97-164 | A packet to one of the four addresses is accepted or given to the decoder exactly when it lives, opens and decompresses, and with which payload, flags, kind and metric |
| PacketPath.FailsIff | vnt-2.0.0/vnt-core/src/tunnel_core/p2p/inbound.rs:76-164 | When a packet fails and when it is dropped without a word: all cases that are left |
| PacketPath.FromTun | vnt-2.0.0/vnt-core/src/tun/general.rs:210-226 | A packet from the TUN device comes behind zeroed head room, one too long is refused |
| PacketPath.FromStack | vnt-2.0.0/vnt-core/src/nat/internal_nat/mod.rs:89-98 | A packet from the internal stack comes behind zeroed head room |
| PacketPath.ZeroedPathIdentity | vnt-2.0.0/vnt-core/src/tunnel_core/outbound.rs:197-236 | With zeroed head room every payload sent, relayed any number of times and received with the same settings is accepted unchanged |
| PacketPath.PathIdentity | vnt-2.0.0/vnt-core/src/tunnel_core/outbound.rs:197-236 | For any head room it comes out unchanged if and only if that did not hold the FEC flag, nor the compression flag on a packet sent uncompressed |
| PacketPath.SentNonce | vnt-2.0.0/vnt-core/src/crypto/chacha20_poly1305.rs:43-66 | Two sent packets share a nonce if and only if they go between the same ends and their head rooms held the same low 24 sequence bits |
| PacketPath.ZeroedNonce | vnt-2.0.0/vnt-core/src/crypto/chacha20_poly1305.rs:43-66 | With zeroed head room they share it exactly when they go between the same ends |
| PacketPath.RelayTouchesTtl | vnt-2.0.0/vnt-core/src/tunnel_core/p2p/inbound.rs:90-116 | After any number of hops only the TTL has changed, one lower each hop |
| PacketPath.RelayingEnds | vnt-2.0.0/vnt-core/src/tunnel_core/p2p/inbound.rs:90-116 | With TTL n a packet is transmitted at most n times over any routes, and an accepted packet’s metric is the number of links it crossed |
| Registration.CoordinatedRegistration | vnt-2.0.0/vnt-core/src/tunnel_core/server/connection_manager.rs:272-346 | Success exactly when all servers accepted and confirmed; later servers are set to the first one’s address; the order of requests |
| Registration.PreRegisterAll | vnt-2.0.0/vnt-core/src/tunnel_core/server/connection_manager.rs:283-319 | The first phase: the first server alone, then the others with its address |
| Registration.ConfirmAll | vnt-2.0.0/vnt-core/src/tunnel_core/server/connection_manager.rs:321-325 | The second phase confirms with every server, whatever the others answer |
| Registration.TwoPhases | vnt-2.0.0/vnt-core/src/tunnel_core/server/connection_manager.rs:272-346 | For every pattern of replies: exactly which requests of both phases are sent and with which address, the first server first, and no request of the first phase after one of the second |
| Registration.ServeConnected | vnt-2.0.0/vnt-core/src/tunnel_core/server/connection_manager.rs:161-228 | The connection’s history over any sequence of reconnection attempts |
| Registration.LiveOnlyUnchanged | vnt-2.0.0/vnt-core/src/tunnel_core/server/connection_manager.rs:176-214 | It goes live again once per grant with unchanged address, prefix and gateway, before the first refusal |
| Registration.StopsWhenChanged | vnt-2.0.0/vnt-core/src/tunnel_core/server/connection_manager.rs:189-209 | It stops exactly when a reply refuses or changes the network |
| Registration.DownBeforeEachAttempt | vnt-2.0.0/vnt-core/src/tunnel_core/server/connection_manager.rs:176-228 | The link is down before each attempt made and after the last, goes up only from down, and nothing follows a stop |
| Registration.Manager.ConnectAndReg | vnt-2.0.0/vnt-core/src/tunnel_core/server/connection_manager.rs:100-138 | What reaches the wire, and that a refused connection is closed |
| Registration.Manager.SetIp | vnt-2.0.0/vnt-core/src/tunnel_core/server/connection_manager.rs:156-158 | The address to ask for is replaced |
| SubnetRoute.SubnetExternalRoute.constructor | vnt-2.0.0/vnt-core/src/nat/mod.rs:62-67 | The table given is kept sorted by prefix |
| SubnetRoute.SubnetExternalRoute.SetRouteTable | vnt-2.0.0/vnt-core/src/nat/mod.rs:68-71 | A new table replaces the old one, sorted by prefix |
| SubnetRoute.SubnetExternalRoute.Route | vnt-2.0.0/vnt-core/src/nat/mod.rs:72-83 | The target of a longest matching prefix, the earliest given among equals, and none exactly when nothing matches (section 5.2.4.3 of RFC 1812) |
| SubnetRoute.SortedScanChooses | vnt-2.0.0/vnt-core/src/nat/mod.rs:62-83 | First match on the stably sorted table is longest-prefix choice on the table as given |
| SubnetRoute.ContainsMeans | vnt-2.0.0/vnt-core/src/nat/mod.rs:72-83 | An address matches a network exactly when they agree on the top bits of its prefix |
| SubnetRoute.AllowSubnetExternalRoute.constructor | vnt-2.0.0/vnt-core/src/nat/mod.rs:97-102 | The networks given are kept sorted |
| SubnetRoute.AllowSubnetExternalRoute.Allow | vnt-2.0.0/vnt-core/src/nat/mod.rs:103-113 | Allowed exactly when some given network has the address, in whatever order |
| Sorting.StableSortSorts | vnt-2.0.0/vnt-core/src/nat/mod.rs:63-63 | The sort orders by key and keeps the elements |
| Sorting.StableSortStable | vnt-2.0.0/vnt-core/src/nat/mod.rs:63-63 | Elements with equal keys keep their order |
| PortMapping.RoundTrip | vnt-2.0.0/vnt-core/src/port_mapping/mod.rs:29-84 | Parsing the printed form gives the mapping back if and only if it is TCP or UDP to a non-zero port, for every host |
| PortMapping.ParsedSurvives | vnt-2.0.0/vnt-core/src/port_mapping/mod.rs:43-84 | Every mapping the parser produces survives printing and parsing |
| PortMapping.ShowInjective | vnt-2.0.0/vnt-core/src/port_mapping/mod.rs:29-41 | Two mappings that can be parsed never print alike |
| PortMapping.ParsesIff | vnt-2.0.0/vnt-core/src/port_mapping/mod.rs:43-84 | The texts that parse to a mapping are exactly those written out of its parts: the source up to the first dash, the target up to the next, the port after the last colon |
| PortMapping.PortIff | vnt-2.0.0/vnt-core/src/port_mapping/mod.rs:68-76 | A port is accepted exactly if it is an optional plus sign, any leading zeros and a number from 1 to 65535 |
| PortMapping.ShowNatParses | vnt-2.0.0/vnt-core/src/port_mapping/mod.rs:70-73 | A printed port parses back to its number |

## Left out

- FecRecovery.Recovers: speaks of type and payload; the other header fields of what is delivered are stated by `FecDecoder.ReceiveHandsOn` and `FecLog.DeliveredFlags`.
- FecDecoder.Decoder.Receive: reads the clock once per call, and the protobuf parser is a parameter (its result or its failure); groups are values in the map rather than objects updated through a reference.
- FecEncoder.Encoder.Encode: reads the clock once per call and does not wrap the 64-bit group number; the protobuf encoding of the wrapped packet is its message value.
- FecSession.SentIsRecovered: takes what reaches the decoder as emitted frames whose header differs in the TTL only, and none for another destination under the same source and group number; encryption in between is the subject of `PacketPath`.
- FecEncoder.EncodeAndSendParity: computes the parity count as the integer ceiling of k/5 (at least 1), which equals the 32-bit float computation for batches of up to ten; encryption and sending of the frames are not part of it.
- ErasureCode.SolveExact: the Reed-Solomon crate is a parameter under two hypotheses, MDS and that it solves consistent columns; its own matrices and field arithmetic are not modelled, except for two originals and one parity in `FecFlagsExample`.
- FecFlags.FlagsWrongWithAnOriginal: gives some MDS code with wrong flags; which linear codes have them is said by `FecLinear.LinearFlagsRightIff`, whose coefficients are not computed for larger batches.
- RouteTable.RouteTables.RemoveOldestRoute: is atomic here; its two phases and the locks are in `RouteLocks`.
- RouteLocks.NoRouteIsImmortal: groups the steps that need the same exclusively held locks into one, so intermediate values that no other thread can observe are not states.
- RouteLocks.QuietTableExpires: says nothing of stamps without a route; `RouteLocks.OrphansComeFromDrops` says when there are none.
- ServerInfo.ServerInfoCollection.UpdateClientSimpleList: runs as one step; its two locks are in `ServerLocks`. Server address, version and connection times are left out of a node.
- ServerInfo.ServerInfoCollection.Clear: runs as one step; its two halves are in `ServerLocks`.
- Broadcast.BestServer: compares scores as exact rationals where the source divides 64-bit floats; rounding can make two scores tie but cannot make a positive one zero, which is all that coverage uses.
- Broadcast.Ipv4BroadcastOutbound: takes the online list and the server map in one state, and assumes a server delivers to the clients it shows online; results of the sends themselves are not part of it.
- PacketStages.EncryptInPlace: the length limits of the cipher library are left out; sealing always succeeds.
- PacketPath.PathIdentity: has forward error correction off; the FEC stage is the subject of the `Fec` modules.
- Registration.CoordinatedRegistration: does not compare the addresses granted by the later servers, because the client does not.
- SubnetRoute.SubnetExternalRoute.Route: leaves out `reset_route`, which stores an unsorted table.
- PortMapping.RoundTrip: socket and IPv4 addresses are opaque values with a text form that parses back and has no dash; `S` ranges over the addresses the parser can produce.
- The rest of `FecDecoder` users, the message bodies of Ping, Pong and punching, and route discovery by relay: they add table updates already covered by the route operations.
- Sockets, TUN device, TLS and QUIC transports, STUN and NAT detection, DNS, the internal NAT: calls to the operating system and foreign libraries.
- Traffic and loss counters, punch backoff, RPC bookkeeping and the getters of the server view: easy members.
- The parsing and printing of subnet inputs, `key_sign`, and key derivation: library text forms and digests.
- Task groups and shutdown, the user interface, HTTP handlers, configuration and logging.
