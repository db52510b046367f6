# antDev: verified models of the generator pipeline, the switch application and the flow table

antDev is a network tester and SDN switch on an FPGA board with its own control software.
These Dafny modules model five parts of it and prove what each part is for.

**Packet generator and latency path** (`Division`, `FastWord`, `PacketGenerator`,
`GeneratorSchedule`, `GeneratorBypass`, `HeaderParser`, `FrameParsing`, `LatencyMonitor`). Packets are sequences of 134-bit words on a bus. The store
side keeps one packet in a memory; the replay side sends it again and again at a programmed
interval, through a memory that answers two edges after the address, and stamps a number and
the time into the sixth word. The parser of the receiving side collects a header vector and
the monitor records the latency. The modules are clocked machines: a class holds the registers
and its `Clock` method equals a pure transition, and the theorems are about all runs of that
transition. Main results: `ScheduleIsExact` gives the bus contents of every cycle of every
test in closed form, `PacketCount` and `Totals` the number of packets and the counters,
`EveryArrivalKept` ties stamp, parser and monitor together over a clocked run.

**Packet-stream machines** (`PacketFifo`, `DataCache`, `OutputEngine`, `OutputEngineRuns`,
`OutputEngineShort`). The store-and-forward cache and the discarding, counting output engine as transformers of
packet streams, with progress.

**Learning switch** (`MacTable`, `MacTableInterleaving`, `MacTablePasses`). The 128-slot table as the program
changes it in place, refined to a map and characterised by its history; and the receive and
aging threads interleaved at the grain of single reads and writes of shared memory, with what
a whole pass of each still does.

**MD5** (`Md5Spec`, `Md5`). RFC 1321 written down step by step, and the streaming
implementation with its unrolled rounds proved equal to it for every way of cutting the input.

**Flow table** (`RuleMatch`, `FlowMatch`, `MatchMeaning`, `MaskedMatch`, `PortMeaning`, `RuleTable`,
`RuleTableRuns`, `RulePriority`, `NetworkOrder`, `FlowMod`, `FlowAgent`, `FlowAgentRuns`,
`FlowHandlers`, `FlowSemantics`, `FlowHistory`, `FlowPriority`, `StatsReply`). OpenFlow matches compiled into key and mask (section 7.2.3 of the OpenFlow
Switch Specification 1.3.4), the eight-rule table with its register image on the OpenBox-S4
board, the flow_mod handlers with their statistics records, and the statistics reply. The
handlers are methods over arrays, an explicit heap of allocated blocks and a register space;
`free` demands an allocated block.

`dafny verify dfyconfig.toml` checks all of it.

## What the proofs found

Where the code does something its purpose does not suggest, the model follows the code and the
condition under which it does the expected thing is proved.

- The interval formula at `sw code/fast-ant/app/ant/main_ant.c:72` spaces packets one or two
  cycles wider than `(len+20)*80/rate`, and turns into a huge interval when it goes negative
  (`SoftwareSpacing`).
- The parser labels a frame of unknown EtherType, and any frame of three or four words, with the
  protocol type of whatever it parsed before, and takes the protocol field of a five-word frame
  from there (`LabelIsTheFramesOwn`, `ShortFrameLabel`).
- The word counter of the parser has eight bits: the header vector is the frame's own exactly
  for frames of 3 to 258 words, and for known types the metadata exactly for 6 to 257
  (`VectorLengths`, `MetadataLengths`).
- A cycle without a word inside a frame restarts that count, so the words after it are taken for
  metadata and first lanes again (`HoleRestartsCount`).
- The monitor forwards a packet addressed to it with the old contents of its header vector
  register: zeros, or the vector of the packet before (`LeavesOwnVector`, `StaleVector`).
- The output engine looks for a tail only from the fourth word on, so it forwards a stream
  faithfully exactly when every packet to forward has at least four words (`FourWordsNeeded`).
- The aging thread can lose a refresh of an existing entry, exactly when it has already cleared
  the slot the receive thread found valid, or has read the old expiry and stands at its clearing
  (`RefreshLostExactly`, `RefreshCanBeLost`, `DeadSlotRefreshed`); it never evicts a fresh entry
  on the previous occupant's expiry (`EvictionIsJustified`).
- The block loop of MD5Update compares a 32-bit sum that can wrap. `LoopEnds` is the condition
  under which it does not: inputs shorter than 2^32 - 64 bytes with an empty buffer, shorter
  than 2^32 - k with k bytes buffered (`SafeLengths`, `LongInputsOverrun`).
- The mask bit of a match field is never read, and value and mask are copied as one value: a
  masked destination address becomes the mask as destination and the value as source
  (`MaskedMeans`, `MaskedDestinationMisses`).
- The lookup takes the first rule that matches and never reads priorities
  (`PriorityIsIgnored`). It returns a rule of greatest priority, now and after any deletions,
  exactly when no rule stands before an overlapping one of higher priority
  (`HighestAfterDeletions`, `LookupIsHighest`).
- TCP and UDP port TLVs reach the key but never the mask, so they do not restrict a match:
  compiling preserves the meaning of exactly the matches without them
  (`PreservedWithoutPorts`).
- `fast_add_rule` returns a free slot, not the slot of the rule, for a digest already present
  (`ResultIsTheSlot`).
- A flow_mod without instructions is ignored, also a strict deletion, so a deletion undoes an
  add exactly when it has one and is not taken as the default rule (`StrictDeleteUndoesAdd`).
- Strict modification stores the input port without the translation an add applies, so it can
  move a rule to another port (`StrictModifyKeepsMatch`, `ModifyMovesPort`).
- Delete-all leaves the software rules live while the hardware drops, and adding one of them
  again changes nothing (`DeleteAllOutcome`, `ReAddIgnored`). Those rules keep the addresses of
  their freed records (`PointerIsRecord`, `DeleteAllDangles`).
- A strict deletion that finds its rule loses the record it built (`RecordsLost`).

## Model

| member | source | states |
|---|---|---|
| PacketGenerator.PgmWr.Clock | hw code/pgm_wr.v:118-292 | one clock of the store side, register by register, is the transition WrStep: store, wait, pass-through and discard, with the start and finish flags |
| PacketGenerator.PgmRam.Clock | hw code/ram_144_128.v:147-148 | one clock of the packet memory: a write lands, and a read shows two edges after its address |
| PacketGenerator.PgmRd.Clock | hw code/pgm_rd.v:130-480 | one clock of the replay side, all eight states, is the transition RdStep |
| PacketGenerator.Generator.Clock | hw code/pgm.v:1-254 | one clock of the three parts wired together is PgmStep, the transition the run theorems are about |
| GeneratorSchedule.StoreProgress | hw code/pgm_wr.v:168-175 | after k cycles of a stored packet of L words, words 0..k-1 have gone to addresses 0..k-1 and the replay side has not moved; the start flag rises with the tail |
| GeneratorSchedule.RoundStarts | hw code/pgm_rd.v:255-262 | packet n begins in exactly cycle L+1 + n*(L+R+3), with counters n, n*(L+R+2) and n*(16*(L-1)+tail byte field) |
| GeneratorSchedule.Reading | hw code/pgm_rd.v:291-375 | while word j of packet n is at the memory output, word j-1 is on the bus and the counters have moved j steps |
| GeneratorSchedule.ScheduleIsExact | hw code/pgm_rd.v:165-429 | in every cycle of every test the output bus carries exactly what the closed-form schedule says: packet n word for word from its start cycle, the sixth word carrying {n, current time, all ones}, silence in between and after the last packet |
| GeneratorSchedule.PacketBeat | hw code/pgm_rd.v:309-338 | word j of the n-th copy is the stored word j, or the stamp {n mod 2^64, timestamp of that cycle} if j is 5 |
| GeneratorSchedule.StampOnBus | hw code/pgm_rd.v:309-338 | on the bus the sixth word of copy n has n mod 2^64 in its upper 64 bits, the time of that cycle in the next 32 and ones in the last 32, with the framing and byte count of the stored word |
| GeneratorSchedule.LastPacketIsLeast | hw code/pgm_rd.v:348-354 | the closed form for the last packet is the least n with L + n*(L+R+2) >= T |
| GeneratorSchedule.PacketCount | hw code/pgm_rd.v:348-354 | the test sends packets 0..LastPacket, and stops there if and only if the 64-bit time counter does not wrap before that packet's tail |
| GeneratorSchedule.Totals | hw code/pgm_rd.v:379-393 | from the end of the test until a soft reset, the machine is in FIN_S with sent_pkt_cnt = N and sent_bit_cnt = N*(16*(L-1)+tail byte field) |
| GeneratorSchedule.Finished | hw code/pgm_rd.v:379-393 | after the packet whose tail meets the time limit the machine stays in FIN_S for as long as no soft reset comes |
| GeneratorSchedule.StartFlagDrops | hw code/pgm_wr.v:255-268 | the store side holds the start flag for exactly sent_time + 2 cycles after the tail and then returns to its reset state |
| GeneratorSchedule.SoftResetRearms | hw code/pgm_rd.v:379-393 | a soft reset after the end of a test puts both sides back into their reset state within two cycles, so the next test counts from zero |
| GeneratorSchedule.IdleGap | hw code/pgm_wr.v:152-194 | from the reset registers, while no packet begins, registers and packet memory stay and the bus is silent, for any number of cycles, any stray words and any change of settings |
| GeneratorSchedule.ScheduleAfterIdle | hw code/pgm_rd.v:165-429 | a test that begins after any idle gap is silent in the gap and follows its schedule from then on |
| GeneratorSchedule.NextTestOnSchedule | hw code/pgm_rd.v:165-429 | started from the registers, memory and time limit a test leaves after its soft reset, the next test, with any gap before it and any packet and settings, follows its own schedule in every cycle |
| GeneratorBypass.PassesUnchanged | hw code/pgm_wr.v:152-225 | a packet of another priority goes through an idle generator word for word, two cycles later, with the strobe on its tail, and leaves registers and packet memory as they were |
| GeneratorSchedule.SoftwareSpacing | sw code/fast-ant/app/ant/main_ant.c:72 | with the interval the software programs, heads are floor((len+20)*80/rate)+1 cycles apart, plus one if 16 does not divide len, if and only if the programmed interval is not negative |
| GeneratorSchedule.Observe | hw code/pgm_rd.v:130-480 | a generator object, new or re-armed, clocked through a whole test shows exactly the scheduled words |
| HeaderParser.Parser.Clock | hw code/gpp.v:124-392 | one clock of the parser: forwarding machine, step counter, metadata, header vector and protocol type |
| HeaderParser.ReaddressFields | hw code/gpp.v:373-392 | readdressing replaces the destination module and protocol type fields and no other bit of the metadata |
| FrameParsing.FeedInside | hw code/gpp.v:191-242 | inside a frame of any length counter, flag, metadata and lanes follow that frame in blocks of 256 words, whatever came before it |
| FrameParsing.FrameVector | hw code/gpp.v:262-321 | with the last word of a frame of any length the vector of its last block is offered, exactly for accepted frames; up to 258 words that is words 2..9 of the frame padded with zeros, independent of earlier packets |
| FrameParsing.FrameStrobes | hw code/gpp.v:262-321 | the metadata and vector strobes come with the last word of an accepted frame and no other |
| FrameParsing.VectorLengths | hw code/gpp.v:191-211 | over all frames of n words and all pasts from reset the vector offered is the frame's own if and only if n is from 3 to 258 |
| FrameParsing.HoleRestartsCount | hw code/gpp.v:191-211 | a cycle without a word inside a frame restarts the count: the next word is taken for the second metadata word and the one after it for the first lane |
| FrameParsing.LongFrameVector | hw code/gpp.v:191-211 | a frame of 259 or more words whose third word is 1 and whose other words are 0 leaves with a vector of zeros |
| FrameParsing.ShortFrameVector | hw code/gpp.v:262-321 | a frame of two words leaves with the vector of the frame before it |
| FrameParsing.FrameForwarded | hw code/gpp.v:124-186 | every word of an accepted frame of any length leaves one cycle later with the valid strobe on its tail, and no word of any other frame |
| FrameParsing.FrameMetadata | hw code/gpp.v:334-392 | a frame of 6 to 257 words with a recognised EtherType leaves with its own two metadata words and its own protocol type |
| FrameParsing.FrameLabel | hw code/gpp.v:322-392 | bit by bit: a frame of 6 to 257 words for module 1 leaves for module 2 labelled 01, 07 or 02 for IPv4 (TCP, UDP, other), 81, 83 or 82 for IPv6, 03 for ARP and E0 for VLAN, every other metadata bit unchanged; frames for other modules leave with their own words |
| FrameParsing.MetadataLengths | hw code/gpp.v:216-242 | over all frames of n >= 2 words with a recognised EtherType and all pasts from reset the metadata is the frame's own if and only if n is from 6 to 257 (or 2, where no frame has an EtherType) |
| FrameParsing.ShortFrameLabel | hw code/gpp.v:334-369 | IPv4/TCP frames of three, four and five words received after reset leave with the wrong protocol type |
| FrameParsing.LongFrameMetadata | hw code/gpp.v:216-242 | an IPv4 frame of 258 or more words for module 5 leaves with word 256 in place of its first word |
| FrameParsing.UnknownTypeLabel | hw code/gpp.v:334-369 | a frame for module 1 of unknown EtherType, or of three or four words whatever its type, is labelled with the type of the vector the parser still holds |
| FrameParsing.FifthLabel | hw code/gpp.v:334-369 | a frame of five words is labelled by its own first lane and the second lane of the frame before |
| FrameParsing.LabelIsTheFramesOwn | hw code/gpp.v:334-392 | the metadata of a frame of up to 257 words for module 1 is the same after every past from reset if and only if it has six words or more and a recognised EtherType, or five words and a type that needs no protocol field (ARP, VLAN) |
| LatencyMonitor.Monitor.Clock | hw code/scm.v:102-190 | one clock of the monitor: pass-through, totals, and the entry that bits 585..576 of the vector name, which with bits 575..544 adds up to the time of arrival mod 2^32 |
| LatencyMonitor.StampReceived | hw code/scm.v:328-346 | the header vector of a received copy of generated packet n addresses entry n mod 1024 and carries the time n was stamped |
| LatencyMonitor.LatencyRecorded | hw code/scm.v:328-346 | from generator through parser to monitor: entry n mod 1024, added to the time packet n was stamped, gives the time of arrival mod 2^32, whatever the parser saw before, and no other entry changes |
| LatencyMonitor.VectorPassed | hw code/scm.v:135-168 | a packet leaves with its own vector on any register contents if and only if it is not for this module |
| LatencyMonitor.LeavesOwnVector | hw code/scm.v:135-168 | over all runs from reset ending with a packet its own vector leaves if and only if it is not for this module |
| LatencyMonitor.StaleVector | hw code/scm.v:135-168 | what leaves with packets for this module is what left before them: zeros after reset or an idle cycle, the vector of the packet before otherwise |
| LatencyMonitor.SilentOtherwise | hw code/scm.v:123-176 | without a packet, and at a statistics reset, everything that leaves is zero |
| LatencyMonitor.MetadataPassed | hw code/scm.v:135-168 | a packet for module 7 leaves for module 4 with every other bit of its metadata unchanged; metadata of others passes as it is |
| LatencyMonitor.TotalsCount | hw code/scm.v:123-160 | over every run the totals are the number of packets for this module, of the protocol type asked for, during a test, since the last reset, and the sum of their lengths, mod 2^64 |
| LatencyMonitor.WatchDelivery | hw code/scm.v:328-346 | clocking parser and monitor through a received copy of packet n, with any gap before it, makes entry n mod 1024 the number that takes the stamped time to the arrival mod 2^32, and changes nothing else |
| LatencyMonitor.LastArrivalWins | hw code/scm.v:328-346 | after a clocked run of deliveries an entry holds the latency of the last one among the packets that share it |
| LatencyMonitor.EveryArrivalKept | hw code/scm.v:328-346 | with at most 1024 packets generated, at the end of a clocked run every packet that arrived, in any order and with any gaps and losses, has its latency in its own entry |
| DataCache.PacketStore.Clock | hw code/data_cache.v:80-170 | one clock of the state machine and its two FIFOs |
| DataCache.FullLoses | hw code/data_cache.v:177-199 | a word that finds 1024 words stored, or a verdict that finds 256, is lost, even when one is read in the same cycle; everything else is kept in order |
| DataCache.AlwaysConsistent | hw code/data_cache.v:80-170 | in every run the stored tails match the undecided verdicts and the read strobes match the state |
| DataCache.NeverReadsEmpty | hw code/data_cache.v:116-152 | a word is sent or dropped only when the FIFO holds one |
| DataCache.RunConserves | hw code/data_cache.v:80-170 | at every moment the words sent so far followed by what remains to be sent are the same stream |
| DataCache.SendsKeptPackets | hw code/data_cache.v:80-170 | the output is at every moment a prefix of, and once drained equal to, the packets whose valid flag is 1, whole and in order |
| DataCache.StrobeOnTail | hw code/data_cache.v:116-135 | the valid strobe comes exactly with a tail on the output, and sending starts only while downstream is not almost full |
| DataCache.StrobePerPacket | hw code/data_cache.v:116-135 | once drained, the strobe has pulsed once per packet sent |
| DataCache.AllKeptPacketsSent | hw code/data_cache.v:80-170 | when input pauses and downstream has room, every kept packet is out within a bound given by what is stored |
| OutputEngine.Goe.Clock | hw code/goe.v:119-266 | one clock of the discard filter, both FIFOs, the counting machine and its two-edge counter memory |
| OutputEngine.FullLoses | hw code/goe.v:568-590 | a word that finds 256 words stored, or a verdict that finds 128, is lost; everything else is kept in order |
| OutputEngineRuns.StepMoves | hw code/goe.v:179-266 | one clock moves at most the first stored word to the bus and keeps the order of all others |
| OutputEngineRuns.AlwaysGood | hw code/goe.v:119-266 | in every run of well-formed packets output, stored words and counters stay accounted for |
| OutputEngineRuns.ForwardsPackets | hw code/goe.v:119-266 | the output is at every moment a prefix of the input packets whose discard bit is 0, whole and in order, for any gaps |
| OutputEngineRuns.CountsPackets | hw code/goe.v:179-266 | once drained the output is exactly those packets and counter f has grown by the number of them with flow id f, mod 2^32 |
| OutputEngineRuns.Drains | hw code/goe.v:179-266 | with the port ready the engine empties within as many cycles as it stores words and packets |
| OutputEngineRuns.ShortPacketOverrun | hw code/goe.v:199-264 | a packet of two or three words makes a fourth word leave that was never offered |
| OutputEngineShort.AlwaysAccounted | hw code/goe.v:199-264 | in every run at least one tail has left for each send ended, and if no more have, every send was one packet of four or more words |
| OutputEngineShort.FourWordsNeeded | hw code/goe.v:199-264 | for every finite stream of packets, offered with any gaps, what leaves is at every moment a prefix of the packets whose discard bit is 0 if and only if each of those has at least four words |
| MacTable.ComparesAddresses | sw code/fast-ant/app/l2switch/main_l2switch.c:77-86 | the exclusive-or of half-words is zero exactly for equal addresses (the function returns nonzero for different ones) |
| MacTable.Switch.UpdateMacTime | sw code/fast-ant/app/l2switch/main_l2switch.c:93-105 | only the expiry and the port of one slot change |
| MacTable.Switch.LearnSmac | sw code/fast-ant/app/l2switch/main_l2switch.c:114-149 | the search and fill loop leaves the array Learned describes and keeps the addresses distinct |
| MacTable.LearnRefinesMap | sw code/fast-ant/app/l2switch/main_l2switch.c:114-149 | seen as a map of capacity 128, learning is map update, or nothing when the address is new and the table full |
| MacTable.Switch.FindDmac | sw code/fast-ant/app/l2switch/main_l2switch.c:159-178 | lookup is map lookup restricted to ports other than the input port, -1 otherwise |
| MacTable.Switch.Age | sw code/fast-ant/app/l2switch/main_l2switch.c:283-298 | one aging pass invalidates exactly the expired slots |
| MacTable.AgeRefinesMap | sw code/fast-ant/app/l2switch/main_l2switch.c:283-298 | seen as a map, aging removes exactly the entries that have expired |
| MacTable.FullTable | sw code/fast-ant/app/l2switch/main_l2switch.c:139-143 | the map has as many entries as the array has slots exactly when every slot is valid |
| MacTable.Switch.Callback | sw code/fast-ant/app/l2switch/main_l2switch.c:334-363 | learns, then sends one copy to the known port or floods |
| MacTable.SendFlood | sw code/fast-ant/app/l2switch/main_l2switch.c:201-213 | the loop sends the sequence Flooded describes |
| MacTable.FloodReachesOthers | sw code/fast-ant/app/l2switch/main_l2switch.c:201-213 | a flood sends exactly one copy to every port below 4 except the input port, and none to any other |
| MacTable.TableIsLive | sw code/fast-ant/app/l2switch/main_l2switch.c:93-149 | after any history of learns and agings with a running clock, the table holds exactly the live addresses, each on the port of its last accepted learn |
| MacTable.AfterAging | sw code/fast-ant/app/l2switch/main_l2switch.c:276-305 | right after an aging pass at time t the valid addresses are exactly those whose last accepted learn was at or after t-10 |
| MacTableInterleaving.StepKeepsInv | sw code/fast-ant/app/l2switch/main_l2switch.c:114-149 | every single read or write of either thread keeps the shared-memory invariant |
| MacTableInterleaving.AddressesStayDistinct | sw code/fast-ant/app/l2switch/main_l2switch.c:114-149 | under every interleaving valid slots keep pairwise distinct addresses |
| MacTableInterleaving.ChosenSlotIsFree | sw code/fast-ant/app/l2switch/main_l2switch.c:133-136 | the free slot the learner has chosen stays free until it is published |
| MacTableInterleaving.ValidMeansFilled | sw code/fast-ant/app/l2switch/main_l2switch.c:144-147 | a slot becomes valid only in the publishing step, with address, port and whole expiry in place |
| MacTableInterleaving.EvictionIsJustified | sw code/fast-ant/app/l2switch/main_l2switch.c:283-298 | a slot is cleared only after the aging thread read it as valid and expired since it last became valid, so never on its previous occupant's expiry |
| MacTableInterleaving.ClearedMeanwhile | sw code/fast-ant/app/l2switch/main_l2switch.c:114-127 | a receive thread that refreshes a slot which is no longer valid had it cleared by the aging thread after it read the slot as valid |
| MacTableInterleaving.RefreshLostExactly | sw code/fast-ant/app/l2switch/main_l2switch.c:283-298 | for every refresh the receive thread decides on, the address is in no slot at some moment before the pass under way ends if and only if, as the new expiry is written, the slot is already cleared or the aging thread stands at its clearing |
| MacTableInterleaving.RefreshCanBeLost | sw code/fast-ant/app/l2switch/main_l2switch.c:283-298 | a run from reset at whose end an address that was just refreshed is gone: the aging thread stands at the clearing |
| MacTableInterleaving.DeadSlotRefreshed | sw code/fast-ant/app/l2switch/main_l2switch.c:118-127 | a second run from reset: the slot is cleared before the new expiry is written to it, and no slot is valid when the receive thread is done |
| MacTablePasses.PassAlone | sw code/fast-ant/app/l2switch/main_l2switch.c:283-298 | with only the aging thread moving, from the start of a pass the next start finds exactly the stale ones of the 128 slots cleared and nothing else changed |
| MacTablePasses.LearnAlone | sw code/fast-ant/app/l2switch/main_l2switch.c:114-149 | with only the receive thread moving, whenever it waits again after a packet the table has learned the packet's address as MacTable describes |
| MacTablePasses.PassReadsEverySlot | sw code/fast-ant/app/l2switch/main_l2switch.c:283-298 | in every interleaving a pass of the aging thread reads the valid bit of each of the 128 slots |
| MacTablePasses.StaleIsCleared | sw code/fast-ant/app/l2switch/main_l2switch.c:283-298 | in every interleaving a slot that stays valid and stale throughout a pass, until it is cleared, is cleared in that pass |
| Md5.Round1 | sw code/fast-ant/lib/libofp/md5.c:131-146 | the unrolled first round equals steps 0..15 of section 3.4 of RFC 1321 with rotating register roles |
| Md5.Round2 | sw code/fast-ant/lib/libofp/md5.c:149-164 | the same for steps 16..31, word order 5i+1 |
| Md5.Round3 | sw code/fast-ant/lib/libofp/md5.c:167-182 | the same for steps 32..47, word order 3i+5 |
| Md5.Round4 | sw code/fast-ant/lib/libofp/md5.c:185-200 | the same for steps 48..63, word order 7i |
| Md5.Encode | sw code/fast-ant/lib/libofp/md5.c:81-93 | words become bytes low-order first |
| Md5.Decode | sw code/fast-ant/lib/libofp/md5.c:103-115 | bytes become words low-order first |
| Md5.Transform | sw code/fast-ant/lib/libofp/md5.c:123-205 | the state becomes the RFC 1321 section 3.4 compression of the state and the decoded block |
| Md5.CounterAdds | sw code/fast-ant/lib/libofp/md5.c:36-39 | the two-word bit counter stays 8*length mod 2^64, carry included |
| Md5.CounterGivesIndex | sw code/fast-ant/lib/libofp/md5.c:34 | the buffer index taken from the counter is the length mod 64 |
| Md5.Context.Update | sw code/fast-ant/lib/libofp/md5.c:31-54 | state is the fold of the compression over the complete blocks, the buffer prefix is the tail and the counter is 8*length mod 2^64, for every way the input is cut |
| Md5.Context.TakeBlocks | sw code/fast-ant/lib/libofp/md5.c:45-46 | the block loop ends with less than a block left and the state the fold over every block before that |
| Md5.Context.Final | sw code/fast-ant/lib/libofp/md5.c:62-72 | the digest is the RFC 1321 digest (sections 3.1 to 3.5) of all bytes taken |
| Md5.DigestOfChunks | sw code/fast-ant/lib/libofp/md5.c:14-72 | however the input is cut into updates shorter than 2^32 - 64 bytes, the digest is that of the concatenation |
| Md5.ShortInputsEnd | sw code/fast-ant/lib/libofp/md5.c:45-46 | for inputs shorter than 2^32 - 64 bytes the 32-bit loop guard ends the block loop where it should |
| Md5.SafeLengths | sw code/fast-ant/lib/libofp/md5.c:45-46 | the 32-bit loop guard never wraps if and only if the input is shorter than 2^32 - 64 bytes with an empty buffer, or than 2^32 - k with k bytes buffered |
| Md5.LongInputsOverrun | sw code/fast-ant/lib/libofp/md5.c:45-46 | when the guard's sum wraps the loop runs once more with less than a block left |
| RuleMatch.Word32Matches | sw code/fast-ant/lib/librule/main_librule.c:358-374 | a 32-bit masked difference is zero exactly when its four bytes match under the mask |
| RuleMatch.CmpKey32 | sw code/fast-ant/lib/librule/main_librule.c:358-374 | the early-exit word loop decides byte-wise masked equality of the whole key |
| RuleMatch.CmpKey | sw code/fast-ant/lib/librule/main_librule.c:376-392 | the 64-bit loop decides the same relation |
| RuleMatch.Oxm2Rule | sw code/fast-ant/lib/librule/main_librule.c:157-162 | the value is stored in reversed byte order and nothing else changes |
| FlowMatch.Builder.Take | sw code/fast-ant/lib/libofp/main_libofp.c:806-965 | one round of the switch applies a value of any width, masked or not, to key, mask, VLAN tag and the variables it is copied through, or reports an unsupported field and changes nothing |
| FlowMatch.Walk | sw code/fast-ant/lib/libofp/main_libofp.c:806-967 | the offset walk visits each TLV once, masked ones like others, stops at the first unsupported field, and otherwise ends at length-4 with the compiled key and mask |
| FlowMatch.EncodeLayout | sw code/fast-ant/lib/libofp/ofp_v4.h:448-453 | a TLV is class, field and mask bit, length and value, as the walk reads it |
| FlowMatch.EncodePrefix | sw code/fast-ant/lib/libofp/main_libofp.c:806-810 | the bytes of TLV k start where the first k TLVs end |
| FlowMatch.FieldNumbers | sw code/fast-ant/lib/libofp/ofp_v4.h:405-432 | the seventeen field numbers the switch knows and the widths OpenFlow gives them |
| FlowMatch.ExactLayout | sw code/fast-ant/lib/libofp/main_libofp.c:822-919 | addresses, EtherType and protocol of the standard width go last byte first to their place in key and, as ones, in mask, and change no other byte |
| FlowMatch.TransportLayout | sw code/fast-ant/lib/libofp/main_libofp.c:921-952 | transport ports go to bytes 28 and 30 of the key for IPv4 and 56 and 58 otherwise, and not to the mask |
| FlowMatch.PortLayout | sw code/fast-ant/lib/libofp/main_libofp.c:812-821 | the input port goes to the high nibble of byte 19 of key and mask |
| FlowMatch.TosLayout | sw code/fast-ant/lib/libofp/main_libofp.c:869-887 | DSCP and ECN go to the upper six and lower two bits of byte 17 of key and mask |
| FlowMatch.ShortPortKept | sw code/fast-ant/lib/libofp/main_libofp.c:812-816 | an input port value of fewer than four bytes leaves the port of the TLV before it in force |
| FlowMatch.TagLayout | sw code/fast-ant/lib/libofp/main_libofp.c:834-857 | the VLAN identifier and priority collect in a tag that key and mask hold in bytes 12 and 13 |
| MatchMeaning.ExtractKey | sw code/fast-ant/lib/libofp/main_libofp.c:2057-2092 | the key of a frame: MAC addresses, type and port, and the IPv4 or IPv6 addresses and protocol; none for other EtherTypes |
| MatchMeaning.KeyLayout | sw code/fast-ant/lib/libofp/main_libofp.c:2057-2092 | every byte of the key of a frame: addresses, type and protocol last byte first at their offsets, the port in byte 19, zeros elsewhere |
| MatchMeaning.KeyHoldsField | sw code/fast-ant/lib/libofp/main_libofp.c:2057-2092 | the key holds each field the frame has, in rule byte order |
| MatchMeaning.CompileFaithful | sw code/fast-ant/lib/libofp/main_libofp.c:806-967 | the compiled key holds every exact value and the mask selects exactly those bytes, although IPv4, IPv6 and port fields overlap |
| MatchMeaning.CompilePort | sw code/fast-ant/lib/libofp/main_libofp.c:812-821 | the port nibble of key and mask is the input port asked for, or empty |
| MatchMeaning.CompiledMatchMeans | sw code/fast-ant/lib/libofp/main_libofp.c:806-967 | for every duplicate-free match that respects its prerequisites, masked comparison with the key of a frame on a port succeeds if and only if the frame has every field value, and the port is the input port, the match asks for; TCP and UDP ports do not take part |
| MaskedMatch.CompiledAsTwo | sw code/fast-ant/lib/libofp/main_libofp.c:822-826 | in any match a masked destination, IPv4 source or IPv6 source address compiles to two exact addresses: the mask as that address and the value as the one behind it |
| MaskedMatch.MaskedMeans | sw code/fast-ant/lib/libofp/main_libofp.c:822-826 | comparing keys then selects exactly the frames that have the mask for the one address and the value for the other |
| MaskedMatch.MaskedDestinationMisses | sw code/fast-ant/lib/libofp/main_libofp.c:822-826 | gives, for every masked destination address, a frame it asks for and the compiled rule does not select |
| PortMeaning.PortIsIgnored | sw code/fast-ant/lib/libofp/main_libofp.c:921-952 | gives, for a match with a TCP or UDP port TLV, a frame and input port that meet everything else but not that TLV and whose key compares equal |
| PortMeaning.PreservedWithoutPorts | sw code/fast-ant/lib/libofp/main_libofp.c:806-967 | over all frames on all ports, comparing keys decides the match the controller meant, transport ports included, if and only if the match has no port TLV |
| RuleTable.FlowTable.RegWrite | sw code/fast-ant/lib/libreg/main_libreg.c:205-218 | a 64-bit register write is the upper word at the address and the lower word after it |
| RuleTable.FlowTable.WriteRule | sw code/fast-ant/lib/librule/main_librule.c:244-271 | the whole table and register space after writing or clearing one slot |
| RuleTable.FlowTable.Init | sw code/fast-ant/lib/librule/main_librule.c:665-686 | the table is cleared, every slot and action register is zeroed and the default action written |
| RuleTable.FlowTable.RuleExists | sw code/fast-ant/lib/librule/main_librule.c:420-434 | the least live slot with the digest, or -1 |
| RuleTable.FlowTable.RuleExistsAdd | sw code/fast-ant/lib/librule/main_librule.c:446-468 | that slot, and the first free slot met before the search stopped |
| RuleTable.FlowTable.Add | sw code/fast-ant/lib/librule/main_librule.c:480-499 | new state and returned value of an add |
| RuleTable.FlowTable.Modify | sw code/fast-ant/lib/librule/main_librule.c:514-523 | new state and returned value of a modification, out-of-range index included |
| RuleTable.FlowTable.Delete | sw code/fast-ant/lib/librule/main_librule.c:536-545 | new state and returned value of a deletion, out-of-range index included |
| RuleTable.FlowTable.Match | sw code/fast-ant/lib/librule/main_librule.c:394-407 | the action of the least live rule that matches, with its slot left in the key; 0xFFFFFFFF and an unchanged key otherwise |
| RuleTable.ReadBack | sw code/fast-ant/lib/librule/main_librule.c:173-200 | reading a rule register gives back the value written, so the half-word swaps cancel |
| RuleTable.WordsAt | sw code/fast-ant/lib/librule/main_librule.c:259-262 | after the writing loop each register word of the slot is the corresponding 32-bit word of the rule in memory, and no other word changed |
| RuleTable.RuleLayout | sw code/fast-ant/include/fast_struct.h:246-269 | the 32-bit words of a rule in memory: sixteen of key, sixteen of mask, then priority, valid, action, record length and record address |
| RuleTableRuns.AlwaysMirrored | sw code/fast-ant/lib/librule/main_librule.c:173-271 | from init_rule on, after any adds, modifications and deletions, every slot's valid and priority words agree with the table, key and mask words too if it is live, action registers agree, and the default action is the initial one |
| RuleTableRuns.RewrittenElsewhere | sw code/fast-ant/lib/librule/main_librule.c:244-271 | writing a slot touches no register word outside that slot and its action |
| RuleTableRuns.AlwaysUnique | sw code/fast-ant/lib/librule/main_librule.c:420-545 | over runs whose modifications keep the digest, live rules have pairwise distinct digests |
| RuleTableRuns.AddOutcome | sw code/fast-ant/lib/librule/main_librule.c:480-499 | a new digest goes to the least free slot and touches no other; a present digest or a full table changes nothing |
| RuleTableRuns.ResultIsTheSlot | sw code/fast-ant/lib/librule/main_librule.c:480-499 | the value fast_add_rule returns names the rule's slot if and only if the digest was absent and there was room |
| RuleTableRuns.Perform | sw code/fast-ant/lib/librule/main_librule.c:480-545 | a table object driven through any list of operations ends in the state, and returns the values, the run functions give |
| FlowMod.ReadActions | sw code/fast-ant/lib/libofp/main_libofp.c:983-1011 | the action loop: drop if no action is an output, otherwise the last output's port decides, a board port below 10 or else the controller; the message is a default rule if and only if its match is empty and some output is to port 0xFFFFFFFD |
| FlowMod.VerdictMeans | sw code/fast-ant/lib/libofp/main_libofp.c:983-1011 | the same of the function, and that the action is drop if and only if there is no output |
| FlowMod.BuildRecord | sw code/fast-ant/lib/libofp/main_libofp.c:1013-1035 | the statistics record, field by field, for any number of instructions: the first is copied, and every copy stays inside an allocation as long as the message |
| FlowMod.RecordLayout | sw code/fast-ant/lib/libofp/main_libofp.c:1017-1035 | every byte of the record: length, priority, timeouts, flags and cookie of the message at their offsets in struct ofp_flow_stats, the match, the first instruction, zeros everywhere else |
| FlowMod.MatchLayout | sw code/fast-ant/lib/libofp/main_libofp.c:1033 | the match in it: type 1, its unpadded length, the TLVs as received, zeros up to a multiple of eight |
| FlowAgentRuns.RecordIsGood | sw code/fast-ant/lib/libofp/main_libofp.c:1020-1035 | a record's length field is the size of header, match and first instruction and lies inside its block of at most 1608 bytes, and its cookie field is the message's cookie |
| FlowHandlers.Identify | sw code/fast-ant/lib/libofp/main_libofp.c:1047-1049 | the MD5 context over key, mask and priority gives the rule its identity digest |
| FlowAgent.IdentityInjective | sw code/fast-ant/lib/libofp/main_libofp.c:1047-1049 | the 132 digested bytes of two rules are equal if and only if key, mask and priority are |
| FlowAgent.DigestOfRule | sw code/fast-ant/lib/libofp/main_libofp.c:1047-1049 | the digest kept with the rule of a message is the MD5 digest of the 64 bytes of its key, the 64 of its mask and its priority as a little-endian word |
| FlowHandlers.CompileRule | sw code/fast-ant/lib/libofp/main_libofp.c:781-967 | the rule of a message, or not known when some field is unsupported |
| FlowHandlers.FlowState.Resolve | sw code/fast-ant/lib/libofp/main_libofp.c:1050-1150 | what the command does to a compiled rule, with frees only of allocated blocks; overflow exactly when a new rule finds the table full |
| FlowHandlers.FlowState.HandleFlowModAdd | sw code/fast-ant/lib/libofp/main_libofp.c:781-1153 | the new table, registers, record array and heap for every branch, including ignored messages and the default rule; no block is freed twice |
| FlowHandlers.FlowState.HandleFlowModDelete | sw code/fast-ant/lib/libofp/main_libofp.c:1166-1205 | delete-all and delete-by-cookie, slot by slot |
| FlowHandlers.FlowState.HandleFlowMod | sw code/fast-ant/lib/libofp/main_libofp.c:1215-1241 | dispatch by command, keeping the soundness invariant |
| FlowAgentRuns.AlwaysSound | sw code/fast-ant/lib/libofp/main_libofp.c:1013-1205 | over every run of flow_mods: a record in slot i means rule i is live and points to it, records are allocated and unshared, live rules have distinct digests, the words of live rules are mirrored, and the hardware acts on exactly the rules that have a record |
| FlowAgentRuns.PointerIsRecord | sw code/fast-ant/lib/libofp/main_libofp.c:1172-1185 | in those states the address a live rule keeps is that of its slot's record if and only if the slot has a record |
| FlowAgentRuns.DeleteAllDangles | sw code/fast-ant/lib/libofp/main_libofp.c:1172-1185 | after delete-all every rule that had a record still holds its address, in the table and in register word 36 of its slot, and that block is free |
| FlowAgentRuns.DefaultIsSetOnce | sw code/fast-ant/lib/libofp/main_libofp.c:1037-1045 | once the default rule has a record, no message changes that record or the default action |
| FlowAgentRuns.CleanedSlots | sw code/fast-ant/lib/libofp/main_libofp.c:1186-1203 | deletion by cookie removes rule and record of exactly the slots whose record has the cookie |
| FlowAgentRuns.DeleteAllOutcome | sw code/fast-ant/lib/libofp/main_libofp.c:1172-1185 | delete-all drops every record and hardware action but keeps the rules; registers and table agree on the actions again if and only if every rule's action was drop |
| FlowAgentRuns.ReAddIgnored | sw code/fast-ant/lib/libofp/main_libofp.c:1145-1149 | adding (or non-strictly modifying) a rule that is live changes nothing, which after delete-all is every old rule |
| FlowSemantics.StrictDeleteUndoesAdd | sw code/fast-ant/lib/libofp/main_libofp.c:799-1115 | after the add of a new rule, a strict deletion with the same match and priority restores rules, records and actions if and only if it has an instruction and is not taken as the default rule |
| FlowSemantics.StrictModifyKeepsMatch | sw code/fast-ant/lib/libofp/main_libofp.c:1116-1123 | a strict modification of a rule just added keeps mask and priority; it keeps the key if and only if translating the input port changes nothing, and the packets selected if and only if the two ports agree under the mask |
| FlowSemantics.ModifyMovesPort | sw code/fast-ant/lib/libofp/main_libofp.c:1060-1123 | a match on logical port 1 that is physical port 2 is moved to port 1 by a strict modification |
| FlowSemantics.RecordsLost | sw code/fast-ant/lib/libofp/main_libofp.c:1050-1150 | a message leaves a record nobody refers to if and only if it reaches its rule and either deletes it strictly or is to insert it into a full table |
| FlowHistory.AlwaysMade | sw code/fast-ant/lib/libofp/main_libofp.c:1050-1150 | over every run of flow_mods each live rule has the key, mask, priority and action the message that last stored it gave it, and a slot without such a message is not live |
| FlowHistory.MadeSelects | sw code/fast-ant/lib/libofp/main_libofp.c:1054-1063 | a rule selects the key of a frame if and only if its message wants the frame, on the physical port for an add and on the port as sent for a strict modification |
| FlowHistory.LookupDoesWhatWasAsked | sw code/fast-ant/lib/librule/main_librule.c:394-407 | after every run of flow_mods, looking a frame up returns what the message of the first slot that wants it asked for by its last output: the port, the controller, or drop if it has none; and 0xFFFFFFFF if and only if no slot's message wants the frame |
| FlowHistory.NoMatchMeansNone | sw code/fast-ant/lib/librule/main_librule.c:394-407 | after every run of flow_mods, whatever the matches, 0xFFFFFFFF is returned if and only if no live rule selects the key |
| FlowHistory.DefaultDoesWhatWasAsked | sw code/fast-ant/lib/libofp/main_libofp.c:1037-1045 | the default action becomes what a message asks for by its last output if and only if there is no default rule, the match is empty and some output is to the controller; no other message changes it |
| RulePriority.OverlapIsAgreement | sw code/fast-ant/lib/librule/main_librule.c:394-407 | some key is selected by two live rules if and only if their keys agree, byte by byte, in the bits both masks select |
| RulePriority.HighestExactly | sw code/fast-ant/lib/librule/main_librule.c:394-407 | the first matching rule has the greatest priority for every key if and only if each rule standing before an overlapping one of higher priority is preceded, on their common keys, by a slot that takes them |
| RulePriority.HighestAfterDeletions | sw code/fast-ant/lib/librule/main_librule.c:394-407 | it has so in the table and in every table left by deletions if and only if no rule stands before an overlapping one of higher priority |
| FlowPriority.LookupIsHighest | sw code/fast-ant/lib/librule/main_librule.c:394-407 | after every run of flow_mods that leaves the table in that order, a frame some message wants gets the action of a message of greatest priority among those that want it |
| FlowPriority.FirstAddWins | sw code/fast-ant/lib/librule/main_librule.c:394-407 | after two adds on a fresh table a frame the first one wants gets its action, whatever the priorities |
| FlowPriority.PriorityIsIgnored | sw code/fast-ant/lib/librule/main_librule.c:394-407 | all of IPv4 to port 1 at priority 1 and then TCP to port 2 at priority 100: a TCP frame goes to port 1 |
| StatsReply.FlowStatsReply | sw code/fast-ant/lib/libofp/main_libofp.c:1367-1404 | the reply is the headers and then the entries of all records in slot order, each as long as its length field says, with every write inside the buffer and the second pass ending where the first pass said |
| StatsReply.FitsExactly | sw code/fast-ant/lib/libofp/main_libofp.c:1375-1384 | the records of every prefix of the slots end within the buffer sized in 16 bits if and only if the total fits in 16 bits |
| StatsReply.AlwaysFits | sw code/fast-ant/lib/libofp/main_libofp.c:1375-1384 | in every reachable state it does |

## Left out

- Sockets, netlink, pcap, ioctl, printing, argument parsing and threads other than the aging thread of the switch: input and output. The clock, received packets, malloc's results and the port map are parameters.
- GeneratorBypass.PassesUnchanged: packets of other priorities that find the generator idle and are followed by two idle cycles; passed between the storing and the end of a test such traffic can hold the start flag up.
- PROBE_S (lat_flag = 1) is in the transition of the replay side; no theorem is about it, since the source marks it for rewriting.
- GeneratorSchedule.ScheduleIsExact: one test of an idle generator, whose packet has at most 128 words, priority 7 and arrives in consecutive cycles (after any idle gap by `ScheduleAfterIdle`), with lat_flag 0 and no soft reset between the end of the test and the cycle in question.
- The local-bus configuration machines, status counters and the token-bucket variant of the generator.
- `hw code/blk_mem_gen_v8_4.v` beyond its read latency, and reads of an address in the cycle it is written. `ram_32_256` is not part of this model beyond the same two-edge latency.
- The FIFOs are show-ahead queues of the depths configured; almost-full flags are inputs, and overflow is excluded by the run theorems, not by the transitions.
- Writes of the output engine's counters by software.
- MacTableInterleaving.StepKeepsInv: shared memory is sequentially consistent, one read or write of a field at a time, and the MAC comparison reads half a word pair at a time; weaker memory orders are not modelled.
- MatchMeaning.CompiledMatchMeans: TLVs for VLAN, DSCP and ECN are compiled by `FlowMatch.Walk` but are outside the theorem, because the software key does not extract those fields; the port of a lookup is a parameter, whatever numbering the caller uses; and the match repeats no field and respects the prerequisites of the specification, as a controller has to send it.
- FlowHistory.LookupDoesWhatWasAsked: the matches of the rules in the table are of the kind `MatchMeaning.CompiledMatchMeans` is about.
- FlowMatch.Builder.Take: a value fits into the rest of the key behind its field, or into the variable it is copied to; the code copies up to 255 bytes to either.
- FrameParsing.LabelIsTheFramesOwn: frames of up to 257 words; beyond that the metadata is not the frame's own even for recognised types.
- LatencyMonitor.EveryArrivalKept: parser and monitor are one behind the other; the modules between them pass strobe and vector on, and the time of an arrival is when the monitor sees it.
- FlowMatch.Walk: values fit as for `FlowMatch.Builder.Take`, and the OXM class, which the code does not read, is the basic one.
- The aging times and installation times kept beside the records, and the counters that the aggregate request writes into them, because they take no part in the properties here; the thread that would use the aging times is never started.
- RuleTable.FlowTable.WriteRule: cookie and cookie mask of a rule, which no code reads back from the table.
- read_hw_rule and the print functions, which swap bytes for display only; write_rule_bv, which is not compiled in.
- The 64-rule board S28, where the last rule's action register is also the default action register.
- malloc failing.
