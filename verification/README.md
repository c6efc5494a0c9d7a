# A verified model of the SOEM EtherCAT master

SOEM is an EtherCAT master library in C. This project models its hardest parts in Dafny and proves
what they are for. `dafny verify dfyconfig.toml` checks everything.

* **Topology and clocks.** `SlaveTree` says what one broadcast frame does in a tree of slaves: the
  order in which slaves are numbered, the ports they use and the times they latch. `Topology` is
  the backward scan that finds every slave's parent again from link counts alone;
  `DistributedClocks` the visit that computes propagation delays from the latched times, also
  with slaves that have no clock or are entered on another port than 0. Both are proved to recover the
  tree and the arrival times of the frame.
* **Mailboxes.** `MailboxQueue` has the pool and the rotating transmit queue as classes,
  `MailboxSystem` the whole mailbox layer as a state machine of client and handler steps (one step
  for each region under a mutex and each assignment without one). `MailboxInvariant`,
  `MailboxSteps` and `MailboxRuns` prove the invariant, what follows from it in every run, and
  exactly which step can break it: a client that fills the last free slot of the queue between the
  handler's rotation of a mailbox and its look at the flag of the slot it rotated from. `Ring` is
  the index arithmetic, `MailboxTargets` says which slave gets a message, `MailboxSend` is the life of
  one mailbox handed to `ecx_mbxsend`.
* **Process image.** `Mapping` maps one slave, `Group` all slaves of a group, `Segments` cuts the
  image, `ProcessData` exchanges it. The exchange in segments is proved to be one exchange of the
  whole image exactly when at most 16 are sent; the working counter is compared with the one
  expected at configuration, and with that of a single datagram, with the exact difference and
  condition for each.
* **Frames.** `Datagram` builds chains of datagrams in a byte buffer, `IndexMatching` finds out
  whose reply came in, with any number of clients, lost frames and sends that fail, `Redundancy`
  puts the answer together from two cables.
* **Segmented protocols.** `Eoe`, `Foe` and `Sdo` cut data into mailboxes and put them together.
* **EEPROM.** `SiiCache` is the byte cache, `SiiWalk` the section walker and the adding up of
  process data objects, `IntelHex` the writer and reader of Intel Hex files.
* `Bytes` holds what several of these need.

State that the program updates in place is in classes and arrays whose methods are proved against
functions on values; the theorems are lemmas about those functions. Automatic induction is switched
off for every lemma; a proof by induction makes its own calls. Bit fields that do not overlap
are written as sums of multiples, their masks and shifts as remainders and quotients.

Places where the code does less than its comments or callers assume are kept as they are, each with
the condition that separates good from bad and an input on the bad side:

* the mailbox queue race just described (`MailboxRuns.GuardIsExact`, `MailboxRuns.RaceIsReachable`);
* frame indices: one taken while all are in use, one used again while a frame sent under it is still
  on the wire, and one marked empty by a send that failed (`IndexMatching.GuardIsExact`,
  `IndexMatching.FullIsReachable`, `IndexMatching.StaleIsReachable`);
* process images of more than 16 segments, of which the later ones are sent and not read back
  (`ProcessData.CycleRefines`, `Group.TooManySegments`);
* the expected working counter: one too high for a slave that is larger than a segment and comes
  when the open segment is full to the byte (`ProcessData.HitsArePieces`,
  `ProcessData.FullThenLarger`), and the count for mailbox status bytes (`Group.StatusExactly`,
  `Group.OneStatus`);
* an SDO write that reports success though something is missing (`Sdo.ReportedButIncomplete`,
  `Sdo.ThreeFrames`), and an SDO read (`Sdo.ReadButIncomplete`, `Sdo.TruncatedRead`);
* an FoE write that reports success while the receiver still waits (`Foe.TransferDelivers`,
  `Foe.StalledTransfer`);
* the walk over the EEPROM: sections behind the buffer, steps that wrap round, and a section of no
  process data objects (`SiiWalk.FindInImage`, `SiiWalk.BehindTheBuffer`, `SiiWalk.WalkForEver`,
  `SiiWalk.ObjectsListed`);
* propagation delays where slaves without a clock branch (`DistributedClocks.DelaysAreArrivals` for
  every tree, `DistributedClocks.ForkMisleads` for a fork that misleads, `DistributedClocks.ForkBeside`
  for one that does not).

Smaller ones are the empty parameter of an SDO write, EoE frames of more than 63 blocks or with a last
fragment that does not fit, and hex files of nothing or of more than 65536 bytes.

Constants are those of `CMakeLists.txt`: 16 frame buffers, 64 segments, 8 sync managers, 4 FMMUs,
an EEPROM buffer of 4096 bytes.

## Model

| member | source | states |
|---|---|---|
| Topology.FindParents | src/ec_config.c:311-339 | the search loop stores, for every slave but the master, the result of the backward scan with the counter of open ends |
| Topology.SubtreeSinks | src/ec_config.c:311-339 | link counts of every subtree in numbering order sum to one open end less than any of their proper suffixes: the scan passes over whole subtrees |
| Topology.ParentsAreTreeParents | src/ec_config.c:311-339 | for every tree of at most three children a slave the scan gives each slave exactly its parent in the tree |
| DistributedClocks.LatchTimes | src/ec_dc.c:294-307 | the times read back from a slave are the ones it latched |
| DistributedClocks.TakeParentPort | src/ec_dc.c:214-242 | takes the first port left of a parent in the order 3, 1, 2, 0, and only that one |
| DistributedClocks.FindDcParent | src/ec_dc.c:354-360 | walks up to the next ancestor with a clock |
| DistributedClocks.ComputeDelay | src/ec_dc.c:371-402 | the delay from the differences of the latched times at parent and slave |
| DistributedClocks.MeasureDelays | src/ec_dc.c:272-425 | the loop over all slaves leaves the records that visiting them one by one specifies |
| DistributedClocks.DelayFits | src/ec_dc.c:371-406 | put on the right port, a slave gets the time the frame takes to it from the slave with a clock above, whatever offset either clock has and wherever the slave hangs, but for half the difference between the times the frame spends on side branches after and before |
| DistributedClocks.EntryAndLastPort | src/ec_dc.c:170-352 | the port with the lowest time is the one the frame entered by, and the active port before it is where the frame came back last |
| DistributedClocks.BranchFits | src/ec_dc.c:371-402 | in every branch laid out by the frame, at every slave of it: the round trip through the port of the slave with a clock above is twice the way to the slave, the time behind that and the time on side branches |
| DistributedClocks.PortInTurn | src/ec_dc.c:214-242 | of the ports left of the slave with a clock above, the first names the one the branch hangs on exactly when as many have been taken as that slave has branches before it |
| DistributedClocks.DelaysAreArrivals | src/ec_dc.c:272-425 | for every tree in which each slave processes the frame before it passes it on, all link delays and clock offsets and whichever port slaves are entered on: entry ports are the true ones, of each slave's ports those are left that no slave took, and a slave is put on the right port with the time the frame took as its delay if and only if as many ports have been taken as there are branches before its own and the frame spends as much time on side branches before it as after |
| DistributedClocks.ForksLastAreRight | src/ec_dc.c:272-425 | so for every tree in which no slave with a clock comes behind or, below the same clock, after a slave without one that branches: the delays of any two slaves with a clock differ by the time the frame takes between them, and all are put on the right ports |
| DistributedClocks.ForkFails | src/ec_dc.c:354-402 | the condition fails for both slaves with a clock behind a fork without one: for one by the way to the other and back, for the other because it is not its turn |
| DistributedClocks.ForkMisleads | src/ec_dc.c:354-402 | there a delay comes out too long by the way to the other branch, and the second branch is put on the wrong port |
| DistributedClocks.ForkBeside | src/ec_dc.c:408-423 | a fork on the last branch with no clock behind it does no harm |
| MailboxQueue.MbxPool.GetMbx | src/ec_main.c:264-279 | takes the mailbox at the tail of the ring of free ones, or none when the ring is empty |
| MailboxQueue.MbxPool.DropMbx | src/ec_main.c:286-304 | puts a mailbox at the head of the ring |
| MailboxQueue.MbxQueue.AddQueue | src/ec_main.c:353-377 | puts a mailbox in the slot at the head under the first free ticket, or refuses when the queue is full |
| MailboxQueue.MbxQueue.DoneQueue | src/ec_main.c:385-402 | releases a ticket exactly when its slot is done |
| MailboxQueue.MbxQueue.ExpireQueue | src/ec_main.c:410-427 | releases a ticket whenever its slot has a state, done or not, and marks the slot to be removed |
| MailboxQueue.MbxQueue.RotateQueue | src/ec_main.c:435-469 | moves the slot at the tail and its ticket to the head, unless the slot has no ticket or the ring is empty or full |
| MailboxQueue.MbxQueue.DropQueue | src/ec_main.c:493-508 | clears a slot, moves the tail and gives the mailbox back |
| MailboxInvariant.RoomInPool | src/ec_main.c:286-304 | while some mailbox is not in the pool the pool's ring has room for it |
| MailboxInvariant.RoomInTickets | src/ec_main.c:353-377 | a queue that is not full has a free ticket, through any number of rotations |
| MailboxSteps.TurnKeeps | src/ec_main.c:435-469 | turning the tail to the head keeps the one-to-one match of tickets and slots, the order of the ring and the place of every mailbox |
| MailboxSteps.DropKeeps | src/ec_main.c:1478-1487 | dropping a slot at the tail that was given up keeps them |
| MailboxSteps.StepKeeps | src/ec_main.c:1220-1490 | every step of clients and handler but the unsafe one keeps the invariant of the mailbox layer |
| MailboxRuns.MailboxesAreConserved | src/ec_main.c:264-326 | in every reachable state every mailbox of the pool is in exactly one place: free, held by a client, in the handler, in a queue slot or in one protocol slot of one slave; no ring over- or underflows |
| MailboxRuns.TicketsAreSlots | src/ec_main.c:353-508 | in every reachable state live tickets and slots not given up stand for each other one to one, and a queue with room has a free ticket |
| MailboxRuns.DoneMeansSent | src/ec_main.c:385-402 | a client is told its mailbox is done only after a slave accepted the very message the ticket was issued for |
| MailboxRuns.SentOnce | src/ec_main.c:1453-1472 | the handler never sends a message that a slave has already accepted |
| MailboxTargets.AcceptedAsAsked | src/ec_main.c:353-469 | in every run without the unsafe step every message that a slave has accepted was queued for that very slave, through whatever rotations |
| MailboxRuns.UnguardedBreaks | src/ec_main.c:1480-1486 | from every reachable state in which the unsafe step can be taken, it and three more steps drop a slot that was not to be removed and leave one in the ring that nothing removes |
| MailboxRuns.DeadTailStays | src/ec_main.c:1449-1488 | the handler looks at such a slot at the tail and leaves the queue as it found it |
| MailboxRuns.GuardIsExact | src/ec_main.c:1478-1487 | from a sound state a step leads to one from which some guarded run leaves a slot in the ring that nothing removes, if and only if it is the unsafe step |
| MailboxRuns.RaceIsReachable | src/ec_main.c:1478-1487 | for every pool of two or more mailboxes there is a run that reaches the unsafe step |
| MailboxSend.MbxSend | src/ec_main.c:1521-1580 | with a cyclic handler the send succeeds exactly when the queue has room in time and then reports the ticket done in time; without that the ticket, once taken, is given up, and without room the mailbox is dropped; without a handler it is written once, or twice when the first write fails and the slave's mailbox is empty, and succeeds exactly when a write did; the mailbox is given up exactly once on every path |
| Mapping.SkipTo | src/ec_config.c:784-787 | the next sync manager of the wanted kind, the last one when there is none |
| Mapping.TakeSms | src/ec_config.c:784-812 | which sync managers feed one FMMU, of any 16-bit lengths: from the first eligible one on, as long as more bits are wanted and the next one joins; where the next FMMU goes on; the counts of bits and, on 16 bits, bytes |
| Mapping.MapBits | src/ec_config.c:814-834 | a slave of up to seven bits gets one FMMU over exactly the bits from the cursor on, and the cursor moves on by them |
| Mapping.CreateMappings | src/ec_config.c:756-1021 | the loop ends when some eligible sync manager has bytes, the FMMUs of the slave cover its place without gap or overlap, and the cursor ends where the place does; each FMMU has the type of its direction, starts at the address of the first sync manager of its run, the first eligible one or that at which the run before stopped, and is as long as the bytes counted so far or still needed |
| Mapping.OneFmmu | src/ec_config.c:784-834 | a slave whose bytes are in the first sync manager of the kind has one FMMU, from the address of that to its place |
| Mapping.JoinedSms | src/ec_config.c:797-812 | so has one whose bytes are in two of which the second begins no later than the first ends |
| Mapping.ApartSms | src/ec_config.c:797-848 | otherwise each of the two has its own FMMU |
| Mapping.TilesApart | src/ec_config.c:756-1021 | FMMUs that cover a place in turn stay inside it and do not overlap |
| Segments.Segmenter.AddBlock | src/ec_config.c:1108-1127 | the block of one slave is added to the table of segments, with the working counts expected for it |
| Segments.Segmenter.AddFill | src/ec_config.c:1130-1143 | the byte that completes the outputs, or the inputs, is added |
| Segments.Segmenter.AddStatus | src/ec_config.c:1226-1241 | the status byte of a slave is added, or a new segment opened for it |
| Segments.BlockKeeps | src/ec_config.c:1108-1127 | adding a block keeps every segment within what a frame takes, adds exactly its bytes and leaves closed segments alone |
| Segments.FillKeeps | src/ec_config.c:1130-1143 | so does the completing byte |
| Segments.FillExactly | src/ec_config.c:1130-1143 | the completing byte goes into the open segment while that has room, else it begins the next and one more count is expected |
| Segments.StatusKeeps | src/ec_config.c:1226-1241 | so does a status byte |
| Segments.BlockUndivided | src/ec_config.c:1110-1124 | a block is left in one piece exactly when it is no larger than the limit of the open segment, or that is full to the byte and the block fits the next |
| Group.SlavesInOrder | src/ec_config.c:1087-1218 | the data of a slave end before those of every later slave begin |
| Group.SegmentsCoverImage | src/ec_config.c:1069-1253 | for every group the segments add up to the bytes allocated, the first fits a frame with its clock datagram and the others fit a frame |
| Group.SlaveUndivided | src/ec_config.c:1108-1127 | with whole bytes for every slave, a slave whose data fit the smallest segment is in one segment of the final image |
| Group.SlaveCountedOnce | src/ec_config.c:1108-1127 | so in an exchange of that image no segment boundary divides it |
| Group.ExpectedCollected | src/ec_config.c:1116-1127 | the working counter that all segments of an image collect from the slaves of a phase is the one counted when they were mapped, less what was counted for slaves counted once too often |
| Group.FillExpected | src/ec_config.c:1130-1143 | the completing byte of a phase is expected to count exactly as often as it opens a segment |
| Group.PhaseCounted | src/ec_config.c:1087-1218 | this for the outputs and for the inputs of every group mapped in whole bytes |
| Group.GroupCounted | src/ec_config.c:1023-1241 | twice the expected count for outputs plus that for inputs is the counter of a cycle over all ranges that count, plus what is counted once too often, plus the status bytes expected to count, less those that do |
| Group.StatusExactly | src/ec_config.c:1055-1057 | a slave's status byte counts besides its inputs exactly when it has none or a segment boundary lies between the last of them and it; the program is right about it exactly for slaves without inputs, those of whole bytes with no such boundary and those of a few bits with one |
| Group.OneStatus | src/ec_config.c:1023-1060 | a slave with a mailbox, without outputs and with up to 1466 bytes of inputs: the program expects its status byte to count exactly when it has less than a byte of inputs, and it does exactly when it has none or they fill the segment; so a slave of four bits, and one of 1466 bytes, is on the bad side |
| Group.SeventeenSegments | src/ec_config.c:1062-1256 | a group of three slaves whose image needs 17 segments |
| Group.TooManySegments | src/ec_main.c:2350-2361 | whatever its image, a cycle does not do to it what one datagram would do |
| Group.MapStatuses | src/ec_config.c:1023-1060 | a slave gets one status byte exactly when it has a mailbox and an FMMU left, each behind the one before, read from the status register of sync manager 1 |
| Group.MapGroup | src/ec_config.c:1062-1256 | the whole mapping: every slave's FMMUs cover its place in the outputs or inputs and reach its sync managers there, status bytes follow for exactly the slaves with a mailbox and an FMMU left, the sizes are those of the plan, the table holds the segments of the image, and the expected working counts are those of the plan |
| Group.FmmusApart | src/ec_config.c:756-1021 | FMMUs of a group stay within their phase and come in order without overlap, within a slave and between slaves |
| Group.PhasesApart | src/ec_config.c:1149-1218 | outputs end where the inputs begin, inputs within the input bytes |
| ProcessData.Context.PushIndex | src/ec_main.c:2350-2361 | the stack takes one more entry, or forgets it when it is full |
| ProcessData.Context.Send | src/ec_main.c:2408-2582 | the datagrams sent tile the image in order up to its end, each pushed with the place of its data, the first with the clock, as far as the stack goes |
| ProcessData.Context.Receive | src/ec_main.c:2593-2669 | every answer that came is copied to the place of its datagram, whatever else is missing, the counters are added up, and no frame at all is told apart from a count of zero |
| ProcessData.TilesCollect | src/ec_main.c:2611-2659 | answers to datagrams that tile the image make it, segment by segment, what the slaves make of it, and the counter the sum over the segments |
| ProcessData.Cycle | src/ec_main.c:2408-2669 | one cycle of at most 16 segments does to the image what one datagram would do, byte by byte, and counts them; with more it leaves the bytes from the end of the sixteenth on, does this for every earlier segment whose index is not used again, and in both cases leaves the stack empty |
| ProcessData.CycleRefines | src/ec_main.c:2350-2361 | whatever a cycle may make of the image is what one datagram would make of it, for every bus, if and only if at most 16 segments are sent |
| ProcessData.CountersAgree | src/ec_main.c:2618-2635 | the counter of a cycle is at least that of one datagram over the image, and equal to it exactly when no range that counts is divided between segments |
| ProcessData.PiecesCount | src/ec_main.c:2618-2635 | a range is counted once exactly when no segment boundary lies inside it |
| ProcessData.StatusCounts | src/ec_config.c:1055-1057 | a slave with a status byte is counted for it, besides its inputs, exactly when the segment of the status byte holds none of them |
| ProcessData.HitsArePieces | src/ec_config.c:1116-1127 | the count expected for a slave is the number of segments of the final image it is in, but for one too many in one case that is given exactly |
| ProcessData.FullThenLarger | src/ec_config.c:1116-1127 | that case arises: a first slave that fills the first segment and a second one that is larger |
| Datagram.TxBuffer.SetupDatagram | src/ec_base.c:66-90 | the buffer holds exactly the one datagram, with cleared data for commands that only read |
| Datagram.TxBuffer.AddDatagram | src/ec_base.c:107-144 | the buffer holds the chain with one more datagram at its end, the first one announces another, and the result is where its data will be in the receive buffer |
| Datagram.WalkExactly | src/ec_base.c:117-144 | walking a chain by lengths and follows bits finds exactly the datagrams added, exactly when all but the last announce another |
| Datagram.ReplyData | src/ec_base.c:141-144 | in a reply with the same lengths the offset returned for a datagram is where its data are |
| Datagram.LastCounter | oshw/linux/nicdrv.c:425-433 | the word that the frame length points at is the working counter of the last datagram |
| Datagram.BuildStatusReads | src/ec_main.c:867-891 | one status read for every slave of the list, in order, all but the last announcing another, with the positions of their replies |
| Datagram.CollectStatus | src/ec_main.c:892-901 | every slave of the list gets the reply to its own datagram, and nothing changes without a reply |
| IndexMatching.Port.GetIndex | oshw/linux/nicdrv.c:218-250 | the first empty index after the last one taken, whenever there is an empty one; otherwise the next, still in use |
| IndexMatching.Port.InFrame | oshw/linux/nicdrv.c:373-463 | takes the reply from the buffer, or keeps the packet read for whoever waits for it, or passes it over; returns the working counter of the reply for this index, from buffer or wire, else that there was no frame or another one |
| IndexMatching.StepKeeps | oshw/linux/nicdrv.c:218-463 | taking, sending, receiving, losing and releasing keep the match of buffers, wire and waiting clients, with one client and one frame on the wire for an index, but for the unsafe steps |
| IndexMatching.RepliesMatch | oshw/linux/nicdrv.c:373-463 | in every such run, in whatever order frames arrive and whoever reads them, a client gets the reply to its own transmission and is returned the working counter of that, and no reply is read twice |
| IndexMatching.ReceivedIsKept | oshw/linux/nicdrv.c:407-445 | no reply a client waits for is thrown away, whichever client reads it: the owner has it at once or with its next look, and is returned its working counter |
| IndexMatching.GuardIsExact | oshw/linux/nicdrv.c:218-292 | from a sound state a step leaves every client safe from another's reply, whatever guarded steps follow, if and only if it takes no index in use, sends under no index with a frame on the wire and is no send that fails |
| IndexMatching.StaleIsReachable | oshw/linux/nicdrv.c:218-292 | for a port of any size there is a guarded run to a send under an index with a frame on the wire |
| IndexMatching.FullIsReachable | oshw/linux/nicdrv.c:231-246 | and one of as many requests as there are indices to the taking of an index in use |
| Redundancy.UpPasses | oshw/linux/nicdrv.c:477-574 | going up the chain from a slave is one pass over the slaves up to the cut or the end |
| Redundancy.Port.OutFrameRed | oshw/linux/nicdrv.c:299-330 | what is on its way to either socket after request and dummy went out, for every cut |
| Redundancy.Port.WaitInFrameRed | oshw/linux/nicdrv.c:477-574 | which frame becomes the answer and when the request is sent again, from what came in where before the timers expire |
| Redundancy.Port.Exchange | oshw/linux/nicdrv.c:299-574 | with no cut or one cut at any link, both master links among them, data, working counter and slaves are what one pass through all slaves makes of the request, whatever the order of arrival |
| Eoe.PackedFields | include/soem/ec_eoe.h:64-98 | where the fields of the two frame info words are, port and last fragment among them, and they read back as they were set, cut to their width |
| Eoe.InfoBits | include/soem/ec_eoe.h:64-98 | where a receiver finds port, last fragment and time stamp in the first info word, whatever else is in it |
| Eoe.PackedBits | include/soem/ec_eoe.h:64-98 | the same on 16-bit words with the masks and shifts of the macros |
| Eoe.StuckExactly | src/ec_eoe.c:362-366 | a mailbox sends an empty fragment and gets no further exactly when it has no room for a block of 32 bytes nor for all that is left |
| Eoe.Send | src/ec_eoe.c:332-421 | the fragments sent are all of the frame's, or those up to the first refused |
| Eoe.Reader.ReadFragment | src/ec_eoe.c:559-665 | the reassembler in place does what the reading of a fragment specifies |
| Eoe.FrameArrives | src/ec_eoe.c:332-665 | from any state the receiver was left in, the fragments of a frame give "more" until the last and then the exact frame, exactly when it has at most 63 blocks of 32 bytes |
| Eoe.StreamArrives | src/ec_eoe.c:332-665 | a stream of frames is handed on frame by frame |
| Eoe.AcceptedPrefix | src/ec_eoe.c:584-657 | whatever arrives, the accepted bytes are the payloads of fragments 0, 1, 2 and so on of one frame, received in that order and each announced for its place, within frame and buffer |
| Eoe.LastHands | src/ec_eoe.c:634-657 | the frame handed on with a last fragment is what was received of it before, with the fragment exactly if it fits; else it is cut short |
| Eoe.HandedInOrder | src/ec_eoe.c:584-657 | whatever arrives, every frame handed on is made of fragments 0, 1, 2 and so on of one frame, received in that order and each announced for its place, less a time stamp of four bytes; or the stamp was taken off less than four bytes and the size has wrapped |
| Foe.FoeWrite | src/ec_foe.c:258-411 | the packets sent and the result for every sequence of replies, with packets that cannot be sent: each holds the piece of the file its number names; the next one goes out when the last is acknowledged by its number and was full, the same again on BUSY; and which reply ends the write with which result |
| Foe.FoeRead | src/ec_foe.c:119-196 | for every sequence of packets, errors and other mailboxes, with acknowledgements that cannot be sent: kept are the data of the packets numbered 1, 2, 3 and so on that fit; any other packet adds nothing and ends the read; success means that the last one kept has the next number and is not full |
| Foe.FullPacketsIs | src/ec_foe.c:284-300 | the number of full packets of a file is the quotient of its size by the packet size |
| Foe.PacketCount | src/ec_foe.c:284-316 | packets are numbered on from the first, all are full but the last, which is shorter, and there is one more than the size makes full ones |
| Foe.PacketsRebuild | src/ec_foe.c:132-146 | the receiver's rule of numbers and sizes rebuilds the file from them and stops at exactly the last |
| Foe.WriteSends | src/ec_foe.c:258-411 | a whole write sends exactly those packets in order, each again for every BUSY reply to it, up to a BUSY for an empty packet, which ends it; the result for every run of such replies |
| Foe.BusyAtOnce | src/ec_foe.c:332-383 | BUSY before the first acknowledgement ends a write with success and no packet sent |
| Foe.BusyRestores | src/ec_foe.c:332-383 | BUSY resends a packet with bytes from exactly the state it found; for an empty packet, or before the first acknowledgement, it sends nothing |
| Foe.TransferDelivers | src/ec_foe.c:258-411 | over any run of acknowledgements and BUSY replies the write reports success while the receiver still waits if and only if some BUSY is for an empty packet; otherwise the receiver has the file exactly when the last packet is acknowledged, and a beginning of it before |
| Foe.NeverStalls | src/ec_foe.c:284-316 | a file that is not a whole number of packets has no empty packet for a BUSY to meet |
| Foe.StalledTransfer | src/ec_foe.c:332-383 | a file of one full packet whose empty last packet is answered by BUSY: success, and the receiver waits |
| Sdo.Le32RoundTrip | src/ec_coe.c:446 | the size word reads back |
| Sdo.SegmentReads | src/ec_coe.c:484-503 | a segment frame is read back as the bytes put in, last or not, short or not |
| Sdo.CommandBits | src/ec_coe.c:244-260 | the fields of the command byte of a segment; one with another specifier, an abort among them, is no segment of an answer |
| Sdo.AnswerBits | src/ec_coe.c:170-200 | the fields of the command byte of an answer: data in it or not, and how many bytes |
| Sdo.SegmentsGather | src/ec_coe.c:483-549 | all segments of a parameter are gathered to the rest of it |
| Sdo.SegmentsAlternate | src/ec_coe.c:483-549 | toggle bits alternate, exactly the final segment has the last bit, each fits the mailbox |
| Sdo.WriteThenRead | src/ec_coe.c:173-549 | for every mailbox and parameter size the frames of a write, read by the rules of a read, give the parameter back, exactly when it is not empty or complete access is asked for |
| Sdo.SdoWrite | src/ec_coe.c:345-549 | the frames put out for every outcome of the exchanges and any mailbox left over from before, byte by byte, and what is reported |
| Sdo.EncodeGoes | src/ec_coe.c:359-530 | each frame of a write byte by byte: command, index, subindex (0 or 1 with complete access), size and parameter of the first; command, length and bytes of each segment |
| Sdo.SdoRead | src/ec_coe.c:130-296 | for every run of replies, replies that do not come and requests without a mailbox the parameter buffer holds what the reading of such a run specifies, or the read fails; without a mailbox for the first request nothing is read, and a mailbox left over from before is reported as success |
| Sdo.ReadAnswers | src/ec_coe.c:165-296 | what a read returns, byte by byte, exactly: nothing unless an answer for the index asked comes first; then the bytes in it, or as many behind its size as that says, or with all segments that follow |
| Sdo.ReportedIsComplete | src/ec_coe.c:356-549 | when no later frame is lost or without a mailbox, a write reports success exactly when every frame was accepted, but for a write without a mailbox for its first frame after reading one left over, which reports success having put nothing out |
| Sdo.ReportedButIncomplete | src/ec_coe.c:356-549 | a write reports success with something missing exactly when the last frame it put out was accepted, or it put out none and read a mailbox left over, and either there was no mailbox for the next or one among them was lost |
| Sdo.ThreeFrames | src/ec_coe.c:356-549 | writes of three frames to a mailbox of 128 bytes: three accidents that are reported as success and two that are not |
| Sdo.ReadIsDecode | src/ec_coe.c:173-296 | a read in which every reply comes gives what the frames decode to |
| Sdo.ReadButIncomplete | src/ec_coe.c:211-289 | a read reports success without the last segment exactly when there is no mailbox for a request after a reply |
| Sdo.WholeRead | src/ec_coe.c:211-289 | a read that gets the last segment gives exactly what the replies bring, however many exchanges were silent in between |
| Sdo.TruncatedRead | src/ec_coe.c:216-223 | a read of 350 bytes that reports success with the first 112 |
| SiiCache.Cache.GetByte | src/ec_main.c:518-581 | every call gives the true byte, every byte marked as read is the current slave's, and exactly the window of a byte not yet known becomes known |
| SiiCache.Cache.Mark | src/ec_main.c:562-576 | marks exactly the bytes read, across words of the bitmap |
| SiiCache.WindowFits | src/ec_main.c:545-560 | for which addresses the window of a read fits the buffer, exactly |
| SiiWalk.SectionHolds | src/ec_main.c:589-621 | what an encoded image holds at each section and at its end |
| SiiWalk.SiiFind | src/ec_main.c:589-621 | on every image, well formed or not, on which the walk ends it gives what is found at its first stop |
| SiiWalk.FindInImage | src/ec_main.c:589-621 | on an encoded image of any length that is the first section of the category if the buffer holds its header, and 0 otherwise unless the walk wraps round |
| SiiWalk.BehindTheBuffer | src/ec_main.c:518-621 | an image with a section that is not found |
| SiiWalk.WalkForEver | src/ec_main.c:600-610 | images on which the walk does not end |
| SiiWalk.EncodedObjects | src/ec_main.c:818-855 | the objects read from an encoded section in the buffer are exactly those encoded, index, sync manager and bits |
| SiiWalk.SiiPdo | src/ec_main.c:798-863 | for every image on which the walk ends the table lists index, sync manager and bits of the objects read, one at least and 511 at most, the bits per sync manager, and the result is the bits of all, on 16 bits |
| SiiWalk.ObjectsListed | src/ec_main.c:811-855 | for an encoded section in the buffer those are exactly its objects, each once, if and only if it has any; for one of none a single object is read from what follows |
| SiiWalk.ListedIsSum | src/ec_main.c:831-850 | for every image the bits of all objects are the sum over the sync managers in range |
| IntelHex.OutputIntelHex | samples/eepromtool/eepromtool.c:165-191 | the lines written are the records of the image, 32 bytes each, with their checksums, and the end record |
| IntelHex.InputIntelHex | samples/eepromtool/eepromtool.c:86-145 | the reader loads line after line up to the first error |
| IntelHex.ChecksumIs | samples/eepromtool/eepromtool.c:177-184 | all bytes of a record and its checksum add up to 0 modulo 256 |
| IntelHex.OneRecord | samples/eepromtool/eepromtool.c:177-184 | one record, character by character |
| IntelHex.RecordLoads | samples/eepromtool/eepromtool.c:107-137 | a record within 16 bits of address passes its checksum and loads its bytes where they came from |
| IntelHex.NeverLonger | samples/eepromtool/eepromtool.c:107-137 | whatever image is written, no more than 65536 bytes are ever loaded |
| IntelHex.HexRoundTrip | samples/eepromtool/eepromtool.c:86-191 | reading a written file gives back image, start and length exactly when the image has 1 to 65536 bytes |

## Left out

- DistributedClocks.DelaysAreArrivals: a slave entered on another port than 0 with slaves on ports the frame visits before it is processed, which are then numbered before it, or whose first branch takes the frame no time; how wrong the delay of a slave on the wrong port is; time stamps that wrap.
- The chain of clocks (`DCnext`, `DCprevious`), the system time offset written to each slave and register access.
- The master's own receive of mailboxes without a cyclic handler (src/ec_main.c:1649-1759), the repeat request and its recovery states.
- The limits on how many mailboxes one call of the handlers may move: the handler of the model may stop after any slot.
- What is inside a mailbox: a message is a number, a protocol a slot of its own.
- Mapping.CreateMappings: the physical end of an FMMU, which for a third or later one of a slave is off because the byte count is not reset; the search for a free FMMU before the inputs, which finds the next one; more FMMUs than a slave has; the count of bits, which the model does not bound. A slave of more than seven bits with no bytes in its sync managers keeps the program in the loop; `Mapping.TakeSms` says why.
- Group.MapGroup: groups other than 0 (their status length omits the start address), the overlapped mapping, and groups that need more than the 64 segments of the table.
- Several groups and handlers: the mailbox system has one queue and one handler, while the program shares the pool of mailboxes between the queues of `EC_MAXGROUP` groups.
- Group.GroupCounted: packed mode, where slaves share bytes and a slave may add no byte of its own.
- ProcessData.Cycle: separate read and write datagrams for slaves that block the combined one; overlapped mode. With more than 16 segments an index is used again, with the length of the later frame: what is then copied for the earlier segment of that index and the counter of the cycle are not promised. Lost frames are covered by `ProcessData.Context.Receive`.
- The clock datagram's own data and what a slave's inputs do between two segments of one cycle.
- Redundancy.Port.Exchange: frames of other indices and looks that find nothing are both a look without the frame; a timer that expires before a frame on its way is in `Redundancy.Port.WaitInFrameRed` only, and the late frame is not followed further; a port with one cable, where the primary answer is returned as it is.
- Datagram: frames longer than the buffer; the interrupt word of a header.
- Eoe: the value of a time stamp; the IP settings service.
- Foe.TransferDelivers: replies other than acknowledgements and BUSY, which `Foe.FoeWrite` covers; progress callbacks and file names.
- Sdo.SdoRead: a reply that holds more than the buffer, which the program copies all the same; a read that is still asking when the run of exchanges ends counts as one that fails. Abort codes, mailbox counters, PDO reading and the object dictionary.
- SiiCache.Cache.GetByte: a window that does not fit the buffer, and reads of an EEPROM that fail; a word of the bitmap is the set of its bits.
- SiiWalk.FindInImage: where the walk goes when it wraps round, other than that it need not end.
- SiiWalk.ObjectsListed: a section that the end of the buffer cuts off, whose missing bytes are read as 0xff.
- IntelHex.InputIntelHex: splitting the file into lines; blanks, signs and `0x` that the scanner of the C library would accept; a last line without a newline is ignored by the program.
- Sockets, polling, mutexes and clocks: they are steps of the environment, and one timer that stays expired.
- `src/ec_soe.c`, the other platform drivers, `contrib`, the other samples, error texts and the thin read and write wrappers of `src/ec_base.c`.
