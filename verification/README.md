# librist verification

Models of the parts of librist (under `librist-master/`) that move, repair and protect a
RIST stream, with proofs about every input or every run. `dafny verify dfyconfig.toml`
checks the whole project.

| file | what it is about |
|---|---|
| `SenderQueue.dfy`, `SenderRun.dfy` | the sender's ring: queueing, draining with the adaptive retention window, looking up a packet for retransmission; whole runs |
| `ReorderRing.dfy`, `ReceiverFlow.dfy`, `Receiver.dfy`, `ReceiverRun.dfy` | the receiver's reorder ring: arrival, output pass, reset; the values and laws first, then the object with its array and counters, then whole runs |
| `MissingQueue.dfy` | the receiver's linked list of missing packets and the pass that asks for them |
| `NackCodec.dfy`, `RequestPath.dfy`, `Recovery.dfy` | range and bitmask requests, encoded into a buffer and decoded; the way from the missing list to the packets found at the sender |
| `WeightedScheduler.dfy` | the choice of the peer for each packet |
| `NullPackets.dfy` | null transport packets left out and put back |
| `BlockRotation.dfy`, `Getopt.dfy`, `GetoptRoundTrip.dfy` | the in-place block exchange of getopt, the permuting parser around it, and command lines written down and read |
| `Sha256.dfy`, `Sha256Standard.dfy`, `Sha256Example.dfy` | streaming SHA-256, what the standard says of its functions and constants, and its published example |
| `Pbkdf2.dfy` | HMAC and the fast form of PBKDF2 |
| `AesTables.dfy`, `AesSbox.dfy`, `Aes.dfy`, `AesExample.dfy`, `AesCtr.dfy` | the AES tables, what the standard makes of the S-box, the block cipher and its inverse, its published example, counter mode |
| `Arithmetic.dfy`, `BigEndian.dfy`, `Bits.dfy`, `Bytes.dfy`, `Sequences.dfy`, `Wrappers.dfy` | what several of these share |

Code that updates fields or arrays in place is a class or a method over arrays. Its state
is also a value, what every run keeps is a predicate on that value, and one small lemma
for each step shows that the step keeps it; the methods then show that the code takes
exactly these steps. `run` in such a class is a ghost record of everything that happened.

The clock is a counter that never runs backwards: wherever the source reads it, the model
may move it on by any amount. Factors such as 1.1 are written as 11/10 on integers.

## What the proofs bring out

- The sender's guard against a full ring never fires while the invariant holds, and the
  invariant is kept exactly by packets that leave one slot free. The sum the guard looks at
  is the write index or one less, modulo the ring size; only with a write index of 0 is
  that the larger number, which answers the question in the comment beside it
  (`SenderQueue.GuardIsDead`). So the packet that takes the last slot is let through, and a
  ring full of unsent packets then looks empty to the drain (`SenderQueue.FullLooksEmpty`,
  `SenderRun.FillUp`).
- Adding a peer can shorten the retention time below what an earlier peer needs, because
  ticks are compared with milliseconds (`SenderQueue.NewPeerMayLower`), and gives a peer
  with a round trip of more than half a second less than it needs, because ticks are cut
  to 32 bits (`SenderQueue.NewPeerIsServed`, `SenderQueue.LongRoundTrip`).
- The receiver computes the expected sequence number with its lowest bit cleared, so every
  second packet in order is taken for an unexpected one when its time lags
  (`ReceiverFlow.NextPacketLags`), and can be dropped as late (`ReceiverFlow.NextPacketDropped`).
- Late packets reset a flow as soon as they are more than five times those received, so the
  tests that wait for a hundred packets first never decide anything, and one late packet
  right after the first of a flow makes it start anew (`ReceiverFlow.LateResets`,
  `ReceiverFlow.FirstLatePacket`).
- When a packet replaces another in its slot, the bytes of the old one stay counted
  (`ReceiverFlow.ReplacedBytesStay`); the byte count stays exact if and only if that does
  not happen (`ReceiverFlow.ArrivalStaysExact`). It is at least what the ring holds, which
  is enough for it never to go below zero and for a reset to leave every slot empty; a
  count that is too high makes the flow reset once its ring runs empty.
- When a replaced packet carries the number last found, all 65535 other numbers are marked
  as missing (`ReceiverFlow.GapMeaning`).
- The weighted scheduler's jump back to choose again is never taken: the flag it tests is
  set before, and somebody can always be elected (`WeightedScheduler.SomebodyIsElected`).
- `UNSET_BIT` keeps the named bit and clears the others, so a payload refused for its sync
  byte leaves the null-packet flag set (`NullPackets.Suppress`).
- PBKDF2 counts its blocks in 32 bits, so an output within 31 bytes of 2^32 or longer is
  not written whole (`Pbkdf2.WholeOutput`).
- Encryption and decryption choose their number of rounds by different tests, which agree
  exactly on key sizes 128, 192 and above 192 (`Aes.RoundsAgree`).
- Decoding the range form of a request is exact only below 65536 records, because of the
  16-bit length (`NackCodec.RangeRoundTrip`).
- The length tests before the decoder let some requests through that are shorter than
  what they announce: exactly those with a length field below 2 or above 16382, and those
  one byte short (`NackCodec.CompleteWhenTested`).
- Nothing tests how many packets a null-packet header announces; the bit positions stay
  defined exactly up to seven (`NullPackets.PositionsAreDefined`, `NullPackets.EightPackets`).

## Model

| member | source | states |
|---|---|---|
| BlockRotation.Gcd | librist-master/contrib/getopt-shim.c:138-151 | Euclid's loop returns the greatest common divisor: it divides both numbers and every common divisor is at most it |
| BlockRotation.GcdIsCombination | librist-master/contrib/getopt-shim.c:138-151 | the greatest common divisor is an integer combination of the two numbers, which is what makes the cycles disjoint |
| BlockRotation.HopStep | librist-master/contrib/getopt-shim.c:175-184 | the position update of the inner loop is one hop of nopts places round the segment |
| BlockRotation.HopReturns | librist-master/contrib/getopt-shim.c:169-187 | after (a + b) / gcd(a, b) hops a cycle is back at its start |
| BlockRotation.HopsAreDistinct | librist-master/contrib/getopt-shim.c:169-187 | and before that it never visits a place twice |
| BlockRotation.HopsCover | librist-master/contrib/getopt-shim.c:169-187 | it visits every place of its residue class modulo the gcd |
| BlockRotation.AllCycles | librist-master/contrib/getopt-shim.c:166-187 | so the gcd-many cycles, each of length n / gcd, are disjoint and cover the segment and nothing else |
| BlockRotation.RunCycle | librist-master/contrib/getopt-shim.c:173-186 | one pass of the inner loop puts every entry of its cycle in its final place and touches no other |
| BlockRotation.PermuteArgs | librist-master/contrib/getopt-shim.c:158-188 | the two adjacent blocks are exchanged in place, each in its own order, and nothing else changes |
| Getopt.MatchFromMeaning | librist-master/contrib/getopt-shim.c:221-252 | the search for a long option finds the first exact match; without one it finds the first of the partial matches if all of them mean the same, and reports ambiguity if not |
| Getopt.FindLong | librist-master/contrib/getopt-shim.c:221-252 | the search loop computes that match |
| Getopt.Parser.ParseLong | librist-master/contrib/getopt-shim.c:195-317 | one long option: its argument, what it consumes, and each of its errors |
| Getopt.Parser.ParseOption | librist-master/contrib/getopt-shim.c:436-514 | one option of the current token, short or long, consumes one entry or two as its specification says |
| Getopt.Parser.SkipNonOption | librist-master/contrib/getopt-shim.c:399-411 | a non-option joins those skipped before; earlier options are moved in front of them first, and the parser's invariant is kept |
| Getopt.Parser.FinishAtEnd | librist-master/contrib/getopt-shim.c:363-380 | at the end of the vector the skipped non-options end up last and optind points to the first of them |
| Getopt.Parser.FinishAtTerminator | librist-master/contrib/getopt-shim.c:419-433 | the same at a terminating "--", which counts with the options |
| Getopt.Parser.FindOption | librist-master/contrib/getopt-shim.c:360-434 | the scanning loop reaches the next option or finishes with the vector partitioned |
| Getopt.Parser.Next | librist-master/contrib/getopt-shim.c:324-514 | every call either finishes with the vector partitioned or returns the next result and keeps the invariant |
| Getopt.SelectIsPartition | librist-master/contrib/getopt-shim.c:361-434 | sorting entries by kind loses and repeats none |
| Getopt.PartitionIsStable | librist-master/contrib/getopt-shim.c:361-434 | after a whole run the entries before optind are exactly the options with their arguments, nothing is lost, and entries of one kind keep their order |
| Getopt.ParseAll | librist-master/contrib/getopt-shim.c:324-514 | a whole run leaves the stable partition of the original vector, and returns the results that scanning the unpermuted vector gives |
| GetoptRoundTrip.WrittenIsRead | librist-master/contrib/getopt-shim.c:324-514 | a command line written from operands, clustered flags, options with a joined, separate, optional or lacking argument and long options in each of their styles, with or without a "--", is partitioned into options and operands and yields exactly the results that were meant |
| GetoptRoundTrip.RoundTrip | librist-master/contrib/getopt-shim.c:324-514 | so the whole run on that line returns those results, with every argument among the options and optind behind all of them |
| GetoptRoundTrip.FullNameFound | librist-master/contrib/getopt-shim.c:228-236 | a long option named in full is found, even where its name also abbreviates others |
| GetoptRoundTrip.AbbreviationMeaning | librist-master/contrib/getopt-shim.c:221-252 | an abbreviation of no option is unknown, of a single one finds it, and is ambiguous exactly if two options it abbreviates differ in argument, flag or value |
| SenderQueue.PutKeepsInv | librist-master/src/udp.c:666-675 | queueing a packet keeps the sender's invariant (occupied slots are exactly a contiguous window, counters are its count and byte sum, the index leads to the last packet sent under each number) exactly if fewer than sender_queue_max - 1 packets were held |
| SenderQueue.GuardIsDead | librist-master/src/udp.c:634-648 | delete index plus size is always the write index or one less, so the guard against a full ring never fires; with a write index of 0 it would, and that is the case the guard leaves out |
| SenderQueue.FullLooksEmpty | librist-master/src/udp.c:634-675 | the guard lets a packet into the last slot, after which the write index stands at the oldest packet held; exactly with an empty window behind the read index the drain then takes the full ring for an empty one |
| SenderQueue.NewPeerIsServed | librist-master/src/rist-common.c:323-325 | the retention time covers what the newest peer needs exactly if its least round trip is at most 500 ms or, where the test fails, the time was long enough before |
| SenderQueue.LongRoundTrip | librist-master/src/rist-common.c:323-325 | a peer with a round trip of 600 ms and a buffer of one second gets 1199 ms instead of 2200 |
| SenderQueue.NewPeerMayLower | librist-master/src/rist-common.c:323-325 | a further peer lowers the retention time exactly if the code makes less of it and it passes the test, which compares ticks with milliseconds; two ordinary peers where this happens |
| SenderQueue.Sender.AddPeer | librist-master/src/rist-common.c:323-325 | what a new peer makes of the retention time, and of the least one that dropped packets have met |
| SenderQueue.NextToSend | librist-master/src/rist-common.c:3078-3095 | the slot the sending loop comes to is never empty, so the branch for a null block is unreachable |
| SenderQueue.SendKeepsCore | librist-master/src/rist-common.c:3087-3109 | sending a packet and indexing it keeps ring, counters and index in agreement |
| SenderQueue.OldestSlot | librist-master/src/rist-common.c:3114-3117 | the slot the trimming loop computes holds the oldest packet of the window |
| SenderQueue.DropKeepsCore | librist-master/src/rist-common.c:3143-3151 | freeing the oldest packet, old enough to go, keeps them in agreement |
| SenderQueue.Sender.Enqueue | librist-master/src/udp.c:622-679 | queueing appends exactly the packet to ring and run, or refuses without peers; the invariant is kept exactly if the packet does not take the last free slot |
| SenderQueue.Sender.TrimOnce | librist-master/src/rist-common.c:3114-3152 | one turn of the do loop drops at most the oldest packet, or widens the window by the one that is too young |
| SenderQueue.TrimmedMeaning | librist-master/src/rist-common.c:3121-3151 | none, one or two packets leave the window, as the ages of the oldest two say, in both directions |
| SenderQueue.AgesDecide | librist-master/src/rist-common.c:3121-3151 | the window in each of the four cases of the two ages against the retention time and 1.1 times that |
| SenderQueue.OneMoreGone | librist-master/src/rist-common.c:3121-3151 | so n packets sent free the first n packets of the window that were old enough before |
| SenderQueue.DelayMeaning | librist-master/src/rist-common.c:3118-3120 | the age counts whole milliseconds of 4294967 ticks |
| SenderQueue.Sender.Trim | librist-master/src/rist-common.c:3112-3152 | the do loop leaves the window that the two age tests determine: no packet goes exactly if the oldest is younger than the retention time, and two go exactly if the oldest is over 1.1 times that time, the window is not empty and the next one is not young either |
| SenderQueue.Sender.SendNext | librist-master/src/rist-common.c:3078-3152 | one packet goes out, the next in the order of queueing; the window keeps its oldest packet only if that is younger than the retention time |
| SenderQueue.Sender.SendData | librist-master/src/rist-common.c:3067-3155 | the drain sends as many packets as it may, in order, and fewer only when none is left; every packet sent takes one out of the window as long as there are packets as old as the retention time |
| SenderQueue.YoungIsHeld | librist-master/src/rist-common.c:3121-3129 | deletion is gated by age: what is younger than every retention time in force when packets were dropped is still in the window |
| SenderQueue.LookupIsSound | librist-master/src/udp.c:788-831 | whatever the lookup finds carries the number asked for and is held: the packet last sent under it, or one still waiting to be sent |
| SenderQueue.RetransmissionFound | librist-master/src/udp.c:788-831 | a packet sent fewer than 2^16 numbers ago and younger than the retention time is always found, and it is that packet |
| SenderQueue.Sender.Lookup | librist-master/src/udp.c:788-831 | the lookup code computes the lookup the two statements above are about |
| SenderRun.Play | librist-master/src/rist.c:566-574 | after any sequence of added peers, automatically numbered packets and drains that leaves a slot free, the run holds the packets queued in their order, and every one sent fewer than 2^16 numbers ago and younger than the retention time is found under its number |
| SenderRun.FillUp | librist-master/src/udp.c:634-675 | a sender filled before anything is sent: the last packet is not refused, and the drain then finds nothing to send |
| MissingQueue.MissingList.Append | librist-master/src/flow.c:15-44 | a missing packet goes to the end of the list with its time clamped to the buffer; the list stays well formed |
| MissingQueue.MissingList.Flush | librist-master/src/flow.c:66-78 | flushing leaves the empty, well-formed list |
| MissingQueue.MissingList.Unlink | librist-master/src/rist-common.c:1207-1214 | removing an entry through the previous pointer takes out that entry alone, and moves the tail pointer when it was the last |
| MissingQueue.MissingList.ProcessNack | librist-master/src/rist-common.c:717-788 | one entry is given up, asked for again, or left for later exactly as its retries and times say |
| MissingQueue.FateMeaning | librist-master/src/rist-common.c:1104-1200 | an entry is asked for exactly if its peer is enabled, its packet has not come, the link is not choked, retries and time are left and its time has come; it goes exactly if it may not stay; the next request is 1.1 round trips later, within 1.1 times the bounds of the peer |
| MissingQueue.StaysMeaning | librist-master/src/rist-common.c:1104-1200 | an entry whose packet is missing stays for as many requests as it has retries and for 1.1 buffer times; on a choked link it goes at once, after five requests or not at all, as the congestion control says |
| MissingQueue.ClampedTimeMeaning | librist-master/src/flow.c:20-27 | a new entry has the time it was given if that lies in the buffer time before now, else the present one |
| MissingQueue.DueMeaning | librist-master/src/rist-common.c:1082-1227 | what is due are exactly the numbers to be asked for now, and none of them has come |
| MissingQueue.DueInOrder | librist-master/src/rist-common.c:1082-1227 | each number due belongs to an entry of its own, in the order of the list |
| MissingQueue.SurvivorsMeaning | librist-master/src/rist-common.c:1082-1227 | what stays in the list has not come, and nothing that should stay is missing |
| MissingQueue.SurvivorsInOrder | librist-master/src/rist-common.c:1082-1227 | the survivors are the entries that stay, each once and in the order of the list |
| MissingQueue.BestIsLive | librist-master/src/rist-common.c:1045-1062 | the peer a group goes to carries requests and is alive, and none of those has a shorter round trip |
| MissingQueue.DeadAreAsked | librist-master/src/rist-common.c:1045-1080 | without a live peer a group still goes out if any dead peer carries requests |
| MissingQueue.RequestedAt | librist-master/src/rist-common.c:717-788 | the counter of requested entries changes by the processed entry alone |
| MissingQueue.MissingList.SendNackGroup | librist-master/src/rist-common.c:1042-1080 | a pending group goes whole to the first live peer with the least round-trip time; without a live peer to the dead ones found |
| MissingQueue.MissingList.NackEntry | librist-master/src/rist-common.c:1104-1200 | the reasons for removal in the source's order, with a write into the array of requests always in bounds |
| MissingQueue.MissingList.NackPass | librist-master/src/rist-common.c:1082-1227 | survivors keep their order, none of their packets has come and the list stays usable; with a live peer the groups sent, none over 199, are together what was pending followed by exactly the due numbers in queue order, none of which has come |
| ReorderRing.WeightlessIsEmpty | librist-master/src/flow.c:46-64 | a ring that weighs nothing holds no packet exactly if it holds none without a payload |
| ReorderRing.DistanceMeansEmpty | librist-master/src/rist-common.c:863-878 | the scan that goes once round without finding a packet means an empty ring |
| ReceiverFlow.InsertKeepsInv | librist-master/src/rist-common.c:420-438 | storing a packet keeps what every run keeps |
| ReceiverFlow.DeliverKeepsInv | librist-master/src/rist-common.c:936-1018 | delivering a packet keeps it: an unmarked block follows the one delivered just before, and the byte count does not go below zero |
| ReceiverFlow.TurnKeepsInv | librist-master/src/rist-common.c:857-1036 | every turn of the output loop keeps the invariant: slot and number agree, the byte count is at least the bytes held, unmarked blocks are consecutive modulo 2^16, and every packet accepted is waiting, delivered or freed |
| ReceiverFlow.RestartKeepsInv | librist-master/src/rist-common.c:532-573 | so does a first packet after a reset, which finds every slot empty |
| ReceiverFlow.StoreKeepsInv | librist-master/src/rist-common.c:662-683 | and a packet that replaces one in its slot, whose bytes then stay counted |
| ReceiverFlow.ArrivalKeepsInv | librist-master/src/rist-common.c:517-715 | every arrival, whatever becomes of it, keeps the invariant |
| ReceiverFlow.ArrivalExcess | librist-master/src/rist-common.c:662-683 | the byte count grows too high by exactly the bytes of a packet that an accepted one replaces, and by no other arrival |
| ReceiverFlow.ArrivalStaysExact | librist-master/src/rist-common.c:662-683 | an exact byte count stays exact if and only if the packet is not accepted into an occupied slot |
| ReceiverFlow.ReplacedBytesStay | librist-master/src/rist-common.c:662-683 | two packets after which the byte count is too high |
| ReceiverFlow.TurnExcess | librist-master/src/rist-common.c:857-1036 | a turn of output leaves the excess as it is, unless it finds nothing, which ends it |
| ReceiverFlow.EmptyFindsNothing | librist-master/src/rist-common.c:865-878 | an emptied ring with bytes still counted can only be found empty, which resets the flow |
| ReceiverFlow.NoneLeavesEarly | librist-master/src/rist-common.c:892-926 | a packet leaves when it is due, when it was held for more than 1.1 times the buffer time, or when the buffer is being scaled and its time is up |
| ReceiverFlow.TurnMeaning | librist-master/src/rist-common.c:857-926 | when the first packet is released, dropped, made to wait or made to end the pass, each as an if and only if on its output time, its age and the holes before it |
| ReceiverFlow.WaitsItsTime | librist-master/src/rist-common.c:896-926 | without holes and scaling the first packet waits until its output time or 1.1 buffer times, and is delivered until it is two buffer times old, each as an if and only if |
| ReceiverFlow.DueIsDelivered | librist-master/src/rist-common.c:879-963 | a packet that comes due and is at most twice the buffer time old is handed to the application |
| ReceiverFlow.InOrderIsUnmarked | librist-master/src/rist-common.c:940-1018 | behind a delivered packet its successor, if it is there, is the next one and its block has no mark |
| ReceiverFlow.DropMeaning | librist-master/src/rist-common.c:1013-1034 | what dropping a packet leaves: the flow restarts exactly if the bytes ran out after more than a buffer time of silence |
| ReceiverFlow.StopMeans | librist-master/src/rist-common.c:857-1036 | a turn that does not go on leaves no bytes, or a first packet whose time is ahead, or one too many that are out of date |
| ReceiverFlow.OnlyOldIsFreed | librist-master/src/rist-common.c:905-916 | output frees no packet that was held for less than twice the buffer time |
| ReceiverFlow.ScalingLetsGo | librist-master/src/rist-common.c:925 | scaling lets a packet go early exactly while the buffer time is shorter than when it came, from the output time it would have now |
| ReceiverFlow.VerdictMeaning | librist-master/src/rist-common.c:530-672 | a packet is stored exactly if it starts the flow, or comes in time, is not the last before the output comes round, and has no copy waiting; the expected packet is stored unless the ring is full or a copy waits |
| ReceiverFlow.NextPacketDropped | librist-master/src/rist-common.c:621-638 | the packet exactly after the last one found is dropped as too late if and only if that one had an even number and it comes late behind the others |
| ReceiverFlow.NoSecondCopy | librist-master/src/rist-common.c:530-672 | while a stored packet waits no second copy of it is stored |
| ReceiverFlow.LateResets | librist-master/src/rist-common.c:626-634 | late packets reset the flow exactly when they are more than five times those received, full ones at the 101st, copies never; the tests meant to wait for a hundred packets have no effect |
| ReceiverFlow.FirstLatePacket | librist-master/src/rist-common.c:626-634 | so one late packet right after the first packet of a flow makes it start anew |
| ReceiverFlow.StoredIsDue | librist-master/src/rist-common.c:420-438 | a stored packet is due exactly a buffer time after its packet time, the first one after it came |
| ReceiverFlow.FirstIsStart | librist-master/src/rist-common.c:532-573 | a first packet is alone in the ring, the next one output comes to, and its block is marked as a start and not as a discontinuity |
| ReceiverFlow.NextPacketLags | librist-master/src/rist-common.c:621-622 | because the expected number has its lowest bit cleared, the next packet in order counts as lagging exactly when it has an older packet time and follows an even number |
| ReceiverFlow.GapMeaning | librist-master/src/rist-common.c:452-484 | the numbers marked as missing are those strictly between the last one found and the one that came; when both are equal, all others |
| ReceiverFlow.GapOnce | librist-master/src/rist-common.c:458-484 | none of them is marked twice, and the loop ends at the one that came |
| ReceiverFlow.InOrderAsksNothing | librist-master/src/rist-common.c:691-713 | after a packet in order the next one in order marks nothing as missing |
| ReceiverFlow.OthersLeaveNumber | librist-master/src/rist-common.c:651-713 | retried, late, repeated and out-of-order packets do not move the number gaps are counted from |
| ReceiverFlow.MarkMeaning | librist-master/src/rist-common.c:451-475 | a gap is marked whole or not at all, and at all exactly if it is no jump of more than half the numbers and the link is neither choked nor over its limit |
| ReceiverFlow.EvenlyWithin | librist-master/src/rist-common.c:443-470 | the times given to the packets of a gap are evenly spaced and lie between the times of the packets around it |
| Receiver.FreedAll | librist-master/src/flow.c:46-64 | once the bytes run out or the round is complete, the ring is empty |
| Receiver.SweepNext | librist-master/src/rist-common.c:857-1036 | a packet taken out lies further round the ring than all those taken out before it in the same pass |
| Receiver.StopsFor | librist-master/src/rist-common.c:865-1036 | the pass ends only without bytes, with a packet that has to wait, or after too many old ones |
| Receiver.Flow.EmptyQueue | librist-master/src/flow.c:46-64 | every waiting packet is freed and no subtraction takes the byte count below zero |
| Receiver.Flow.Scan | librist-master/src/rist-common.c:859-878 | the scan finds the nearest occupied slot |
| Receiver.Flow.Decide | librist-master/src/rist-common.c:857-926 | what becomes of that packet: wait, drop, release, or give up |
| Receiver.Flow.TakeTurn | librist-master/src/rist-common.c:857-1036 | one turn changes the flow exactly as decided |
| Receiver.Flow.Output | librist-master/src/rist-common.c:847-1040 | a whole pass delivers in ring order, none overtaking another and none before it may leave; what it frees was held for more than twice the buffer time; it ends without bytes, when told to, with a first packet whose output time is ahead, or after a hundred out of date in a row; and it resets the flow if it leaves the ring empty with bytes too many |
| Receiver.Flow.Rescale | librist-master/src/rist-common.c:3270-3276 | a step of scaling changes the buffer time and keeps the invariant |
| Receiver.Flow.Reset | librist-master/src/rist-common.c:1908-1918 | a changed flow id makes the next packet a first one and keeps the invariant |
| Receiver.Flow.Start | librist-master/src/rist-common.c:532-573 | a first packet empties the ring and restarts numbering at itself |
| Receiver.Flow.Judge | librist-master/src/rist-common.c:530-672 | the fate of an arriving packet: refused, first, late, full, duplicate or accepted |
| Receiver.Flow.MarkMissing | librist-master/src/rist-common.c:440-485 | all numbers of the gap are marked, at evenly spaced times, or none: after a jump of more than half the numbers, on a collapsed link, or with too many open requests |
| Receiver.Flow.Enqueue | librist-master/src/rist-common.c:517-715 | an arriving packet is judged, stored and its gap marked, and the whole state afterwards, with every list node old or new, is the specified one |
| Receiver.Flow.RequestMissing | librist-master/src/rist-common.c:1082-1227 | the request pass on this ring never finds a wrong packet in a slot, so that branch is unreachable, and asks for nothing that waits in the ring |
| ReceiverRun.Take | librist-master/src/rist-common.c:517-1227 | any step keeps the invariant and delivers only what arrived |
| ReceiverRun.RunMeans | librist-master/src/rist-common.c:847-1040 | what the invariant says of the blocks delivered |
| ReceiverRun.Play | librist-master/src/rist-common.c:517-1227 | after any sequence of arrivals, output passes, request passes, changes of the buffer time, resets and flushes of the missing list every unmarked block follows the one before it, every block is a packet that arrived, none was delivered more often than accepted, and every packet accepted is waiting, delivered or freed |
| NackCodec.RangeExpands | librist-master/src/udp.c:535-559 | the records of the range form ask for exactly the numbers they were made from, in order, also at 65535 and 0 |
| NackCodec.BitmaskCovers | librist-master/src/udp.c:503-524 | the records of the bitmask form cover exactly the numbers they were made from |
| NackCodec.EncodeRange | librist-master/src/udp.c:527-561 | the range loop writes exactly those records, and the header and length around them |
| NackCodec.EncodeBitmask | librist-master/src/udp.c:495-526 | the bitmask loop likewise |
| NackCodec.Decode | librist-master/src/rist-common.c:1549-1620 | the decoder queues exactly the numbers that flags, type, name and records of the message stand for |
| NackCodec.RequestsMeaning | librist-master/src/rist-common.c:1558-1620 | a message asks for nothing exactly if it comes to a receiver or before the handshake, is not of version 2 and one of the two types under the right name, or has no records |
| NackCodec.RangeMeans | librist-master/src/rist-common.c:1586-1597 | a range record asks for its first number and as many after it as it says, modulo 2^32 |
| NackCodec.MaskMeans | librist-master/src/rist-common.c:1604-1614 | a bitmask record asks for its first number and for the j-th after it exactly if bit j - 1 is set, as in section 6.2.1 of RFC 4585 |
| NackCodec.CompleteWhenTested | librist-master/src/rist-common.c:2099-2123 | what passes the caller's two length tests is as long as the records it announces if and only if the length field is from 2 to 16382 and the message is not one byte short |
| NackCodec.TestIsNotEnough | librist-master/src/rist-common.c:2099-2123 | a message of twelve bytes that passes the test and announces 65534 records |
| NackCodec.CountComesBack | librist-master/src/rist-common.c:1584 | the length field yields the number of records modulo 65536 |
| NackCodec.RangeRoundTrip | librist-master/src/rist-common.c:1578-1597 | decoding the range form gives back the same list exactly if it has fewer than 65536 records, as every list of fewer than 65536 numbers has |
| NackCodec.BitmaskDecodes | librist-master/src/rist-common.c:1598-1615 | the bitmask form asks for exactly the numbers its first records cover, as many as the length field tells |
| NackCodec.BitmaskRoundTrip | librist-master/src/rist-common.c:1598-1615 | decoding the bitmask form gives back the same set exactly if the records beyond the length field's range cover nothing else, so always with fewer than 65536 records |
| RequestPath.Transfer | librist-master/src/udp.c:478-569 | a group written by the receiver and read by the sender is the same list in the range form and the same set in the bitmask form |
| RequestPath.Exchange | librist-master/src/rist-common.c:1082-1227 | over a whole pass with a live peer the sender queues exactly what was due at the receiver, in the range form in the same order, and none of it has come |
| Recovery.Recover | librist-master/src/rist-common.c:1082-1227 | what is due at the receiver, none of which has come, is asked for in order, and every packet among it that the sender sent recently enough is found |
| WeightedScheduler.Scheduler.Elect | librist-master/src/udp.c:696-750 | the loop sends once to every peer of weight zero and elects the first peer with the largest counter, or nobody if all are used up |
| WeightedScheduler.SomebodyIsElected | librist-master/src/udp.c:740-775 | while weights are in use somebody can always be elected |
| WeightedScheduler.ElectionKeepsInv | librist-master/src/udp.c:773-782 | every packet keeps the counters summing to the weight counter, everybody's share exact, and any two peers apart by no more than their weights, or one |
| WeightedScheduler.SharesAreExact | librist-master/src/udp.c:681-786 | after k rounds of the total weight every peer was chosen exactly k times its weight |
| WeightedScheduler.Scheduler.Send | librist-master/src/udp.c:681-786 | a packet goes once to the elected peer, once to every peer of weight zero and to nobody else |
| Sha256.Expand | librist-master/contrib/sha256.c:57-60 | the message schedule |
| Sha256.Transform | librist-master/contrib/sha256.c:53-92 | the 64 rounds on eight variables and the additions are the compression function |
| Sha256.PaddingZeros | librist-master/contrib/sha256.c:129-142 | how many zeros the padding of a message has, from what is left over in the buffer |
| Sha256.PaddedShort | librist-master/contrib/sha256.c:129-153 | with fewer than 56 bytes left over one block ends the padded message |
| Sha256.PaddedLong | librist-master/contrib/sha256.c:134-153 | with more, two |
| Sha256.Context.Init | librist-master/contrib/sha256.c:94-106 | the initial hash value, with nothing absorbed |
| Sha256.Context.Update | librist-master/contrib/sha256.c:108-121 | buffer, length and state always stand for all bytes absorbed so far |
| Sha256.Context.Final | librist-master/contrib/sha256.c:123-167 | the hash of everything absorbed, by the padding of section 5.1.1 of FIPS 180-4 |
| Sha256.HashParts | librist-master/contrib/sha256.c:94-167 | any way of splitting a message into updates gives the hash of the whole |
| Sha256.LengthMeaning | librist-master/contrib/sha256.c:145-153 | the last eight bytes of the padding are the length as a big-endian number modulo 2^64 |
| Sha256Standard.SumsRotate | librist-master/contrib/sha256.c:35-38 | the four sigma functions are sums of copies of the word rotated or shifted by the amounts of section 4.1.2 of FIPS 180-4 |
| Sha256Standard.ChMeaning | librist-master/contrib/sha256.c:33 | every bit of the choice is that of the second word where the first has a one, and of the third where it has a zero |
| Sha256Standard.MajMeaning | librist-master/contrib/sha256.c:34 | wherever two of the three words agree, so does the majority |
| Sha256Standard.ConstantsMeaning | librist-master/contrib/sha256.c:41-50 | each of the 64 constants is the first 32 bits of the fraction of the cube root of its prime, and the initial hash value the same of square roots (sections 4.2.2 and 5.3.3 of FIPS 180-4) |
| Sha256Example.ScheduleIs | librist-master/contrib/sha256.c:57-60 | the only schedule is the one that begins with the block and follows the recurrence of section 6.2.2 |
| Sha256Example.Published | librist-master/contrib/sha256.c:53-167 | the hash of "abc" is the one published with the standard, ba7816bf to f20015ad |
| Pbkdf2.PadIsTail | librist-master/contrib/fastpbkdf2.c:90-95 | the padding prepared once is the padding that hashing 96 bytes adds |
| Pbkdf2.OneCompression | librist-master/contrib/fastpbkdf2.c:226-228 | hashing a block and 32 bytes is one compression of the block's midstate |
| Pbkdf2.FastIterate | librist-master/contrib/fastpbkdf2.c:225-232 | two compressions from the copied midstates are one textbook HMAC |
| Pbkdf2.XorBytes | librist-master/contrib/fastpbkdf2.c:291-301 | exclusive-or of state words is exclusive-or of the hashes |
| Pbkdf2.HmacContext.Init | librist-master/contrib/fastpbkdf2.c:138-180 | both contexts absorb the masked key block, long keys hashed first |
| Pbkdf2.HmacContext.Final | librist-master/contrib/fastpbkdf2.c:188-194 | the outer hash over the inner one |
| Pbkdf2.MdPad | librist-master/contrib/fastpbkdf2.c:90-95 | the padding behind a prefix of the block, which it leaves alone |
| Pbkdf2.NextIterate | librist-master/contrib/fastpbkdf2.c:223-234 | each turn of the fast loop adds the next textbook iterate to the result |
| Pbkdf2.Iterate | librist-master/contrib/fastpbkdf2.c:218-234 | the loop over all iterations |
| Pbkdf2.F | librist-master/contrib/fastpbkdf2.c:198-238 | one block is the exclusive-or of the textbook HMAC iterates, for every password, salt and count |
| Pbkdf2.WholeOutput | librist-master/contrib/fastpbkdf2.c:253 | all of the output is written exactly if its length plus 31 is below 2^32 |
| Pbkdf2.DeriveKey | librist-master/contrib/fastpbkdf2.c:240-265 | the output is the start of T_1, T_2, ... one after the other, and nothing behind it is touched |
| Pbkdf2.HmacMeaning | librist-master/contrib/fastpbkdf2.c:138-194 | a key of one block is added to the pads of RFC 2104, a shorter one is filled with zeros, a longer one replaced by its hash |
| Pbkdf2.Int32Meaning | librist-master/contrib/fastpbkdf2.c:51-57 | the number of a block is written as a big-endian number modulo 2^32 |
| Pbkdf2.DerivedKeyBegins | librist-master/contrib/fastpbkdf2.c:198-238 | with one iteration the first block is the HMAC of the salt and the number one, with two it is that plus its own HMAC |
| AesTables.SubInverse | librist-master/contrib/aes.c:54-92 | the inverse S-box undoes the S-box on every byte |
| AesTables.InvSubInverse | librist-master/contrib/aes.c:54-92 | and the S-box undoes the inverse one |
| AesSbox.SubMeaning | librist-master/contrib/aes.c:54-72 | the S-box gives every byte the affine map of section 5.1.1 of FIPS 197 at its inverse in GF(2^8) |
| AesTables.RowIsMultiples | librist-master/contrib/aes.c:98-227 | every row of the multiplication table holds the products over GF(2^8) by 2, 3, 9, 11, 13 and 14 |
| Aes.RowAdds | librist-master/contrib/aes.c:98-227 | those products are additive |
| Aes.MixInverse | librist-master/contrib/aes.c:756-934 | mixing a column back gives the column that was mixed |
| Aes.StepsInvert | librist-master/contrib/aes.c:603-934 | every step of a round has its inverse |
| Aes.MixColumns | librist-master/contrib/aes.c:756-844 | the table look-ups and exclusive-ors in place compute the mixed columns |
| Aes.InvMixColumns | librist-master/contrib/aes.c:846-934 | likewise for the inverse |
| Aes.ShiftRows | librist-master/contrib/aes.c:697-720 | the swaps turn row r by r places to the left |
| Aes.InvShiftRows | librist-master/contrib/aes.c:723-746 | and back to the right |
| Aes.RoundsAgree | librist-master/contrib/aes.c:978-992 | encryption and decryption make the same number of rounds exactly for key sizes 128, 192 and any above 192 |
| Aes.RoundCounts | librist-master/contrib/aes.c:978-992 | 10, 12 and 14 rounds for the three sizes of the standard |
| Aes.BackwardMeetsForward | librist-master/contrib/aes.c:1037-1061 | decryption goes back through the states encryption went through, with the round keys in reverse |
| Aes.BlockComesBack | librist-master/contrib/aes.c:940-1083 | decryption undoes encryption on every block, for every key schedule array and each key size |
| Aes.Encrypt | librist-master/contrib/aes.c:940-1011 | the rounds in place compute the block cipher |
| Aes.Decrypt | librist-master/contrib/aes.c:1013-1083 | likewise its inverse |
| AesExample.Published | librist-master/contrib/aes.c:940-1083 | the example of appendix B of FIPS 197 comes out as published, and back |
| AesCtr.IncrementAdds | librist-master/contrib/aes.c:316-327 | the counter grows by one as a big-endian number and starts anew when all its bytes are 255 |
| AesCtr.CounterAdds | librist-master/contrib/aes.c:316-351 | n increments add n modulo 256 to the number of bytes |
| AesCtr.CountersDiffer | librist-master/contrib/aes.c:330-351 | no counter block comes twice before all of them have been used |
| AesCtr.IncrementIv | librist-master/contrib/aes.c:316-327 | the carry loop increments the last counter bytes and leaves the others alone |
| AesCtr.CtrInvolution | librist-master/contrib/aes.c:353-357 | counter mode applied twice is the identity |
| AesCtr.CtrMeaning | librist-master/contrib/aes.c:330-351 | byte k of the output is that of the text plus byte k mod 16 of the encrypted block whose number is that of iv plus k / 16, modulo 2^128 |
| BigEndian.ValueIsBigEndian | librist-master/contrib/aes.c:316-327 | in the number that a counter stands for the first byte counts for the most |
| AesCtr.EncryptCtr | librist-master/contrib/aes.c:330-351 | for every length, byte k of the output is byte k of the input exclusive-or byte k mod 16 of the encrypted counter block k / 16, also in place |
| NullPackets.SizeIsClear | librist-master/src/mpegts.c:12-24 | no payload of up to seven packets can be read both as 188-byte and as 204-byte packets |
| NullPackets.IsNullMeaning | librist-master/src/mpegts.c:32 | a packet counts as null exactly if it has packet identifier 0x1fff and none of the three flags beside it |
| NullPackets.NullPacketMeaning | librist-master/src/mpegts.c:79-84 | the packet put in has sync byte 0x47, identifier 0x1fff, a payload of ones and no flag, adaptation field or counter |
| NullPackets.RefusedMeaning | librist-master/src/mpegts.c:14-28 | accepted are one to seven whole packets of either size that begin with a sync byte |
| NullPackets.MaskBits | librist-master/src/mpegts.c:32-40 | the header's bits say exactly which packets are null, and bit 7 which size they have |
| NullPackets.SixPacketsSuffice | librist-master/src/udp.c:651-657 | whatever is kept once a packet was suppressed fits the six packets of the caller's buffer |
| NullPackets.Suppress | librist-master/src/mpegts.c:12-55 | what is refused, and otherwise the packets kept, the mask and the count, in a buffer with room for the packets kept; after a wrong sync byte the flag stays set |
| NullPackets.Expand | librist-master/src/mpegts.c:57-92 | null packets where the mask says so, the given packets elsewhere, or nothing at all without a null |
| NullPackets.PositionsAreDefined | librist-master/src/mpegts.c:57-76 | no bit position below zero is tested if and only if no null is announced or length and header make seven packets at most |
| NullPackets.EightPackets | librist-master/src/mpegts.c:57-76 | a header and a length for which the eighth packet has no bit |
| NullPackets.InputSuffices | librist-master/src/mpegts.c:74-79 | the input is not read behind its end if and only if no null is announced behind the last packet |
| NullPackets.ExpandRestores | librist-master/src/mpegts.c:57-92 | expanding what was kept gives the payload with its null packets in their plainest form |
| NullPackets.CanonicalIsSame | librist-master/src/mpegts.c:76-84 | which is the payload itself exactly if every null packet in it was that plain one |
| NullPackets.RoundTrip | librist-master/src/mpegts.c:12-92 | size, number of packets and length come back from header and length alone, for every accepted payload |
| Bits.UnsetKeepsBit | librist-master/include/common/attributes.h:93-94 | the macro that should clear a bit keeps it and clears all others |
| Bits.BitMeaning | librist-master/src/rist-private.h:61 | bit j of a number counts for 2^j |

## Left out

- Sockets, threads, locks and the poll loop: every locked section or loop body is one atomic step.
- The clock offset of a flow, its drift correction and the interpolation of arrival times: packet times are inputs of `Receiver.Flow.Enqueue`.
- RTC timing mode, 32-bit sequence numbers and the advanced profile: flows are limited to 16-bit numbers by this build.
- Failed allocations, the output fifo behind the delivered blocks and its overflow, and all statistics except the counters that decide a reset; their periodic clearing is left out too.
- RTCP packets, of which none is ever queued in the sender's ring, and retransmission limits by bandwidth and round-trip time in the retry queue.
- SenderQueue.Sender.Enqueue: starts from a ring with a free slot, because the packet that takes the last one ends the invariant; payloads are not empty, which the library's call refuses (librist-master/src/rist.c:558), and the static window size belongs to the one sender modelled.
- SenderQueue.LookupIsSound: does not say which packet is found once the one asked for was dropped, beyond its number, because the source does not check more.
- Receiver.Flow.Enqueue: payloads are not empty, because the buffer of an empty one gets no data pointer (librist-master/src/rist-common.c:344-353) and what freeing or delivering it does is undefined; `ReorderRing.WeightlessIsEmpty` says that such packets are also what a reset would miss.
- Receiver.Flow.Rescale: when the buffer time is changed, and by how much at a time; any change at any moment is allowed.
- MissingQueue.MissingList.NackPass: without any peer the requests of earlier passes stay pending and are counted on; nothing is said of what is sent when no peer is alive except by `MissingQueue.MissingList.SendNackGroup`.
- NackCodec.Decode: the message must be as long as the records it announces, because the source reads them all without a test of its own; `NackCodec.CompleteWhenTested` says when its caller's test is enough.
- The other packets of the compound message, and the queueing of the decoded numbers.
- SenderRun.Play: the retention time meant is the least one in force since the first packet was dropped, as `SenderQueue.Sender.AddPeer` keeps it; numbers given by the user instead of the counter are left out.
- RequestPath.Exchange: nothing is pending when the pass begins, as after every pass with a peer; messages are neither lost nor altered on the way.
- WeightedScheduler.Scheduler.Send: peers neither die nor come back and weights stay as they are; peers that listen and their children are left out.
- Getopt.Parser.ParseLong: results are named instead of numbered, so optopt, the index pointer and the store through flag, which follow from the result, are left out; no long option has the value -1.
- Getopt.Parser.ParseOption: optopt and the leading ':' that changes the number returned for a missing argument are left out for the same reason.
- Getopt: option strings that begin with '+' or '-', POSIXLY_CORRECT, getopt_long_only, optreset, a missing table of long options, and the texts of diagnostics.
- Sha256.Context.Update: one update takes fewer than 2^32 bytes, as its 32-bit loop counter demands.
- Pbkdf2: the parallel form of the loop over blocks.
- Aes: the key schedule (any array of words takes its place), CBC and CCM; the calls of one round after another are written as a loop.
- NullPackets.Expand: at most seven packets where nulls are announced, because beyond them the source shifts by a negative amount, and an input as long as what is read of it; `NullPackets.PositionsAreDefined` and `NullPackets.InputSuffices` say when that is so.
- NullPackets.Suppress: the header starts at zero, as its one caller makes it, and the payload is not empty, because its first byte is read.
- The keys of the RIST profiles, EAP and SRP, GRE framing, URL and configuration parsing, logging, the Prometheus exporter and the CARI tools: plumbing with little structure.
