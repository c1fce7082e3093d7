# emaczero: a model of the MAC driver's datapath and of the reference models

emaczero is an Ethernet MAC with checksum offload. This project models, in Dafny, the
software around it: the Linux driver's datapath (`sw/linux/emaczero/emaczero.c`), the
Python reference models its simulations judge the hardware by (`sim/cocotb/lib`), and one
hardware self-test's timing verdict (`fpga/arty_a7/scripts/rgmii_lb_selftest.py`), and
proves what they promise. `dafny verify dfyconfig.toml` checks all of it.

**Transmit ring** (`TxProtocol`, `TxInvariant`, `TxSteps`, `TxBooks`, `TxTheorems`,
`TxResults`, `TxProgress`, `TxPasses`, `TxStaleWake`, `Ring32`, `TxRing`). The machine has five actors: `emz_start_xmit`, NAPI's
`emz_tx_complete`, the DMA provider with its completion callback, the MAC behind it, and
the stop / drain / restart path. One step is one shared read or write of one actor; the
steps interleave freely and are sequentially consistent. `TxRing.Ring` is the driver's own
form, an array of 64 slots with 32-bit indices that wrap, and its methods take the same
steps, so what holds over runs of the machine holds of the array. Beside what no
interleaving can break, `TxProgress` and `TxPasses` say what each actor gets done when
nothing comes between: a call publishes its frame, a pass reclaims what is done, a drain
returns.

NAPI's wake is modelled as the driver has it: a test of the queue, a test of the ring and
the wake, three accesses that other actors may come between. A wake is *stale* when the
ring has filled again by then. The promise "an awake idle queue has a free slot, BUSY is
never taken" holds over a run exactly when no wake of the run is stale (`OpenUnlessStale`),
it holds on every run whose wakes are in one piece (`WakeAtOnceSuffices`). The promise "a
stopped queue waits for more than 48 completions" holds over a run exactly when no stop of
its BUSY branch comes *late*: the one stop without a recheck, made when there is room by
then and NAPI's next look at the queue is not still to come (`AwaitedUnlessLate`).
`TxStaleWake` gives a run from start-up that reaches the BUSY branch, and one that leaves
the queue stopped with nothing in flight.

**Receive ring** (`RxProtocol`, `RxInvariant`, `RxTheorems`, `RxProgress`, `RxRing`). The same for
`emz_rx_poll`, with the page fragments' owners, also across a rebuild's change of pools, and
the frames' order; `RxRing.Ring` has the array, and its methods take every step.

**Checksums** (`InternetChecksum`, `IpOptions`, `Packet`, `CsumParse`, `TxChecksum`,
`PacketFacts`, `RxMark`, `PacketCases`). Ones'-complement sums with both zeros (section 1 of RFC 1071), the IPv4 option
walk (section 3.1 of RFC 791), the packet builder and its judge (RFC 768, section 3.1 of
RFC 9293, section 8.1 of RFC 8200), the driver's parser and its scope against the judge's,
checksums written by the driver or by the MAC's inserter, and when a received frame may be
marked verified.

**CRC-32 and MII** (`Crc32`, `Mii`). The bit- and byte-wise CRC (clause 3.2.9 of IEEE
802.3-2018), its residue, burst detection, the nibble encoder and two decoders, and the
scoreboard. **Store and forward** (`Saf`): the commit / truncate / drop policy.
**Statistics** (`Stats`), **watchdog** (`Watchdog`), **multicast filter** (`Multicast`),
**PAUSE XON** (`Xon`, Annex 31B of IEEE 802.3).

Where code and its documentation or comments differ, the code is modelled:

- `emaczero.c` comments the wake as pairing with the barrier in `emz_start_xmit`; the code
  still lets a stale wake through, as above.
- `force_zero_l4_csum` says it needs 10 bytes of L4; with a UDP Length of 8 or 9 the
  checksum can still come out other than zero (`ForcedZero` says exactly when, `NotForced`
  has a packet of each).
- The judge flags every spoiled L4 checksum but a UDP checksum of 0x0101: spoiled, it becomes
  zero, which UDP reads as none; and none, spoiled, becomes it (`JudgeAgrees`; `SpoiledPasses`
  has such a packet).
- The builder takes a fragment offset wider than its 13-bit field; the frame then carries a
  zero offset which the driver accepts and the judge, who asks the packet, does not
  (`ScopeContained`; `OffsetTooWide` has such a packet).

Assumptions that are stated, not proved: sequential consistency at the commented
acquire/release points; DMA completions in order on receive, in any order on transmit; a
failed TX completion means its frame was not handed on; the MAC's reported count never runs
ahead of the true one and lags by at most 2^31 (`DifferenceLow` says what that rests on);
after a drain in doubt `tx_mac_base` is read with nothing queued in front of the MAC (after a
sure one that is proved); a flush that returns 0 means no whole frame is left in the stream; each
PAUSE takes effect in order, between its write's start and two frames after its end.

## Model

| member | source | states |
|---|---|---|
| `TxBooks.StepKeeps` | sw/linux/emaczero/emaczero.c:396-413 | every access of every actor keeps the transmit invariant: slots and who may mark them, books, drain, issue |
| `TxTheorems.RingSafety` | sw/linux/emaczero/emaczero.c:682-709 | in every reachable state at most 64 frames are in flight, done is set at most once per publication, NAPI has only read done slots, and xmit writes a slot only while there is one to spare |
| `TxTheorems.Conservation` | sw/linux/emaczero/emaczero.c:785-830 | frames accepted = dropped + errored + sent + lost to restarts + in flight; BQL bytes sent = completed + lengths of the slots in flight |
| `TxResults.StatisticsExact` | sw/linux/emaczero/emaczero.c:690-703 | over any run without a restart tx_errors grows by the failed completions and the sent frames by the good ones, less those done and not yet scanned |
| `TxTheorems.FailuresBehindGate` | sw/linux/emaczero/emaczero.c:389-413 | a slot done with an error, or one already reclaimed, is never seen without reset_pending |
| `TxTheorems.GateShutsXmit` | sw/linux/emaczero/emaczero.c:789-830 | once the gate is up and xmit is between calls, no run before the rebuild publishes another frame |
| `TxTheorems.NothingUnissued` | sw/linux/emaczero/emaczero.c:832-846 | a return without xmit_more leaves no submitted descriptor unissued |
| `TxTheorems.DrainExact` | sw/linux/emaczero/emaczero.c:1125-1152 | a drain that returns without doubt: every frame the DMA handed on has left the MAC, every published one was handed on or failed |
| `TxTheorems.DrainDecides` | sw/linux/emaczero/emaczero.c:1141-1148 | the drain's comparison passes exactly when the count read covers every frame handed on |
| `TxTheorems.OpenUnlessStale` | sw/linux/emaczero/emaczero.c:711-714 | over any run: BUSY is never taken and an awake idle queue has a free slot, if and only if no wake of the run is stale |
| `TxTheorems.AwaitedUnlessLate` | sw/linux/emaczero/emaczero.c:785-840 | over any run, stale wakes or not: a stopped queue neither side is about to recheck always has fewer than EMZ_TX_WAKE free slots, if and only if no BUSY stop of the run is late |
| `TxTheorems.NoLostWakeup` | sw/linux/emaczero/emaczero.c:832-840 | in particular over every run without a stale wake |
| `TxTheorems.NoStepBlocked` | sw/linux/emaczero/emaczero.c:396-413 | the machine's guards block no access an actor of the driver would make, and a restart needs no more than an empty queue in front of the MAC |
| `TxTheorems.WakeAtOnceSuffices` | sw/linux/emaczero/emaczero.c:713-714 | with test and wake in one piece both promises hold over every run |
| `TxTheorems.InitInv` | sw/linux/emaczero/emaczero.c:1250-1266 | the driver's start satisfies what those theorems ask of a state |
| `TxProgress.CallSends` | sw/linux/emaczero/emaczero.c:775-852 | a call with the gate down, a slot free and a frame that fits publishes and submits it, starts what is pending unless more are promised, and stops the queue exactly when the ring is full |
| `TxProgress.CallDrops` | sw/linux/emaczero/emaczero.c:789-791 | behind the gate, or longer than 1536 bytes, a frame is dropped and counted, and pending ones are still started |
| `TxProgress.RestartSends` | sw/linux/emaczero/emaczero.c:1250-1266 | whatever failed before, the first call after a restart sends its frame |
| `TxProgress.AllFit` | sw/linux/emaczero/emaczero.c:789-791 | no frame in flight in any reachable state is longer than its bounce buffer |
| `TxProgress.DrainReturns` | sw/linux/emaczero/emaczero.c:1125-1152 | with every frame done and sent, a drain left alone returns without doubt |
| `TxProgress.WakesWithRoom` | sw/linux/emaczero/emaczero.c:837-838 | a stopped queue is only started with 16 slots free or more |
| `TxPasses.CompletionMarks` | sw/linux/emaczero/emaczero.c:396-413 | a completion marks its own slot with the DMA's result; a failed one is counted and raises the gate, a good one neither |
| `TxPasses.RefusedMarks` | sw/linux/emaczero/emaczero.c:822-830 | a refused descriptor ends as a failed completion of its slot |
| `TxPasses.NapiReclaims` | sw/linux/emaczero/emaczero.c:682-714 | a pass alone reclaims exactly the done slots at the tail, with their bytes and results, and starts a stopped queue when 16 are free |
| `TxStaleWake.BusyReachable` | sw/linux/emaczero/emaczero.c:785-788 | a run from start-up with a stale wake, after which the BUSY branch is taken |
| `TxStaleWake.WakeupLost` | sw/linux/emaczero/emaczero.c:785-788 | a run that ends with the queue stopped and nothing in flight to wake it |
| `Ring32.ShortExact` | sw/linux/emaczero/emaczero.c:1142 | the wrapped signed 32-bit comparison says short exactly when the true shortfall, modulo 2^32, is 1 to 2^31 |
| `Ring32.Difference32` | sw/linux/emaczero/emaczero.c:673-680 | head less tail on wrapped 32-bit indices is the true number of frames in flight |
| `TxRing.Ring.FreeSlots` | sw/linux/emaczero/emaczero.c:673-680 | emz_tx_free is right whatever the indices have wrapped to |
| `TxRing.Ring.Fill` | sw/linux/emaczero/emaczero.c:814-817 | the slot fields and BQL's bytes, on the array, are the machine's step |
| `TxRing.Ring.ScanSlot` | sw/linux/emaczero/emaczero.c:690-703 | one turn of NAPI's scan, on wrapped tail and head, is the machine's step |
| `TxRing.Ring.ReleaseSlots` | sw/linux/emaczero/emaczero.c:707-709 | publishing the tail releases exactly the slots scanned |
| `TxRing.Ring.CountShort` | sw/linux/emaczero/emaczero.c:1141-1148 | one reading of the 64-bit count against the wrapped sent decides as the true counts would |
| `TxRing.Act` | sw/linux/emaczero/emaczero.c:775-852 | any enabled step of any actor, taken on the array and 32-bit fields, reaches the machine's next state and keeps its invariant |
| `TxRing.ActAll` | sw/linux/emaczero/emaczero.c:682-852 | so does any interleaving |
| `RxTheorems.StepKeeps` | sw/linux/emaczero/emaczero.c:596-669 | every poll path, callback, give-back and rebuild keeps the receive invariant |
| `RxTheorems.OneOwner` | sw/linux/emaczero/emaczero.c:617-643 | in every reachable state each fragment has exactly one owner among slot, stack, pool and destroyed pool |
| `RxTheorems.CurrentPoolOnly` | sw/linux/emaczero/emaczero.c:472-488 | a fragment of a destroyed pool is never free, in the ring or posted again, even one the stack gives back after the rebuild |
| `RxTheorems.NoStepBlocked` | sw/linux/emaczero/emaczero.c:415-454 | the machine's guards block no access NAPI or the provider would make |
| `RxTheorems.PostedIsOwned` | sw/linux/emaczero/emaczero.c:435-454 | a posted descriptor names its own slot's buffer, never one with the stack or free |
| `RxTheorems.DoneRun` | sw/linux/emaczero/emaczero.c:415-430 | the done slots are exactly one run that starts at rx_tail (or just past the slot NAPI has cleared there) |
| `RxTheorems.DeliveredInOrder` | sw/linux/emaczero/emaczero.c:601-664 | delivered frames are an ordered subsequence of the received ones, with their lengths |
| `RxProgress.ReceivedExact` | sw/linux/emaczero/emaczero.c:415-424 | over any run the k-th frame received since up has 1536 bytes less the k-th residue the DMA reported, none if the residue is larger |
| `RxProgress.DeliveredLengths` | sw/linux/emaczero/emaczero.c:617-641 | so has every frame delivered, none shorter than an Ethernet header |
| `RxProgress.TakeDecides` | sw/linux/emaczero/emaczero.c:617-643 | a frame of 14 bytes or more is delivered, with its buffer, exactly when there is a buffer to replace it and an skb; otherwise nothing is delivered and no buffer lost |
| `RxProgress.PollTurn` | sw/linux/emaczero/emaczero.c:601-655 | one turn of the loop alone takes the frame at the tail and posts its slot behind all others |
| `RxProgress.WithinBudget` | sw/linux/emaczero/emaczero.c:601-603 | a poll takes no more frames than its budget |
| `RxProgress.CompletionMarks` | sw/linux/emaczero/emaczero.c:415-430 | a completion marks the slot due with the DMA's length and result, a failed one with the gate up first |
| `RxProgress.FreedReturns` | sw/linux/emaczero/emaczero.c:472-488 | a buffer of the current pool given back can be posted again, one of an earlier pool never is |
| `RxProgress.RebuildOpens` | sw/linux/emaczero/emaczero.c:1256-1289 | after a rebuild the gate is down and every slot is posted with a new buffer |
| `RxTheorems.FailuresBehindGate` | sw/linux/emaczero/emaczero.c:611-616 | a slot done with an error, or left neither posted nor done after a poll, is never seen without reset_pending |
| `RxTheorems.GateShutsReposts` | sw/linux/emaczero/emaczero.c:442-444 | once the gate is up and NAPI is between polls, no run before the rebuild posts a slot |
| `RxRing.Ring.TakeFrame` | sw/linux/emaczero/emaczero.c:617-645 | the frame's fate, on the array, is the machine's step |
| `RxRing.Ring.Repost` | sw/linux/emaczero/emaczero.c:647-655 | a repost moves rx_tail one on modulo 128, a refused one leaves it |
| `RxRing.Ring.StartCallback` | sw/linux/emaczero/emaczero.c:415-424 | the slot that the descriptor names, on the array, is the next one due |
| `RxRing.ActNapi` | sw/linux/emaczero/emaczero.c:596-669 | any step of a poll, taken on the array, reaches the machine's next state |
| `RxRing.Act` | sw/linux/emaczero/emaczero.c:415-669 | so does any step of any actor, and it keeps the machine's invariant |
| `RxRing.ActAll` | sw/linux/emaczero/emaczero.c:415-669 | and any interleaving, rebuilds included |
| `InternetChecksum.OnesSumAllOnes` | sim/cocotb/lib/csum.py:34-48 | a sum reads 0xFFFF exactly when the words add to a nonzero multiple of 65535 |
| `InternetChecksum.FoldSpec` | sim/cocotb/lib/csum.py:41-43 | folding takes off multiples of 65535 and ends at 0 only for 0 |
| `InternetChecksum.OnesSumLoop` | sim/cocotb/lib/csum.py:34-43 | the padding, adding and folding loops compute the ones' sum |
| `InternetChecksum.InsertVerifies` | sim/cocotb/lib/csum.py:46-48 | a checksum put in its zeroed field makes the sum all ones; so does the other zero |
| `InternetChecksum.VerifiesIsChecksum` | sim/cocotb/lib/csum.py:46-48 | a field that verifies holds the checksum of the rest, or the other zero |
| `InternetChecksum.SpoiledFails` | sim/cocotb/lib/csum.py:245-248 | a header checksum XORed with 0x8001 never verifies |
| `InternetChecksum.ByteOrderIndependent` | sw/linux/emaczero/emaczero.c:764-771 | little-endian words give the byte-swapped sum |
| `IpOptions.OptionsSkip` | sim/cocotb/lib/csum.py:54-76 | the walk ends, and its loop computes the recursive walk |
| `IpOptions.WalkFindsSourceRoutes` | sim/cocotb/lib/csum.py:54-76 | on every well-formed list with EOL and anything after it, or none, the walk is true exactly when a source route comes before the end |
| `IpOptions.Reads` | sim/cocotb/lib/csum.py:54-76 | any bytes are a well-formed list followed by its end or by an option that cannot be read |
| `IpOptions.WalkExactly` | sim/cocotb/lib/csum.py:54-76 | on any such reading, so on any bytes, the walk is true exactly for a readable source route, one whose option cannot be read, or a length below two |
| `Packet.JudgeAgrees` | sim/cocotb/lib/csum.py:211-304 | on every untruncated frame, followed by anything: the datagram is found whole, the IPv4 header good exactly when not spoiled, the L4 checksum applicable exactly when built, and good exactly when not spoiled, but for UDP 0x0101 |
| `Packet.JudgeAgreesPadded` | sim/cocotb/lib/csum.py:360-362 | padding to 60 bytes changes no verdict |
| `Packet.GoodPacketVerifies` | sim/cocotb/lib/csum.py:184-193 | a fault-free packet's pseudo-header and covered bytes add to all ones in the frame |
| `Packet.ForcedZero` | sim/cocotb/lib/csum.py:343-357 | the checksum is forced to exactly zero for coverage of 10 or more; for 8 and 9, exactly when the stated condition on word and checksum holds |
| `PacketFacts.PseudoWords` | sim/cocotb/lib/csum.py:184-193 | the pseudo-header adds the addresses, the protocol and the length, for either IP version; ICMP over IPv4 has none |
| `PacketFacts.GoodPacketAddsUp` | sim/cocotb/lib/csum.py:184-193 | in a fault-free packet's frame, addresses, protocol, length and covered bytes add to a multiple of 65535 |
| `PacketFacts.FieldPlaces` | sim/cocotb/lib/csum.py:221-231 | the checksum is written at offset 16, 6 or 2 by protocol, UDP's zero as 0xFFFF, and no other L4 byte changes |
| `PacketFacts.Applies4` | sim/cocotb/lib/csum.py:195-207 | over IPv4 the checksum applies, in terms of the header's bytes, to unfragmented TCP, UDP and ICMP without a source route |
| `PacketFacts.Applies6` | sim/cocotb/lib/csum.py:207-209 | over IPv6 to TCP, UDP and ICMPv6 |
| `PacketFacts.CutNotDone` | sim/cocotb/lib/csum.py:259-265 | a datagram cut short is not whole, its L4 checksum does not apply, its IPv4 header is judged only if left |
| `PacketFacts.ReportsFields` | sim/cocotb/lib/csum.py:268-304 | the positions and checksums the judge reports are those the frame holds, of any packet with nothing spoiled or left out |
| `PacketCases.SpoiledPasses` | sim/cocotb/lib/csum.py:227-230 | a packet whose spoiled UDP checksum reads as none and is judged good |
| `PacketCases.NotForced` | sim/cocotb/lib/csum.py:343-357 | packets of coverage 8 and 9 whose checksum is not forced to zero |
| `PacketCases.OffsetTooWide` | sim/cocotb/lib/csum.py:239-240 | a packet whose frame the driver parses and whose checksum the judge finds not to apply |
| `CsumParse.ParseExact` | sw/linux/emaczero/emaczero.c:517-569 | on any built, untruncated frame the parser accepts exactly the packets in its scope, with their L4 offset, protocol and length |
| `CsumParse.FoundFacts` | sw/linux/emaczero/emaczero.c:557-568 | what it finds lies inside the buffer |
| `CsumParse.ScopeContained` | sw/linux/emaczero/emaczero.c:517-524 | a frame it accepts is judged whole, same offset and length, and its checksum applies, unless the asked-for fragment offset does not fit its field |
| `PacketFacts.ScopeOnWire` | sw/linux/emaczero/emaczero.c:526-568 | the scope in terms of the header's bytes: version, header length, fragment bits, protocol, lengths |
| `CsumParse.VouchedIsRight` | sw/linux/emaczero/emaczero.c:571-594 | a frame the judge passes and the driver vouches for adds to all ones |
| `PacketFacts.VouchedExactly` | sw/linux/emaczero/emaczero.c:579-594 | of built packets the driver vouches for exactly those in scope with TCP, or a UDP checksum that is there |
| `PacketFacts.GoodIsVouched` | sw/linux/emaczero/emaczero.c:579-594 | for every fault-free one in scope, TCP or UDP |
| `CsumParse.HeldExactly` | sim/cocotb/lib/csum.py:290-300 | behind any pseudo-header the sum is all ones exactly when the field holds the checksum or the other zero |
| `TxChecksum.TxCopy` | sw/linux/emaczero/emaczero.c:748-773 | what the bounce buffer holds on every path, the rest of it unchanged, and an error exactly when the field is outside the frame or a copy out of the skb fails |
| `TxChecksum.SoftwareAgrees` | sw/linux/emaczero/emaczero.c:723-773 | for every frame left to the inserter, the software path would send the inserter's bytes, but 0xFFFF for a TCP zero |
| `TxChecksum.BothRight` | sw/linux/emaczero/emaczero.c:739-773 | both datagrams add to all ones; they differ exactly for a TCP checksum of zero |
| `TxChecksum.InserterIsBuilders` | sim/cocotb/lib/csum.py:221-231 | whatever the field held, the inserted checksum is the one the reference builder wrote |
| `TxChecksum.InserterKeepsRight` | sw/linux/emaczero/emaczero.c:745-746 | a right frame passes the inserter unchanged, but for the other zero |
| `TxChecksum.InserterSettles` | sw/linux/emaczero/emaczero.c:745-746 | whatever the frame held, what the inserter sends adds to all ones, and it would send it again |
| `TxChecksum.RightExactly` | sim/cocotb/lib/csum.py:221-231 | a datagram adds to all ones exactly when its field holds the reference checksum or the other zero |
| `PacketFacts.FramePseudoWords` | sw/linux/emaczero/emaczero.c:739-773 | the pseudo-header of a frame adds its addresses, protocol and length |
| `PacketFacts.DatagramAddsUp` | sw/linux/emaczero/emaczero.c:739-773 | a frame's datagram is right exactly when addresses, protocol, length and bytes add to a multiple of 65535 |
| `PacketFacts.ByMacExactly` | sw/linux/emaczero/emaczero.c:717-737 | an untruncated packet without a trailer is left to the inserter exactly when in scope, not too long, and the stack asks for its own checksum over all of it |
| `PacketFacts.SoftwareRight` | sw/linux/emaczero/emaczero.c:757-773 | the software path is right for any field that holds the sum of its pseudo-header, whatever the protocol |
| `PacketFacts.PartialLeavesRight` | sw/linux/emaczero/emaczero.c:739-773 | a frame in scope the stack left to fill in leaves with a right checksum, inserter on or off |
| `RxMark.MarkedWasChecked` | sw/linux/emaczero/emaczero.c:579-594 | over every run of feature changes, rebuilds, flush outcomes and waiting frames, a frame marked verified was taken whole with the checker on and is in the parser's scope |
| `RxMark.StepKeeps` | sw/linux/emaczero/emaczero.c:1291-1297 | each step keeps the marking invariant |
| `RxMark.MarkedExactly` | sw/linux/emaczero/emaczero.c:579-594 | over any run without a stop, from a state with marking on: past the frames to be left out, a frame is marked exactly when it is vouched for |
| `RxMark.PacketMarkedExactly` | sw/linux/emaczero/emaczero.c:579-594 | a delivered packet past those is marked exactly when in scope with TCP or a UDP checksum that is there, so every fault-free UDP or TCP packet in scope is |
| `RxMark.InOrder` | sw/linux/emaczero/emaczero.c:617-643 | over runs of frames taken and delivered, what is delivered and waiting is what came, in order |
| `RxMark.UpMarks` | sw/linux/emaczero/emaczero.c:1291-1297 | a start with the checker on and a clean flush is such a state, with one frame to leave out |
| `RxMark.SecondIsMarked` | sw/linux/emaczero/emaczero.c:584-593 | a run in which the second frame is marked and the first is not |
| `RxMark.FirstMayBeUnchecked` | sw/linux/emaczero/emaczero.c:575-578 | a run in which marking is on and the first frame was not taken whole with the checker on |
| `RxMark.WaitingUnchecked` | sw/linux/emaczero/emaczero.c:1291-1296 | any number of unchecked frames may wait behind a flush that timed out |
| `RxMark.Driver.CsumOk` | sw/linux/emaczero/emaczero.c:579-594 | the driver's fields decide as the machine does |
| `RxMark.Driver.CsumConfig` | sw/linux/emaczero/emaczero.c:1511-1535 | from the features, the flag and what the core has: no change, a change while down, or down, apply and up, the interface closed exactly when the start fails |
| `Crc32.CrcRawLoop` | sim/cocotb/lib/txpath_bench.py:41-53 | the loops compute the recursive CRC |
| `Crc32.ByteWiseIsBitSerial` | sim/cocotb/lib/txpath_bench.py:41-47 | the byte-wise CRC is the bit-serial one over the wire's bits |
| `Crc32.ResidueExactly` | sim/cocotb/lib/eth.py:22-33 | for every payload, the residue is 0xDEBB20E3 exactly when the four bytes are the little-endian complement of its CRC, which is when fcs_ok holds |
| `Crc32.BurstDetected` | sim/cocotb/lib/eth.py:31-33 | any change within one window of 32 bits, anywhere in payload and FCS, breaks residue and FCS |
| `Crc32.BytesDetected` | sim/cocotb/lib/eth.py:31-33 | so does any change within four consecutive bytes |
| `Crc32.SpoiltFcsFails` | sim/cocotb/lib/gmii_rx_driver.py:41-43 | an FCS whose first byte is inverted never passes |
| `Saf.SafExpected` | sim/cocotb/lib/model.py:22-47 | the loop's frames are those of the declarative policy |
| `Saf.CutAtTlast` | sim/cocotb/lib/model.py:25-29 | runs and tail are the stream, cut after each tlast and nowhere else |
| `Saf.SegmentIs` | sim/cocotb/lib/model.py:25-29 | tlast comes with the last byte of a segment marked last, and no other |
| `Saf.SegmentJoins` | sim/cocotb/lib/model.py:25-29 | an empty segment is nothing, one marked last ends the run it is part of, any other joins the next |
| `Saf.WholeFrames` | sim/cocotb/lib/model.py:22-47 | nonempty segments all marked last go out one by one, cut to max_frame, zero-padded to 60 |
| `Saf.OpenTail` | sim/cocotb/lib/model.py:34-47 | bytes without a tlast behind them add a frame only once they reach max_frame |
| `Saf.ExpectedStep` | sim/cocotb/lib/model.py:34-45 | what one more byte puts on the wire |
| `Saf.PrefixKept` | sim/cocotb/lib/model.py:34-47 | the output for a prefix of the stream is a prefix of the whole output |
| `Mii.Monitor.Run` | sim/cocotb/lib/mii_monitor.py:23-36 | payloads, errors and faults are those of the trace's ended runs, in order |
| `Mii.NibbleCapture.RunAll` | sim/cocotb/lib/txpath_bench.py:192-215 | the callbacks are the bytes and counts of the same runs |
| `Mii.DecodersAgree` | sim/cocotb/lib/txpath_bench.py:192-215 | on every trace the monitor's verdict on each frame is the verdict on the bytes the capture's callbacks handed over, but for runs of an odd number of nibbles |
| `Mii.KeepRuns` | sim/cocotb/lib/txpath_bench.py:203-215 | the callbacks hand over exactly the bytes of the trace's ended runs |
| `Mii.JudgesEncoded` | sim/cocotb/tests/test_eth_mac_sys_rx_nibble.py:91-98 | an encoded frame comes back good with 15 fives and is rejected with any other number |
| `Mii.JudgeExactly` | sim/cocotb/lib/mii_monitor.py:38-59 | which nibbles the monitor accepts, and which error it reports for any others |
| `Mii.FrameExactly` | sim/cocotb/lib/mii_monitor.py:48-59 | the payload and FCS of an accepted run, in nibbles, kept whether or not they match |
| `Mii.RoundTrip` | sim/cocotb/lib/mii_monitor.py:23-59 | any list of payloads, an idle cycle or more after each, comes back as that list with no error |
| `Mii.DamageSeen` | sim/cocotb/lib/mii_monitor.py:54-58 | damage within four bytes behind the SFD is counted as an FCS error |
| `Mii.Scoreboard.Check` | sim/cocotb/lib/model.py:57-68 | adds no error exactly when the payloads are the expected ones |
| `Mii.EndToEnd` | sim/cocotb/lib/model.py:22-68 | for every stimulus, the policy's frames, sent and monitored, pass the scoreboard |
| `Stats.Counters.Fold` | sw/linux/emaczero/emaczero.c:942-969 | the loops, with events arriving at every register access, do the specified fold |
| `Stats.Counters.RegTotal` | sw/linux/emaczero/emaczero.c:986-1000 | the total of the counter with that register, 0 if there is none |
| `Stats.FoldOfCounter` | sw/linux/emaczero/emaczero.c:948-969 | what a fold does to one counter: when it is read, when it is cleared, and that other groups leave it alone |
| `Stats.FoldKeepsBelow` | sw/linux/emaczero/emaczero.c:899-905 | through any fold, saturation included, no total passes the truth or goes back |
| `Stats.FoldLosesExactly` | sw/linux/emaczero/emaczero.c:956-966 | without saturation a fold loses exactly what arrives between a counter's read and its group's clear, nothing for groups not folded |
| `Stats.LossBound` | sw/linux/emaczero/emaczero.c:956-966 | read backwards, the first counter of a group loses one access's arrivals at most, each after it one access's more |
| `Stats.FoldsWhenDue` | sw/linux/emaczero/emaczero.c:948-955 | a group that stays below 2^31 through the scan is left alone, one with a counter already there is folded whole |
| `Stats.FoldLeavesRoom` | sw/linux/emaczero/emaczero.c:949-951 | a fold leaves every counter below 2^31 but for what came during it |
| `Stats.RunExact` | sw/linux/emaczero/emaczero.c:975-984 | with fewer than 2^31 events from each fold's start to the next one's end nothing saturates, and truth = total + what fell between reads and clears |
| `Stats.Counters.TxMacFrames` | sw/linux/emaczero/emaczero.c:1014-1023 | TX_FRAME's total, read first, less PAUSE_TX's |
| `Stats.ReportsLow` | sw/linux/emaczero/emaczero.c:1007-1013 | the reported count of sent frames never passes the true one |
| `Stats.MacFramesExact` | sw/linux/emaczero/emaczero.c:1014-1023 | after folds in time the report is the frames sent less PAUSE frames, but for what the folds lost of either |
| `Stats.GrowsLow` | sw/linux/emaczero/emaczero.c:1007-1013 | over any folds and reads no total grows by more than what arrived |
| `Stats.DifferenceLow` | sw/linux/emaczero/emaczero.c:1141-1142 | nor does the reported count, less a base read earlier, pass the data frames sent since by more than the PAUSE frames taken and not yet sent at the base |
| `Watchdog.State.OnTick` | sw/linux/emaczero/emaczero.c:1365-1401 | the fields answer each tick as the whole history of ticks demands |
| `Watchdog.FrozenIsReset` | sw/linux/emaczero/emaczero.c:1388-1394 | whatever came before, a TX channel frozen over three ticks with the carrier up gets a reset by the third |
| `Watchdog.ResetOnlyFrozen` | sw/linux/emaczero/emaczero.c:1388-1398 | a TX-side reset is asked for only after three consecutive intervals with the tail in one place |
| `Watchdog.StreakExact` | sw/linux/emaczero/emaczero.c:1388-1397 | the stuck counter is at least n exactly when the last n intervals stood still |
| `Watchdog.RxResetExactly` | sw/linux/emaczero/emaczero.c:1380-1385 | an RX reset is asked for exactly when drops moved and progress did not, since the last tick or since up |
| `Watchdog.QuietExactly` | sw/linux/emaczero/emaczero.c:1380-1398 | no reset is ever asked for if and only if progress moves wherever drops do and TX is frozen over no three ticks |
| `Multicast.DriverHash` | sw/linux/emaczero/emaczero.c:1459-1470 | the driver's loops compute the XOR of the address's eight 6-bit slices |
| `Multicast.FilterIndex` | sim/cocotb/tests/test_eth_mac_rx_mcast.py:45-50 | so does the filter's fold, of the address as a number |
| `Multicast.BucketBits` | sw/linux/emaczero/emaczero.c:1459-1470 | bucket bit b is the parity of the address's bits b, b + 6, ..., b + 42 |
| `Multicast.SetRxMode` | sw/linux/emaczero/emaczero.c:1472-1494 | with the hash filter a group address is admitted exactly when promiscuous, all-multicast, or in the bucket of a listed address; without it, any list turns the filter off |
| `Multicast.Subscribed` | sw/linux/emaczero/emaczero.c:1472-1494 | every subscribed group address is admitted |
| `Xon.Slack` | fpga/arty_a7/scripts/rgmii_lb_selftest.py:290-291 | the smallest of the margins |
| `Xon.NoBreak` | fpga/arty_a7/scripts/rgmii_lb_selftest.py:250-252 | with no negative margin TX is paused without a break until Q = 0, and were it ignored until the last pause ran out |
| `Xon.BreakPossible` | fpga/arty_a7/scripts/rgmii_lb_selftest.py:290-304 | with a negative margin some admissible timing has a break |
| `Xon.HonouredPasses` | fpga/arty_a7/scripts/rgmii_lb_selftest.py:305-323 | a MAC that honours Q = 0 stalls between lo and hi and passes, counted where the verdict counts |
| `Xon.IgnoredFails` | fpga/arty_a7/scripts/rgmii_lb_selftest.py:255-260 | one that ignores it stalls at least `ignored`, and fails wherever the verdict counts |
| `Xon.OutsideFails` | fpga/arty_a7/scripts/rgmii_lb_selftest.py:319-323 | a gap below lo or above hi fails, whatever the slack |
| `Xon.BreakFails` | fpga/arty_a7/scripts/rgmii_lb_selftest.py:305-323 | an attempt in which the pauses may have run out never passes |
| `Xon.LoReached` | fpga/arty_a7/scripts/rgmii_lb_selftest.py:306 | lo, when not negative, is the stall of an honouring MAC |
| `Xon.HiReached` | fpga/arty_a7/scripts/rgmii_lb_selftest.py:307 | hi is always that of one |
| `Xon.IgnoredReached` | fpga/arty_a7/scripts/rgmii_lb_selftest.py:308-310 | `ignored` is that of an ignoring one, if the last pause is written late enough |
| `Xon.Choose` | fpga/arty_a7/scripts/rgmii_lb_selftest.py:294-304 | the attempt taken is the first with positive slack, or the third |

## Left out

- Weak memory: the acquire, release and barrier points are step boundaries of a sequentially consistent machine.
- The whole-call order inside `emz_start_xmit` and `emz_tx_complete` is carried by program counters; `TxRing.Ring` has one method per access, and `ActAll` runs them in any interleaving.
- BQL's own limit, which may stop the queue as well, and `netif_tx_disable`'s locking: the queue flag is the driver's bit alone.
- `emz_rx_flush` as a loop over the receive ring: a turn of it that reposts does to the ring what the poll's drop path does, and the marking machine has its outcomes; a refused repost in it ends in the channels' stop, which the receive machine has as its rebuild.
- TxTheorems.DrainExact: assumes reported differences never above the true ones (`Stats.DifferenceLow` gives that while no PAUSE frame waits in the MAC at the base and none of its counts is lost), lags below 2^31 and, after a drain in doubt, a base taken with nothing queued.
- TxTheorems.NoLostWakeup: one-way, as a stale wake need not lose a wakeup; `TxTheorems.AwaitedUnlessLate` has the exact condition.
- CsumParse.ScopeContained: stated for built packets, as the judge needs the packet; the parser itself is defined on any buffer.
- Stats.Counters.Fold: 64-bit totals do not wrap in the model.
- Stats.ReportsLow: takes as given that no PAUSE count was lost, as the driver's comment does; so does `Stats.DifferenceLow`, and both speak of counts before any wrap at 2^64.
- The receive ring's `issue_pending` kicks and the receive statistics NAPI counts.
- RxMark: a frame whose checksum the checker found wrong never reaches the stream's end; the model takes what is in the stream.
- Mii.NibbleCapture: X values on the pins, and traces with resets inside, which the per-clock method has and the whole-trace method does not.
- Xon: floating-point rounding, the clock-driven loop that grows the list of writes, and how max_gap is measured; times are real numbers.
- Packet: the random generator; the drawn bytes are parameters.
- The RTL, phylink and MDIO, the device tree, channel requests, interrupt masking around the DMA stop, ethtool strings, LiteX, socket and serial scripts: I/O, foreign code or single-branch facts.
- `BridgeMiiCapture`, `rx_model.py`, the scoreboard's error texts: easy members only.
