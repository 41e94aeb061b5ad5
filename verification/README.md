# PCIe co-simulation: a verified model

This project models the PCIe co-simulation stack and proves what it does on every run. QEMU's register
accesses reach a bridge process, cross two stream sockets as "soft-TLP" packets to a simulator process, and
are clocked beat by beat into an AXI RAM. Two tools around it are modelled as well: the Wireshark
dissector for vfio-user and the path filter of the socket sniffer. Code that changes registers, buffers or
tables step by step is a class or a method proved against a specification function; the results for all
runs are lemmas about those functions.

Check everything with `dafny verify dfyconfig.toml` (Dafny 4.11). Every lemma to which Dafny would apply
automatic induction carries `{:induction false}`, recursive or not: each induction is written out where it is
needed. For a parameter of type `seq<Packet>`, say, Dafny 4.11 states parts of the automatic hypothesis for
sequences of anything, which is not sound to rely on.

## How the parts fit together

- `AxiRam`, `AxiBurst`, `AxiWrite`, `AxiRead`: one clock edge of `axi_ram.v` is a step over its registers
  with arbitrary inputs; bus width, address width and the output pipeline are parameters. The abstract side
  is a plain word memory and logs of what was accepted and delivered.
  `AxiReadAfterWrite` joins the two sides: a read beat is the latest write. `AxiProgress` says what is owed in
  time: no valid or ready waits for the other side longer than it must.
- `SimTop`, `WriteEnvelope`, `ReadLatch`: the glue of `sim_top.sv` around that RAM, with the signals of the
  packet engines as inputs. `RegisterFile` joins its write and read sides.
- `Transactor`: the word-level loops that drive the RTL, for every behaviour of the RTL's outputs.
- `Protocol`, `Receive`: the packet format, streams of packets, and reading packets off a socket that cuts
  and interrupts them.
- `Device`: the sequential device the whole stack is meant to look like; `DeviceWords` says register by
  register and byte by byte what it does, and `WireFormat` what its packets are on the wire.
- `SoftTlp` is the system of bridge, simulator and interrupt listener over three byte streams; `EndToEnd` holds
  its results; `Bridge` is the bridge's own call and the channel selector it shares with the listener;
  `SharedTlp` is the system with that selector in it, looked up where the code does, and `ListenerSpan` what can
  go wrong there.
- `Setup`, `SimLoop`: connecting and shaking hands; the simulator's packet loop, what it does with each
  packet and how it ends. `SimServe` shows one pass of that loop to be the system's Serve move.
- `VfioUser`, `VfioMessages`, `SockFilter`: the tools. `PowersOfTwo` holds arithmetic.

## What the proofs showed about the code

- The write envelope loses a word when `wr_en` rises while it is full and the RAM is not taking its data,
  and only then (`PairedExactlyWithoutOverrun`, `AdjacentPulsesCollide`).
- A read that succeeds carries its own answer as long as fewer than 256 requests have been issued since the
  oldest unanswered read. At 256 it can be given a stale one (`OwnAnswerWithin256`, `StaleAnswerAfter256`).
- A read that is answered gets its own answer if and only if no earlier read has timed out. After one timeout
  the two sides never line up again: every later read fails, or succeeds with an answer at least 256
  requests old (`OwnReplyIffNoEarlierTimeout`).
- A packet the bridge may send can be more than the simulator takes: packets arrive as sent if and only if
  none is a write of more than 1024 bytes (`FramingToSim`). A count is cut to 16 bits in the header, but a
  write returns the count it was given (`Bridge.Caller.PcieBridge`).
- When the socket that is not active shuts down, the simulator's loop ends at once, with the active socket
  still open and unread (`WhenTheLoopEnds`, `IdleShutdownEndsTheLoop`). The bridge's own disconnect sends NACK
  on the main channel before it shuts both down; unless the simulator sees the other channel's shutdown
  first while main is the active one, everything sent is served; if it does, what is left on main never is
  (`GracefulDisconnect`).
- A receive that fails in the bridge leaves its stream at a packet boundary if and only if no byte of a packet
  had come; the bytes that had are lost and the next header is read from the middle of the packet
  (`FailureKeepsBoundary`, `TimeoutKeepsFraming`).
- The listener writes the channel selector that the main thread uses. A send inside that span goes to the
  wrong socket, and only a MSG puts the selector back: after any other packet that ends the listener, all later
  traffic, the NACK of a disconnect included, goes to the async channel (`MainTrafficIffNotExposed`,
  `AfterTheListenerLeaves`). One read sent in that span is enough: its acknowledgement can end the listener,
  and the read then has no answer to wait for (`ReadInTheSpan`). So is one receive begun there: its time limit
  is set on main, it waits on async, and with its answer unread on main nothing in the system can move any
  more (`ReceiveInTheSpan`, `SharedSelectorDeadlocks`). If another interrupt comes it is taken for the answer, and
  its payload may be read off the other stream (`TornReceive`). Without such a lookup no call ever hangs
  (`SeparateCallGoesOn`).
- A word read never clocks beat 0 into an RTL that is ready at once, a word write does
  (`ReadBeat0OnlyClockedWhileBusy`, `WriteOffersBothBeats`).
- The two-channel set-up cannot get stuck because channel 0 is connected first; in the other order it can
  (`SetupCompletes`, `ReversedConnectsDeadlock`).
- The dissector labels all messages of a segment with one message's direction bit: the first one's on the
  first visit and, if the segment also begins another message, that one's on later visits
  (`WhenLabelsAreRight`).
- The dissector checks the command of a header only where it scans. A segment that begins with anything whose
  bytes 4 to 7 spell more than its length is kept as the beginning of a message, and completed and shown as
  one with the segments that follow (`AnyLongSizeBeginsOne`, `NoMessageShownAsOne`).
- A read the end point does not fill the buffer for, of a BAR that does not exist or of configuration space, is
  acknowledged with a count and no data behind it, which the bridge cannot take whole
  (`AcknowledgedWholeIff`). A STATUS message leaves the selector on async until the next MSG
  (`StatusLeavesSelector`).

## Assumptions

- Sends are complete and accepts succeed, within the accept timeout.
- In `SoftTlp` and `EndToEnd`, accesses are word-aligned, lie within the 4 KB BAR, and carry 0 < count <= 1024
  bytes, count a multiple of 4. The end point's handlers, the simulator's loop and the bridge's call take
  any packet and any count.
- A read timeout falls between packets, possibly with the reply already on its way. What happens otherwise is
  `FailureKeepsBoundary` and, for the bridge's call, `ReceiveIsAnswerOrGiveUp`.
- `SoftTlp` has no channel selector. `SharedTlp` has, and proves that a run in which the main thread never
  looks it up in the listener's span is a run of `SoftTlp` (`SeparateRunsProject`).
- BAR0 is a register file of 512 words, chosen by bits 10..2 of the address in the packet's second beat,
  whose words are read and written atomically. That the glue and the RAM behave so for pulses that are not
  adjacent is `ReadsTheLastPulse`; the timing of the accesses is `Transactor`. The packet engines
  PIO_RX_ENGINE and PIO_TX_ENGINE, which turn beats into `wr_en` pulses and sample `rd_data`, are not part of
  this model.
- BAR1 is indexed from word 0 whatever the offset, as the code does, though the bridge passes the offset on.

## Model

| member | source | states |
|---|---|---|
| AxiRam.Ram.constructor | src/hdl/axi_ram.v:169-177 | power-up state: idle machines, every word zero |
| AxiRam.Ram.Clock | src/hdl/axi_ram.v:179-373 | one edge on the register fields is the step function, both machines and the memory together |
| AxiRam.Ram.WriteEdge | src/hdl/axi_ram.v:179-279 | the write half of an edge: state, address, count, response and the strobed lanes of one word |
| AxiRam.Ram.ReadEdge | src/hdl/axi_ram.v:281-373 | the read half, from the memory as it was before the edge's write |
| AxiRam.ClampSize | src/hdl/axi_ram.v:203 | the stored size never exceeds the bus and keeps any size that fits it |
| AxiBurst.NextBeat | src/hdl/axi_ram.v:218-220 | the incremented register is the address of the next beat of the request, wrapping with the address width |
| AxiBurst.IncrementSelectsSpecWord | src/hdl/axi_ram.v:150-153 | for any start, size and beat, the word selected is that of the aligned burst address of ARM IHI 0022E section A3.4.1, modulo the address space |
| AxiBurst.BurstTypes | src/hdl/axi_ram.v:218-220 | type 0 stays at its word; types 1, 2 and 3 all add the transfer size, modulo the address space |
| AxiWrite.RunTracks | src/hdl/axi_ram.v:179-279 | the invariant of every run after reset: registers, logs and memory agree |
| AxiWrite.MemoryIsStoredBeats | src/hdl/axi_ram.v:213-279 | for every stall pattern `mem` is the plain memory after the accepted W beats, strobe-merged at the bursts' successive words |
| AxiWrite.BurstsTakeTheirBeats | src/hdl/axi_ram.v:195-238 | each AW takes exactly awlen+1 W beats; `wready` holds exactly while some are owed; the 8-bit wrap does not matter |
| AxiWrite.ResponsesFollowRequests | src/hdl/axi_ram.v:213-250 | AWs accepted = Bs delivered + pending B + busy write machine; B ids in AW order; RESP implies bvalid; wready exactly in BURST |
| AxiWrite.ResponseHeld | src/hdl/axi_ram.v:192-193 | B channel of section A3.2.1: valid and id hold until taken, from any state |
| AxiWrite.EdgeOnMemory | src/hdl/axi_ram.v:274-278 | one edge changes exactly the strobed lanes of the addressed word, if a beat is taken, reset or not |
| AxiWrite.LastStrobedBeatWins | src/hdl/axi_ram.v:274-278 | a byte of the memory is that of the last beat that strobed its lane at its word, or the initial one |
| AxiRead.RunTracks | src/hdl/axi_ram.v:281-373 | the invariant of every run after reset for the read side, both pipeline settings |
| AxiRead.ReadsDeliverTheBursts | src/hdl/axi_ram.v:281-373 | delivered ++ pipe stage ++ output register = beats fetched; fetched beat k is planned beat k of the accepted ARs: id, rlast, word before that edge's write |
| AxiRead.BurstsGetTheirBeats | src/hdl/axi_ram.v:298-334 | exactly arlen+1 beats per AR, and no new AR while some are owed |
| AxiRead.ReadBeatHeld | src/hdl/axi_ram.v:350-372 | R channel of section A3.2.1: valid, id, data and last hold until taken, from any state, both settings |
| AxiReadAfterWrite.ReadsSeeTheLatestWrite | src/hdl/axi_ram.v:179-373 | in every run from reset, under any stalls: each lane of the k-th read beat is what the last strobed W beat taken before the fetching edge carried to its planned word, or the initial lane |
| AxiProgress.DataComesUnasked | src/hdl/axi_ram.v:315-353 | section A3.2.1: while a beat asked for is not handed over, RVALID is up within one edge, two with the pipeline, whatever rready does; and it is up only then |
| AxiProgress.ReadyEdgesDeliver | src/hdl/axi_ram.v:315-372 | m outstanding beats are handed over in exactly that many edges with rready high: one a beat, one more for each empty output stage, whatever is asked for meanwhile |
| AxiProgress.ReadsCompleteInTime | src/hdl/axi_ram.v:315-372 | so everything asked for, a burst just accepted included, takes its beats and the depth of the output |
| AxiProgress.ReadAddressAccepted | src/hdl/axi_ram.v:298-334 | arready is up exactly when every beat asked for has been fetched |
| AxiProgress.ResponseComesUnasked | src/hdl/axi_ram.v:213-250 | bvalid is up exactly while a burst whose data is all taken has no response taken, whatever bready does; at most two such |
| AxiProgress.WriteAddressAccepted | src/hdl/axi_ram.v:195-250 | awready is up exactly when all data is taken and at most one response is outstanding |
| SimTop.Glue.Clock | src/hdl/sim_top.sv:155-254 | one edge of glue and RAM on the register fields is the composed step |
| SimTop.ResetResets | src/hdl/sim_top.sv:167-172 | one edge in reset is enough from any state |
| WriteEnvelope.PairedExactlyWithoutOverrun | src/hdl/sim_top.sv:235-254 | each pulse becomes one RAM write of its own address and data, in order, within two cycles, if and only if none came while the envelope was full and the RAM not ready |
| WriteEnvelope.SpacedPulsesArePaired | src/hdl/sim_top.sv:235-254 | if `wr_en` is never high on adjacent cycles every pulse is so paired and the RAM holds the pulses' words |
| WriteEnvelope.AdjacentPulsesCollide | src/hdl/sim_top.sv:242-249 | two adjacent pulses after reset: the second's data lands at the first's address |
| ReadLatch.LatchFollowsRequests | src/hdl/sim_top.sv:155-201 | in every run from reset the latch is set exactly while a request seen on the pins stands, with word 0x200 + tdata[10:2] and tag tdata[10:2] + 1 modulo 256 |
| ReadLatch.RequestIsServed | src/hdl/sim_top.sv:155-233 | a request that finds the latch clear: its own word on the RAM's read address and its tag, until the first completion, and the latch is clear after it |
| ReadLatch.StandsIff | src/hdl/sim_top.sv:160-191 | which request stands: one that found none standing, with no completion since |
| ReadLatch.RamDrivenByRequests | src/hdl/sim_top.sv:230-254 | in every run from reset, the RAM's port: a read address exactly while a request stands (or the undriven gate is up), and it is that request's; write address and data together, exactly while the envelope is full or wr_en is up |
| ReadLatch.AddressConstantWhileHeld | src/hdl/sim_top.sv:173-201 | while the latch is held its request and the RAM read address do not change |
| ReadLatch.ThreeHeldCycles | src/hdl/sim_top.sv:230-233 | three held cycles bring the latched word to `rd_data` from every state of the read machine |
| ReadLatch.LatchedWordArrives | src/hdl/sim_top.sv:167-233 | from then on `rd_data` is at most two edges old and equals the latched word while that is not written |
| RegisterFile.ReadsTheLastPulse | src/hdl/sim_top.sv:155-254 | write side and read side joined, pins to pins: after any run with no adjacent pulses, five quiet cycles and a request standing for the last three, `rd_data` is the data of the last pulse to word 0x200 + tdata[10:2] of that request, or the initial word |
| Transactor.Bfm.WriteWord | src/sim/pcie_cosim.cpp:218-273 | exactly which pins are clocked at which edge for any RTL; 100 time units a cycle; tvalid low on every exit |
| Transactor.Bfm.ReadWord | src/sim/pcie_cosim.cpp:73-178 | the same for a read, and the value returned; tvalid and tready low on every exit |
| Transactor.Bfm.Await | src/sim/pcie_cosim.cpp:94-99 | a wait loop clocks the held pins until the signal comes, and at most 100 times |
| Transactor.WaitSucceedsWithin99 | src/sim/pcie_cosim.cpp:94-105 | a wait succeeds exactly when the signal comes within 99 cycles, and ends at its first coming |
| Transactor.WriteBound | src/sim/pcie_cosim.cpp:233-272 | at most 210 cycles, and exactly when that many |
| Transactor.ReadBound | src/sim/pcie_cosim.cpp:86-177 | at most 399 cycles, and exactly when that many |
| Transactor.WriteOffersBothBeats | src/sim/pcie_cosim.cpp:233-272 | a write whose waits succeed clocks each beat into a ready RTL once its wait is over, and nothing after |
| Transactor.WriteShowsItsWord | src/sim/pcie_cosim.cpp:223-261 | taken apart by division, every beat offered at a clock edge of a write: type 0x40, length 1, requester, tag and byte enables; then data above the aligned address, whose bits 10..2 name the end point's word; header first |
| Transactor.ReadShowsItsWord | src/sim/pcie_cosim.cpp:78-136 | the same for a read, type 0, with nothing above the address; then only tready |
| Transactor.ReadReturnsUpperWord | src/sim/pcie_cosim.cpp:133-171 | the value is the upper word shown while tvalid is up for the second beat, and there is one exactly when all four waits succeed |
| Transactor.ReadBeat0OnlyClockedWhileBusy | src/sim/pcie_cosim.cpp:86-119 | no edge follows the wait for beat 0 of a read, so it is clocked only while the RTL is not ready |
| Protocol.DecodeEncodeHeader | common/include/protocol.h:49-73 | the 16 packed little-endian bytes decode to the header they encode |
| Protocol.EncodeDecodeHeader | common/include/protocol.h:49-73 | every 16 bytes are the encoding of the header they decode to |
| Protocol.ParseEncode | common/src/socket_channel.cpp:213-275 | a well-formed packet is parsed back off any stream it begins, under the payload rule of its direction |
| Protocol.EncodeParse | common/src/socket_channel.cpp:213-244 | what parses is well formed and is what would have been sent |
| Receive.Socket.DoReceive | common/src/socket_channel.cpp:28-54 | the loop accumulating into a buffer computes the specification's outcome: code, bytes, events left |
| Receive.ReceivedAll | common/src/socket_channel.cpp:28-54 | all bytes asked for are returned exactly when they come before any timeout, error or shutdown; else which code |
| Receive.ReceiveIsParse | common/src/socket_channel.cpp:213-244 | a packet is received if and only if the clear bytes parse, whatever the chunks and EINTRs |
| Receive.Socket.ReceiveHeaderAndData | common/src/socket_channel.cpp:213-244 | `SocketChannel::receive` into the caller's buffer is that reception, INVALID on every failure; and exactly when the packet announces more than that buffer holds |
| Receive.FramingRoundTrip | common/src/socket_channel.cpp:213-244 | any packets sent to the bridge, cut and interrupted in any way, are received as sent |
| Receive.FailedReceive | common/src/socket_channel.cpp:28-54 | a receive that fails, in header or payload, has taken exactly the bytes before the timeout, error or shutdown, and that event |
| Receive.FailureKeepsBoundary | common/src/socket_channel.cpp:213-244 | for any packets cut in any way, a failed receive leaves the stream at a packet boundary iff no byte of a packet had come; else the next header is made of bytes from the middle of it |
| Receive.TimeoutKeepsFraming | common/src/socket_channel.cpp:35-40 | after one timeout all packets sent are still received, in order, iff it came before any byte of them |
| Receive.TimeoutInsidePacket | common/src/socket_channel.cpp:35-40 | the smallest case: a timeout inside a header throws its first bytes away |
| Device.EndPoint.DoWrite | src/sim/pcie_cosim.cpp:275-305 | for any packet received: the registers are changed in place word by word with a 32-bit address that wraps, up to a word that asks for an interrupt; other kinds and BARs do nothing |
| Device.EndPoint.DoRead | src/sim/pcie_cosim.cpp:180-216 | for any packet that fits the buffer: the whole words of a read, per BAR; the bytes behind them stay, and other kinds and BARs leave the buffer alone |
| Device.WrittenIsAfter | src/sim/pcie_cosim.cpp:275-305 | on a packet that stands for an access of the bridge, that loop is the sequential device's write, and interrupts exactly when the access asks for one |
| Device.WordsReadAreReadWords | src/sim/pcie_cosim.cpp:180-203 | and the words read are the sequential device's |
| Device.ReadYourWrite | src/sim/pcie_cosim.cpp:180-305 | what is written is read back word for word, unless it was taken as an interrupt |
| Device.Bar0WrittenAt | src/sim/pcie_cosim.cpp:282-296 | a BAR0 write that is not taken as an interrupt stores each of its words in its own slot |
| Device.Bar0WrittenElsewhere | src/sim/pcie_cosim.cpp:282-296 | a BAR0 write leaves every other slot alone |
| Device.BarsAreIndependent | src/sim/pcie_cosim.cpp:187-304 | each BAR holds what it would hold had the other never been used |
| Device.PacketNamesAccess | src/bridge/pcie_cosim_bridge.cpp:104-110 | BAR, offset, count and direction packed by the bridge are what the simulator takes apart |
| DeviceWords.RegisterHoldsLastWord | src/sim/pcie_cosim.cpp:275-305 | after any accesses a register of either BAR holds the word that reached it last, or its first value; in BAR1 word j of a write reaches register j, in BAR0 the one bits 10..2 of its address name |
| DeviceWords.ReadReturnsBytesWritten | src/sim/pcie_cosim.cpp:180-203 | each word of a read's answer is the four bytes last written to its register, or the register's first value, least significant byte first |
| DeviceWords.InterruptsExactly | src/sim/pcie_cosim.cpp:285-293 | the interrupt is raised exactly by a write to offset 0 of BAR0 that begins with the bytes BE BA DC AC |
| DeviceWords.AnyWrite | src/sim/pcie_cosim.cpp:275-305 | the write handler on any packet, register by register: the words before the first that asks for an interrupt, at addresses that wrap at 32 bits; all else left alone |
| DeviceWords.AnyRead | src/sim/pcie_cosim.cpp:180-216 | the read handler on any packet: which are filled, and the bytes of every whole word |
| WireFormat.RequestOnTheWire | common/include/protocol.h:49-73 | every byte of a request: offset first, BAR in the eighth byte, requester 0x0100, count, type 4 or 5, tag, data |
| WireFormat.PackedOnTheWire | src/bridge/pcie_cosim_bridge.cpp:106-113 | the same for a call with any count, of which the low sixteen bits are sent |
| WireFormat.AcknowledgementOnTheWire | src/bridge/pcie_cosim_if.cpp:468-486 | every byte of the answer to a read: the request's address, count and tag, type 1, then the data |
| WireFormat.InterruptOnTheWire | src/bridge/pcie_cosim_if.cpp:164-174 | the twenty bytes of an interrupt message |
| WireFormat.PayloadFollows | common/src/socket_channel.cpp:231-232 | which headers are followed by data, by type number and direction |
| WireFormat.RunsSendTheirAccesses | src/bridge/pcie_cosim_bridge.cpp:104-117 | in every run the k-th request is on the wire the k-th access, under tag k + 1 modulo 256 |
| SoftTlp.RunsAreGood | src/bridge/pcie_cosim_if.cpp:432-503 | the invariant of every run: streams, registers, tags, waiting read and returned calls all match the history |
| EndToEnd.ReadsTakeTheOldestAnswer | src/bridge/pcie_cosim_bridge.cpp:112-130 | a read that does not time out takes the reply to the oldest unanswered read, computed after all earlier requests; it succeeds iff tags agree modulo 256 and sizes are equal |
| EndToEnd.OwnAnswerWithin256 | src/bridge/pcie_cosim_bridge.cpp:106-124 | within 256 requests of the oldest unanswered read, success means one's own answer, never a stale one |
| EndToEnd.OwnReplyIffNoEarlierTimeout | src/bridge/pcie_cosim_bridge.cpp:117-128 | an answered read takes its own reply iff no earlier read timed out, and then returns the sequential device's answer; otherwise success means an answer at least 256 requests old |
| EndToEnd.WithoutTimeoutsAllReadsAreExact | src/bridge/pcie_cosim_bridge.cpp:104-131 | without timeouts every read returns what the sequential device returns after all earlier requests: no read passes a posted write (PCI Express Base Specification, section 2.4.1) |
| EndToEnd.AnswersComeInIssueOrder | src/bridge/pcie_cosim_bridge.cpp:117-128 | replies are taken one by one in issue order, timeouts or not |
| EndToEnd.ReadsEndInOrder | src/bridge/pcie_cosim_bridge.cpp:117-128 | without timeouts the i-th read that returns is the i-th read issued |
| EndToEnd.StaleAnswerAfter256 | src/bridge/pcie_cosim_bridge.cpp:106-124 | a run in which a read succeeds with the answer of one 256 requests older |
| EndToEnd.InterruptsAreConserved | src/sim/pcie_cosim.cpp:283-294 | vfu_irq_trigger calls + messages in flight = interrupt requests processed; registers as the sequential device |
| EndToEnd.StreamsStayReadable | src/bridge/pcie_cosim_if.cpp:250-313 | whatever is in a stream can be taken off it |
| EndToEnd.WaitingIsNeverStuck | src/bridge/pcie_cosim_bridge.cpp:117-120 | a waiting read without its answer leaves the simulator a request to serve, and serving leaves fewer |
| Bridge.Caller.PcieBridge | src/bridge/pcie_cosim_bridge.cpp:104-131 | one call with any count: the bytes sent under the 16-bit count, the 8-bit tag step, the bytes taken, the return value and the caller's buffer; and exactly when a reply overruns that buffer |
| Bridge.PackedIsRequest | src/bridge/pcie_cosim_bridge.cpp:104-110 | for an access within the limits the packet that call sends is the system's request packet |
| Bridge.ReceiveIsAnswerOrGiveUp | common/src/socket_channel.cpp:213-244 | on any cutting of the reply stream, with timeouts anywhere, a receive is the system's Answer move, with the same bytes left and verdict, or fails; a failed one leaves the stream as GiveUp does iff no byte had come |
| Bridge.MainTrafficIffNotExposed | common/src/socket_channel.cpp:343-372 | what the main thread looks up is the main channel iff none of its lookups falls between the listener's select and its restore |
| Bridge.InterleavedSendGoesAstray | common/src/socket_channel.cpp:361-362 | the smallest bad interleaving |
| Bridge.AfterTheListenerLeaves | src/bridge/pcie_cosim_bridge.cpp:75-102 | once the listener took something other than MSG and STATUS, all later main traffic uses the async channel |
| Bridge.StatusLeavesSelector | common/src/socket_channel.cpp:358-370 | after a STATUS the listener polls again and the main thread's lookups find async |
| Bridge.MessageRestoresSelector | src/bridge/pcie_cosim_bridge.cpp:88-90 | after a MSG the selector is back on main |
| SharedTlp.SeparateRunsProject | common/src/socket_channel.cpp:213-299 | with the selector looked up at each send, setTimeout and recv loop, header and payload apart: every run in which no lookup falls between select and restore, receives in progress or not, is a run of the system without a selector: same bytes, registers, interrupts and outcome of every read |
| SharedTlp.LimitsFollowSelector | common/src/socket_channel.cpp:301-331 | a receive time limit is set and lifted on the channel looked up at that moment and changes at no other event |
| SharedTlp.SeparateReadsAreExact | src/bridge/pcie_cosim_bridge.cpp:104-131 | in such a run without timeouts the i-th read to return is the i-th issued, and returns what the sequential device answers |
| SharedTlp.SeparateCallGoesOn | src/bridge/pcie_cosim_bridge.cpp:117-120 | in such a run a call in progress can always take its next step; a payload whose header has been read is there |
| ListenerSpan.ReadInTheSpan | src/bridge/pcie_cosim_bridge.cpp:75-131 | from every such run that stands between calls with an interrupt message arrived and the listener polling: one read sent after select can be acknowledged on the async channel, end the listener, and be left with no answer on its way |
| ListenerSpan.ReceiveInTheSpan | src/bridge/pcie_cosim_bridge.cpp:117-119 | from the same runs: one read sent on main whose receive looks the selector up after select leads to a state in which no event at all is enabled, with its matching answer unread on main |
| ListenerSpan.TornReceive | common/src/socket_channel.cpp:213-244 | a receive waiting on async that meets an interrupt message: its header is taken, its payload from wherever the selector points then, the read fails and the interrupt is never delivered; with the selector back on main both streams are left torn |
| ListenerSpan.InterruptCanWait | src/sim/pcie_cosim.cpp:283-294 | such runs exist: one write of the interrupt word, served |
| ListenerSpan.SharedSelectorDeadlocks | src/bridge/pcie_cosim_bridge.cpp:88-90 | so from every start and for every read there is a run with that read after which nothing is enabled |
| Setup.StepOk | src/bridge/pcie_cosim_if.cpp:196-246 | every move of either side keeps the order of channels and the lock step of the handshakes, and leaves fewer moves |
| Setup.SetupCompletes | common/src/socket_channel.cpp:140-211 | no interleaving gets stuck or runs long; it ends with transOrder [0, 1] and all packets consumed |
| Setup.ReversedConnectsDeadlock | src/bridge/pcie_cosim_if.cpp:521-537 | with channel 1 connected first there is a run into deadlock |
| SimLoop.Simulator.ReceiveFrom | src/bridge/pcie_cosim_if.cpp:250-313 | `receive` on the first reported socket: packet, oversized packet, or the closing of the socket |
| SimLoop.Simulator.Exchange | src/bridge/pcie_cosim_if.cpp:464-502 | one pass of the loop body is the exchange function, for everything poll may report: packet taken, doWrite or doRead on the end point, bytes sent on either socket, NACK |
| SimLoop.Simulator.Run | src/bridge/pcie_cosim_if.cpp:546-548 | the main loop terminates on every finite input, along a run of exchanges, with no active socket |
| SimLoop.TakeIsParse | src/bridge/pcie_cosim_if.cpp:264-305 | what is taken depends on the clear bytes alone; an oversized write loses only its header |
| SimLoop.FramingToSim | src/bridge/pcie_cosim_if.cpp:264-309 | packets sent to the simulator, cut and interrupted in any way, are taken as sent iff none is a write of more than 1024 bytes |
| SimLoop.WhenTheLoopEnds | src/bridge/pcie_cosim_if.cpp:266-307 | exactly when the loop goes on and with which active socket, exactly when it stops with a socket open, and what is served |
| SimLoop.SentByExchange | src/bridge/pcie_cosim_if.cpp:462-486 | what an exchange sends and on which socket: an acknowledgement where the read came from, an interrupt message on async if it is open, else nothing |
| SimLoop.AcknowledgedWholeIff | src/bridge/pcie_cosim_if.cpp:468-486 | a read's acknowledgement is a whole packet to the bridge iff its count is 0 or it is a memory read of BAR0 or BAR1 |
| SimLoop.ClosedStaysSilent | src/bridge/pcie_cosim_if.cpp:264-281 | a closed socket stays closed; nothing is read from or sent on it |
| SimLoop.IdleShutdownEndsTheLoop | src/bridge/pcie_cosim_if.cpp:266-281 | shutdown of the idle socket ends the loop with the active one open and unread |
| SimLoop.EveryRunEnds | src/bridge/pcie_cosim_if.cpp:546-548 | in every run the active socket is -1 or open, so poll never waits on two closed sockets; length bounded by bytes and sockets left |
| SimLoop.GracefulDisconnect | src/bridge/pcie_cosim_bridge.cpp:64-73 | packets and then NACK on main, nothing on async: whatever poll reports, all are served in order and both sockets closed at the NACK iff the end of the async socket is never met while main is active; if it is, exactly a prefix is served and the rest stays unread |
| SimLoop.DisconnectHeardFirst | src/bridge/pcie_cosim_bridge.cpp:64-73 | with anything on async, all are served if poll never reports async alone while main has bytes |
| SimServe.ExchangeIsServe | src/bridge/pcie_cosim_if.cpp:455-502 | one pass of the loop on the main socket is the system's Serve: oldest request, same registers, same acknowledgement and interrupt bytes |
| SimServe.ExchangeExtendsTheRun | src/bridge/pcie_cosim_if.cpp:546-548 | in every run of the system with a request in transit that pass extends the run by a Serve |
| VfioUser.Dissector.ProcessMsgFrags | tools/net/vfio_user.lua:261-309 | the tables after a segment is first seen; nothing on later visits |
| VfioUser.Dissector.ScanSegment | tools/net/vfio_user.lua:352-396 | the resynchronising loop finds what the recursive scan finds, and keeps a message begun |
| VfioUser.Dissector.Dissect | tools/net/vfio_user.lua:311-409 | one dissection: messages shown, labels, note, bytes consumed, tables after |
| VfioUser.ScanFindsPieces | tools/net/vfio_user.lua:355-396 | on whole messages and perhaps the beginning of one, the scan finds exactly those |
| VfioUser.ReassemblyInvertsSegmentation | tools/net/vfio_user.lua:261-396 | valid messages cut in any way are shown exactly once, in order, and no fragment is left |
| VfioUser.PieceDissected | tools/net/vfio_user.lua:261-309 | after each segment the fragment buffer is nil exactly at a message boundary, else the part seen |
| VfioUser.RevisitShowsTheSame | tools/net/vfio_user.lua:262-262 | any segment of any capture shows the same bytes when visited again, and changes nothing |
| VfioUser.WhenLabelsAreRight | tools/net/vfio_user.lua:367-392 | direction labels are right iff the messages of the segment share the bit used, on the first and on later visits |
| VfioMessages.HeaderTakenIff | tools/net/vfio_user.lua:356-365 | sixteen bytes anywhere are taken for a header iff their command is 1 to 18 but not 14 and their size 16 to 1048576; else the scan moves one byte on |
| VfioMessages.MessageIffBuilt | tools/net/vfio_user.lua:356-365 | built from id, command, size, flags, error and body: a message iff the command is known and the size its length; a reply iff bit 0 of flags |
| VfioMessages.EveryMessageIsBuilt | tools/net/vfio_user.lua:356-365 | and every message is so built |
| VfioMessages.MessageIsShown | tools/net/vfio_user.lua:311-408 | a segment that is such a message is shown as exactly it, labelled by bit 0 of its flags, and leaves nothing behind |
| VfioMessages.AnyLongSizeBeginsOne | tools/net/vfio_user.lua:291-304 | a first segment whose bytes 4 to 7 spell more than its length is kept as a beginning, whatever its command |
| VfioMessages.NoMessageShownAsOne | tools/net/vfio_user.lua:264-274 | and is shown as a message once enough has come, message or not |
| VfioMessages.QuietSegments | tools/net/vfio_user.lua:286-408 | note and bytes consumed for segments that show and begin nothing |
| VfioMessages.NotesOnMessages | tools/net/vfio_user.lua:349-408 | and for segments of messages, the last cut off or not |
| VfioMessages.NotesOnFragments | tools/net/vfio_user.lua:264-347 | and for segments that go on with a message: what is shown, noted, consumed and kept |
| SockFilter.Probe | tools/net/sockdump.py:49-86 | the probe on its zeroed, reused path buffer computes the acceptance predicate |
| SockFilter.ReadPath | tools/net/sockdump.py:64-71 | what a kernel read leaves in the path buffer, for both kinds of address |
| SockFilter.PassesIffPadded | tools/net/sockdump.py:225-237 | the u64 comparisons hold exactly of the wanted bytes with zeros behind them |
| SockFilter.FilterIsByteMatching | tools/net/sockdump.py:208-239 | a message is accepted iff the path of either end is the pattern, or begins with it for a trailing '*'; neither padding nor memory behind the NUL matters |
| SockFilter.WhenPatternsAreRefused | tools/net/sockdump.py:218-220 | exactly which patterns raise the error: a path of 108 bytes can be a prefix match but not named |

## Left out

- SoftTlp.RunsAreGood: takes each word access to the RTL as one atomic step on a register file, because the packet engines between transactor and RAM are not in the repository; so do the results in `EndToEnd`.
- EndToEnd.WaitingIsNeverStuck: does not model the ten-second limit of a read in time; a timeout may come at any moment of the wait.
- SimLoop.Simulator.Run: a read of more than 1024 bytes makes the source reach past its packet buffer, in the send of the acknowledgement or already when it stores the words; the model records that in `overrun` and follows the loop no further, so it ends with no active socket unless that happened.
- SimLoop.GracefulDisconnect: is about packets none of which is such a read or an oversized write.
- Bridge.Caller.PcieBridge: what a reply longer than the caller's buffer does to the memory behind it is not followed, only when it happens; the same holds of Receive.Socket.ReceiveHeaderAndData.
- ListenerSpan.ReadInTheSpan: is about reads whose answer fits the listener's 256-byte buffer; a longer one overruns it.
- SharedTlp.SeparateRunsProject: the listener's own receive is one step, the main thread's are not; a time limit left on the async socket is not taken to end the listener's receive. Neither matters in the runs it is about, where no limit is ever set there and the main thread never reads that socket.
- ReadLatch.LatchedWordArrives: is about `rd_data`; when the completion engine samples it is outside.
- WRAP bursts of the RAM are treated as INCR, as in the RTL; wlast, lock, cache and prot are ignored there too.
- The blocks of `sim_top.sv` that only log; `mrd_tail_print_gate` is a free input.
- PIO_RX_ENGINE, PIO_TX_ENGINE, libvfio-user, QEMU and Verilator; nothing here depends on when the engines sample `rd_data` or raise tready.
- The ENABLE_MOCK pin model, the CFG handlers (empty in the source) and VCD tracing.
- `vtime` and the other 64-bit counters do not wrap here.
- Partial sends, failed accepts, the accept timeout, and descriptors that cannot be duplicated.
- Sub-word, unaligned and oversized accesses in the results of `SoftTlp` and `EndToEnd`; `Device`, `SimLoop` and `Bridge.Caller` follow them one call at a time.
- Messages still in the async stream when poll reports a hang-up are dropped by the listener; interrupt conservation is about the time before that.
- The two-process timing of signals, fork, sleep and shutdown beyond the order of bytes and end of stream.
- The dissector's columns, trees and names; only the bytes shown, their direction label and the kind of note are kept.
- The dissector's buffers are values: the source shares one byte array between the states of a message's segments, but reads it again only when it is complete.
- Segments whose continuation runs past the end of its message, first pieces shorter than a header, and the two directions interleaved in one fragment buffer.
- Abstract-socket patterns ('@'): the compiler and the probe follow that branch, the matching theorem does not cover it; a read of an abstract address under the pattern `*` is taken to read nothing, which does not change the verdict.
- The rest of the probe (process filter, segments, perf buffer) and the printing and pcap output of the sniffer.
