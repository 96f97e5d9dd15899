# Models of the FireWire audio drivers

This project models the parts of `sound/firewire` that carry exact arithmetic,
protocols and ring buffers, and proves what they are for.

- **Streaming engine** (`amdtp_*.dfy`, `pcm_blocks.dfy`): the IEC 61883-6
  packet engine. `amdtp_timing.dfy` has the timestamp and data block
  accumulators, `amdtp_midi.dfy` the MIDI rate limiter, `amdtp_packets.dfy` the
  CIP headers and the continuity check, `amdtp_data.dfy` and `pcm_blocks.dfy`
  the contents of data blocks, `amdtp_stream.dfy` the stream object that does
  all of this in place, `amdtp_wire.dfy` what its callback puts on the wire,
  `amdtp_loopback.dfy` a sender and a receiver together, and
  `amdtp_duplex.dfy` two stream objects connected in that way.
- **SCS.1x transcoder** (`scs1x*.dfy`): both directions of the MIDI escape, the
  object with its tasklet, and what the parser makes of MIDI as the standard
  has it, running status included.
- **Digi 00x scrambler** (`digi00x.dfy`).
- **Isochronous resources and connections** (`iso_resources.dfy`,
  `iso_bus.dfy`, `iso_clients.dfy`, `compare_swap.dfy`, `cmp.dfy`,
  `cmp_connection.dfy`, `cmp_sharing.dfy`): clauses 7 and 8 of IEC 61883-1, as
  clients on a bus with resets and lost packets.
- **Fireworks responses and the iSight stream** (`rings.dfy`, `fireworks.dfy`,
  `isight.dfy`): block copies around ring buffers.
- **DICE dual wire** (`dice.dfy`) and **FCP transactions** (`fcp.dfy`, clause 9
  of IEC 61883-1).

Objects that the drivers change in place are classes; each of their methods is
proved equal to a function of the old state, and the theorems are about those
functions. What comes from outside (answers of the bus, cycles, received
frames, user reads, interleavings) is a parameter, so that each theorem holds
for all of it.

`dafny verify dfyconfig.toml` checks the whole project.

## What the proofs found

- `scs1x.c`: real-time messages (f8 and above) that the input side passes on as
  plain MIDI are dropped by the output side, so the two directions do not undo
  each other on them (`RoundTripIff`, `RealTimeIsLost`).
- `fireworks_transaction.c:129-139`: a response that arrives when the stored
  messages fill the ring exactly is stored over them (`FullRingOverwrites`,
  `OverwriteIsReached`); without such a response the ring is a queue
  (`RingIsFifoIff`).
- `amdtp.c:723-735`: a received block size smaller than the stream's own is not
  noticed; the blocks counted by it reach behind the packet
  (`SmallBlocksWalkPast`, `AcceptedFitsIff`).
- `amdtp.c:502-521`: the MIDI rate limiter drains a whole SYT_INTERVAL at each
  packet, so that non-blocking streams above 48 kHz exceed the rate of a cable
  (`CableRateExceeded`); all others keep to it (`BlockingWindow`, `CableRate`).
  Its levels survive a change of rate, and a port may then be silent for a while
  (`LevelSurvivesRestart`, `HighLevelMutes`).
- `amdtp.c:551-568`: received MIDI bytes are handed out by the stream's own
  counter, so that the ports can be wrong in a first packet whose counter is not
  checked, in a packet whose counter 0 is let pass, and for end-event devices
  with another number of blocks than their interval (`EventPortIff`).
- `lib.c:32-68`, `cmp.c:82-105`: a compare-swap whose answer is lost is repeated,
  finds the connection's own value, and fails; the plug stays in use
  (`ChangedIff`, `LostAnswerFails`, `TakenPlugRefuses`).
- `cmp.c:82-105`: the cached register value is compared with, but never checked;
  after a break that fails it is in use, and a later connection may then be set
  up over another controller's (`EverSharedIff`, `TakeoverIsReached`).
- `iso-resources.c:186-188` says that an update overtaken by a bus reset is
  taken for a success, but the function returns -EAGAIN, and `cmp.c:342-344`
  treats that as a failure without freeing anything: the resources are then
  lost (`StuckIff`, `StuckForever`).
- `iso-resources.c`: a second update in one generation loses the resources
  (`SecondUpdateLoses`).
- `isight.c:188-193`: the flag for the first packet is cleared only by a sample
  number that differs; if the numbers happen to match from the start, the first
  real gap is not filled, however late it comes (`FirstPacketIff`,
  `GapFilledIff`).
- `fcp.c:291-293` promises that pending transactions are retried after a bus
  reset. The command is sent again, but the state is never set back, so its
  response is not taken (`ResetIsFinal`); only if the reset falls between two
  steps of the caller is it forgotten, and a result still possible
  (`ResetLostIff`, `SuccessAfterResetIff`).
- `fcp.c:250-261`, `fcp.c:355`: a final response between an interim one and the
  caller's write is dropped, as is one behind a bus reset or behind the caller's
  last look (`AnswerLostIff`, `AnswerInWindowIsLost`).

## Model

| member | source | states |
|---|---|---|
| `AmdtpTiming.SytSchedule` | sound/firewire/amdtp.c:363-404 | for every rate and call: cycles times 3072 plus the offset kept by the accumulator is the exactly rounded time of the next event, the timestamps emitted so far are exactly the events before this cycle, and the phase is 67 plus their number modulo 147 |
| `AmdtpTiming.EventTimeBase44100` | sound/firewire/amdtp.c:372-387 | for multiples of 44.1 kHz the exactly rounded time of event m is 4458 m + floor((34 m + 73) / 147) |
| `AmdtpTiming.ExtraTickIsCarry` | sound/firewire/amdtp.c:383-387 | the phase test adds its extra tick exactly where that floor steps by one more |
| `AmdtpTiming.EventTimeInteger` | sound/firewire/amdtp.c:369-371 | for the other rates the events fall on whole ticks and are equally spaced |
| `AmdtpTiming.RoundingKeepsCycle` | sound/firewire/amdtp.c:340-347 | rounding to ticks never moves an event across a cycle boundary |
| `AmdtpTiming.SytFieldDecodes` | sound/firewire/amdtp.c:395-404 | the 16-bit field decodes, modulo 16 cycles, to cycle, offset and transfer delay, and is never the no-information value |
| `AmdtpTiming.SytFieldHasInfo` | sound/firewire/amdtp.c:395-404 | the field carries a timestamp exactly when the offset lies in this cycle, and 0xffff otherwise |
| `AmdtpTiming.EmittedSyt` | sound/firewire/amdtp.c:363-404 | packet k carries a timestamp exactly when an event falls into cycle k, and it then stands for that event's exactly rounded time plus the transfer delay |
| `AmdtpTiming.BlockingTotal` | sound/firewire/amdtp.c:328-333 | in blocking mode the first n packets carry SYT_INTERVAL * ceil(n * rate / (8000 * SYT_INTERVAL)) data blocks |
| `AmdtpTiming.BlockingNeverTwoEmpty` | sound/firewire/amdtp.c:647-664 | of two successive packets in blocking mode at least one carries data |
| `AmdtpTiming.NonBlockingTotal` | sound/firewire/amdtp.c:328-361 | in non-blocking mode the first n packets carry ceil(n * rate / 8000) blocks: never behind the rate, and no schedule that stays less than a block ahead carries more |
| `AmdtpTiming.PacketFits` | sound/firewire/amdtp.c:260-263 | every packet of either mode fits the maximal payload, and the data packets of blocking mode fill it |
| `AmdtpTiming.DefaultDelay` | sound/firewire/amdtp.c:40 | the default transfer delay is 479.17 microseconds in ticks |
| `AmdtpTiming.DelayIsInterval` | sound/firewire/amdtp.c:234-237 | the delay added in blocking mode is the time between two timestamps, whole ticks only |
| `AmdtpMidi.TestPortBucket` | sound/firewire/amdtp.c:502-521 | one test of a port, from any level: a byte sent is paid for by the change of the level, and a level above 2 * rate - 3093 * SYT_INTERVAL only goes down |
| `AmdtpMidi.SendsIff` | sound/firewire/amdtp.c:502-521 | a waiting byte is sent exactly while the level is at most one byte times rate; a test drains 3093 * SYT_INTERVAL, down to 0, and a byte sent adds the rate; bytes leave the queue in order |
| `AmdtpMidi.FirstTwoSend` | sound/firewire/amdtp.c:502-549 | so an idle port sends in its first two tests, at any rate |
| `AmdtpMidi.LevelSurvivesRestart` | sound/firewire/amdtp.c:502-521 | such levels occur, since no configuration resets them: one byte at 192 kHz leaves more than the bound of 48 kHz |
| `AmdtpMidi.HighLevelMutes` | sound/firewire/amdtp.c:502-521 | a port with such a level sends nothing until its tests have drained it, although bytes wait |
| `AmdtpMidi.PacketTestsOnce` | sound/firewire/amdtp.c:524-549 | each port is tested once per packet if its block is among the packet's blocks, and a byte goes only into the port's own block |
| `AmdtpMidi.MidiWindow` | sound/firewire/amdtp.c:502-549 | over any window of packets of any sizes, whatever the counters, queues and levels at its beginning: rate times the bytes in a port's quadlets is at most 3093 * SYT_INTERVAL for each test of the port, plus a burst of less than two bytes; and the level is within its bound if and only if the tests have drained what it was above it at the beginning |
| `AmdtpMidi.BlockingWindow` | sound/firewire/amdtp.c:502-549 | so a blocking stream of any rate never puts more bytes of a port into its packets than a MIDI cable takes in the time of their blocks, up to that burst |
| `AmdtpMidi.CableRate` | sound/firewire/amdtp.c:502-549 | at 32, 44.1 and 48 kHz the same holds for every stream whose counter runs on, blocking or not |
| `AmdtpMidi.CableRateExceeded` | sound/firewire/amdtp.c:502-549 | above 48 kHz a non-blocking stream sends more than a cable takes, by an amount that grows with every packet, while bytes are waiting |
| `AmdtpMidi.PullFill` | sound/firewire/amdtp.c:551-568 | the receiving side hands each port exactly the byte that the sending side has put in for it |
| `AmdtpMidi.MidiBytesIs` | sound/firewire/amdtp.c:551-568 | a received quadlet gives as many of its bytes as its label says, 1 to 3, and none for other labels |
| `AmdtpMidi.MidiQuadletIs` | sound/firewire/amdtp.c:533-545 | the quadlet for one byte, and for none |
| `AmdtpMidi.PullAllAt` | sound/firewire/amdtp.c:551-568 | pulling block by block gives every open port its own bytes and no others |
| `AmdtpPackets.Header0Decodes` | sound/firewire/amdtp.c:656-661 | the fields of the first header quadlet, among them the node, are found again by the receiver |
| `AmdtpPackets.Header1Decodes` | sound/firewire/amdtp.c:662-664 | the same for the second header quadlet |
| `AmdtpPackets.AcceptedFitsIff` | sound/firewire/amdtp.c:723-771 | an accepted packet's blocks, of the stream's own size, lie inside the payload exactly if there is no data, the block size field is ignored or not smaller than the stream's, or the smaller size makes no difference to their number |
| `AmdtpPackets.GuardedFits` | sound/firewire/amdtp.c:723-735 | a block size field that is ignored or not smaller is enough |
| `AmdtpPackets.SmallBlocksWalkPast` | sound/firewire/amdtp.c:723-771 | block size 1 in a packet of 66 quadlets for a stream of block size 8: accepted, and its last block starts far behind the packet |
| `AmdtpPackets.ReceiveSent` | sound/firewire/amdtp.c:691-793 | a packet of the sender is accepted by a receiver without quirks exactly when the counters agree, with the right number of blocks, and both then count alike |
| `AmdtpPackets.CountingAccepted` | sound/firewire/amdtp.c:747-781 | without quirk flags a sequence of packets is accepted to its end exactly if it counts on correctly, and the count is then the sum of its blocks |
| `AmdtpPackets.LossDetected` | sound/firewire/amdtp.c:747-781 | after losing any run of packets the rest is accepted exactly when the lost blocks total a multiple of 256; every other loss is detected on the next packet |
| `AmdtpPackets.EndEventIsShifted` | sound/firewire/amdtp.c:752-760 | the end-event mode accepts a sequence exactly when the standard mode accepts it with each counter reduced by its own packet's blocks |
| `AmdtpPackets.StepsIff` | sound/firewire/amdtp.c:750-758 | with an interval set the end-event mode accepts exactly the counters that advance by it at each data packet and stand at empty ones, however many blocks are sent |
| `AmdtpPackets.IgnoredIff` | sound/firewire/amdtp.c:704-715 | which headers are not taken for AMDTP, by their values |
| `AmdtpPackets.EmptyIsTransparent` | sound/firewire/amdtp.c:739-742 | with the flag for wrong counters in empty packets an empty packet is accepted with any counter, and the expected one is kept |
| `AmdtpPackets.EmptyWithWrongCounter` | sound/firewire/amdtp.c:739-742 | the packet of such a device, whose counter is 8 too far: accepted with the flag, a discontinuity without it |
| `AmdtpPackets.EmptyCountersIff` | sound/firewire/amdtp.c:739-781 | over sequences: with that flag exactly the data packets have to count, without it the empty ones as well; the count at the end |
| `AmdtpPackets.RestartsIff` | sound/firewire/amdtp.c:744-746 | devices whose counter 0 is not checked: a sequence is accepted exactly if each packet counts on or has the counter 0 |
| `AmdtpPackets.FirstCounterIsTaken` | sound/firewire/amdtp.c:744-746 | while no counter is known, the first packet sets it |
| `AmdtpPackets.OwnSizeCounts` | sound/firewire/amdtp.c:724-735 | with the flag for wrong block sizes the blocks are as many of the stream's own size as the payload has room for, and a size of 0 is never accepted |
| `AmdtpPackets.EventPortIff` | sound/firewire/amdtp.c:551-568 | received MIDI is handed out by the stream's own counter: each byte goes to the port of its event if and only if the counter was set and not let pass as 0, or agrees by chance, and the fixed interval of an end-event device is its number of blocks modulo 8 |
| `PcmBlocks.SourceIsRingFrame` | sound/firewire/amdtp.c:412-427 | the pointer walk of a transfer visits frame (pointer + i) modulo the buffer size, and stays inside the ring |
| `PcmBlocks.GetPutAll` | sound/firewire/amdtp.c:418-426 | what is put into the data blocks at distinct positions is what is read from them |
| `PcmBlocks.PutBlocksKeeps` | sound/firewire/amdtp.c:418-426 | everything outside the channel positions is kept |
| `AmdtpData.SampleRoundTrip` | sound/firewire/amdtp.c:421-422 | a sample sent and received keeps its upper 24 bits |
| `AmdtpData.EncodedCarries` | sound/firewire/amdtp.c:421-422 | a sample is sent as the label 0x40 over its upper 24 bits |
| `AmdtpData.DecodedIs` | sound/firewire/amdtp.c:470-472 | a received quadlet gives its lower 24 bits as the upper ones of a sample, whatever its label |
| `AmdtpData.FillReads` | sound/firewire/amdtp.c:406-549 | PCM, MIDI and the header do not disturb each other: the receiver finds in the data area what was put there |
| `AmdtpLoopback.StoreHolds` | sound/firewire/amdtp.c:456-478 | a transfer into the ring, wrapping or not, appends its frames to the ring's history |
| `AmdtpLoopback.PacketAccepted` | sound/firewire/amdtp.c:647-793 | the packet built for given frames passes the receiver's checks when the counters agree |
| `AmdtpLoopback.PacketArrives` | sound/firewire/amdtp.c:406-478 | the receiver gets the packet's frames with the low 8 bits cleared, and its MIDI quadlets |
| `AmdtpLoopback.PacketShows` | sound/firewire/amdtp.c:656-676 | a packet shows a receiver its node, counter, block size, format, rate code, timestamp and frames |
| `AmdtpLoopback.StepKeepsInStep` | sound/firewire/amdtp.c:647-793 | one packet keeps both counters equal and the capture ring equal to what was sent |
| `AmdtpLoopback.Loopback` | sound/firewire/amdtp.c:647-793 | over any run no discontinuity is reported, the counters agree after every packet, and the capture ring holds the frames sent, in order, each sample without its low 8 bits, across wraps of both rings |
| `AmdtpLoopback.FramesInOrder` | sound/firewire/amdtp.c:406-429 | the frames of a packet are consecutive frames of the playback ring from the pointer on |
| `AmdtpLoopback.MidiArrives` | sound/firewire/amdtp.c:524-568 | each port receives exactly the byte, if any, that was sent from the port with its number |
| `AmdtpStreams.AmdtpStream.constructor` | sound/firewire/amdtp.c:80-98 | a stream just set up, not configured yet |
| `AmdtpStreams.AmdtpStream.SetParameters` | sound/firewire/amdtp.c:204-250 | of any stream, from its initialization on: accepts exactly the supported parameters while it is not running; the position map is the identity with MIDI behind it, and the transfer delay is set for the mode; otherwise nothing changes |
| `AmdtpStreams.AmdtpStream.Start` | sound/firewire/amdtp.c:904-989 | the accumulators and the counter are set to their initial state, unless the stream is running already or has no channels: then nothing changes |
| `AmdtpStreams.AmdtpStream.CalculateDataBlocks` | sound/firewire/amdtp.c:328-361 | one step of the block accumulator, never more than SYT_INTERVAL |
| `AmdtpStreams.AmdtpStream.CalculateSyt` | sound/firewire/amdtp.c:363-404 | one step of the timestamp accumulator and the field it gives |
| `AmdtpStreams.AmdtpStream.WriteFrames` | sound/firewire/amdtp.c:406-429 | writes the encoded frames of the pointer walk into the data blocks and changes nothing else |
| `AmdtpStreams.AmdtpStream.FillPcmSilence` | sound/firewire/amdtp.c:480-490 | writes silence into every PCM position |
| `AmdtpStreams.AmdtpStream.ReadFrames` | sound/firewire/amdtp.c:456-478 | stores the decoded frames along the pointer walk and changes nothing else in the ring |
| `AmdtpStreams.AmdtpStream.UpdatePcmPointers` | sound/firewire/amdtp.c:570-595 | advances the pointer around the ring by one or two frames a block; every frame is in a reported period or in the period pointer, and at most one period is reported; the pointer stays in the ring exactly if the packet does not carry it round twice |
| `AmdtpStreams.AmdtpStream.FillMidiBlocks` | sound/firewire/amdtp.c:524-549 | the MIDI quadlets and ports after one packet |
| `AmdtpStreams.AmdtpStream.PullMidiBlocks` | sound/firewire/amdtp.c:551-568 | each open port receives its bytes, the others nothing |
| `AmdtpStreams.AmdtpStream.HandleOutPacket` | sound/firewire/amdtp.c:647-689 | the whole packet, the counters, the ports, the pointers and the periods after one call, queued or not; nothing changes once the stream has failed |
| `AmdtpStreams.AmdtpStream.NextOutPacket` | sound/firewire/amdtp.c:803-808 | one packet of the callback, with one or two PCM frames in a block, with the quadlets it sends, and the stream ready for the next one |
| `AmdtpStreams.OutPacketAt` | sound/firewire/amdtp.c:795-814 | the same for each single packet of a run |
| `AmdtpStreams.IndexGoesRound` | sound/firewire/amdtp.c:612-627 | the packet queue's 48 slots are used in turn |
| `AmdtpWire.CursorCounts` | sound/firewire/amdtp.c:570-588 | the packets of a run take up where the one before has stopped: the pointer counts the frames of all blocks sent, less whole laps of the ring |
| `AmdtpWire.PlaybackOnTheWire` | sound/firewire/amdtp.c:406-429 | in every packet of a run of the callback, channel c of block j is the quadlet at the channel's position: label 0x40 over the upper 24 bits of the sample in the ring frame that the count of all blocks before says, or 0x40000000 if nothing is played |
| `AmdtpWire.MidiOnTheWire` | sound/firewire/amdtp.c:524-549 | in every packet of such a run the MIDI quadlet of block j is 0x81, the byte that the port's test lets through, and zeros, or 0x80 and zeros: the port is the number of the block since the start modulo 8, and only the first eight blocks carry bytes |
| `AmdtpWire.BytesInOrder` | sound/firewire/amdtp.c:524-549 | what the packets of a run carry for a port, followed by what still waits there, is what waited at the beginning |
| `AmdtpWire.PortsRest` | sound/firewire/amdtp.c:675-676 | without MIDI in the layout no port is touched |
| `AmdtpDuplex.PassPacket` | sound/firewire/amdtp.c:647-793 | one packet built in place by a sending object and taken in place by a receiving object is a step of the link; afterwards the two objects are in step |
| `AmdtpDuplex.PassPackets` | sound/firewire/amdtp.c:795-830 | any number of packets with the sender's own timestamps is the run of the link: the counters of the two objects are equal, no discontinuity is seen, and the receiver's ring holds what was sent |
| `AmdtpStreams.AmdtpStream.ExamineHeader` | sound/firewire/amdtp.c:691-781 | the decision on a received header, with all quirk flags |
| `AmdtpStreams.AmdtpStream.HandleInPacket` | sound/firewire/amdtp.c:691-793 | what one received packet, whose header keeps its blocks in its payload, does to ring, MIDI, counter, pointers, periods and packet index; nothing but the index unless it is accepted |
| `AmdtpStreams.AmdtpStream.DeliveredByEvents` | sound/firewire/amdtp.c:551-568 | under that condition what a port receives in place is the bytes of its own events |
| `AmdtpStreams.AmdtpStream.OutStreamCallback` | sound/firewire/amdtp.c:795-814 | the quadlets of packet k carry the node, the format and the rate code, the scheduled number of blocks, the total of all earlier blocks modulo 256 as counter, the exact timestamp for its cycle, the next frames of the playback ring and the bytes of the next test of every MIDI port, from packet to packet and across wraps; if the bus refuses a packet, those before it are as scheduled and the stream has failed |
| `Scs1xCodec.ConsumeSafe` | sound/firewire/scs1x.c:153-217 | one byte keeps the buffer index and the collected message well-formed, and sends at most one packet, which is a complete message or an unescaped packet of 1 to 64 bytes |
| `Scs1xCodec.FeedSafe` | sound/firewire/scs1x.c:134-230 | the same for every packet of a byte stream |
| `Scs1xCodec.FeedConcat` | sound/firewire/scs1x.c:134-230 | parsing a stream piece by piece gives the packets of the whole |
| `Scs1xCodec.FeedEscapeSysEx` | sound/firewire/scs1x.c:159-196 | an escape SysEx of up to 64 bytes comes out as the one packet it encodes, from any state |
| `Scs1xRoundTrip.FeedSysEx` | sound/firewire/scs1x.c:182-209 | a plain SysEx is sent whole, or, if it does not fit the buffer, dropped whole |
| `Scs1xRoundTrip.DeliverableRoundTrip` | sound/firewire/scs1x.c:267-313 | a deliverable packet comes back alone and unchanged from any state, and leaves no open escape behind |
| `Scs1xRoundTrip.RoundTrip` | sound/firewire/scs1x.c:134-313 | input and output undo each other on every sequence of deliverable packets |
| `Scs1xRoundTrip.RoundTripIff` | sound/firewire/scs1x.c:134-313 | exactly the deliverable packets come back unchanged |
| `Scs1xRoundTrip.RealTimeIsLost` | sound/firewire/scs1x.c:210-217 | a real-time message, which the input side passes on, is dropped by the output side |
| `Scs1xRunningStatus.RunningMessage` | sound/firewire/scs1x.c:101-104 | between messages the data bytes of a channel message are enough: one packet is sent, with tag 0, the running status and these bytes |
| `Scs1xRunningStatus.RunningStatus` | sound/firewire/scs1x.c:175-217 | any sequence of channel messages gives the same packets, each with its status, whichever repeated status bytes are left out |
| `Scs1xRunningStatus.StandardMessage` | sound/firewire/scs1x.c:106-132 | from every state a message of the length that the MIDI standard gives its status is sent, alone and whole, behind tag 0 |
| `Scs1xRunningStatus.EndAwaits` | sound/firewire/scs1x.c:194-207 | whatever an f7 ends, or does not, the parser then waits for a message and keeps its running status |
| `Scs1xRunningStatus.OtherStatusIsIgnored` | sound/firewire/scs1x.c:126-132 | bytes from f8 on, f4 and f5 change nothing in any state |
| `Scs1xRunningStatus.NothingRuns` | sound/firewire/scs1x.c:101-104 | data bytes without a running status of a channel message are dropped |
| `Scs1xRunningStatus.SysExLimit` | sound/firewire/scs1x.c:182-209 | a SysEx of up to 63 bytes is sent whole, a longer one not at all |
| `Scs1xRunningStatus.EscapeReceived` | sound/firewire/scs1x.c:267-313 | a packet with another tag than 0 is received as the SysEx f0 00 01 60 48 53 53, its nibbles, high ones first, and f7 |
| `Scs1xRunningStatus.GroupReceived` | sound/firewire/scs1x.c:277-295 | so is f9 with its three bytes, behind a 0, while the bytes before it are received as they are |
| `Scs1xRunningStatus.EscapeSent` | sound/firewire/scs1x.c:159-196 | that SysEx is sent as the bytes in it, up to 64, unless there is none or the first one is f1 |
| `Scs1x.Scs.OutputTasklet` | sound/firewire/scs1x.c:134-230 | a tasklet run takes bytes up to the first complete packet, and requests that packet |
| `Scs1x.Scs.HandleByte` | sound/firewire/scs1x.c:153-217 | the handling of one byte in place is the step of the parser |
| `Scs1x.Scs.InputPacket` | sound/firewire/scs1x.c:297-313 | a received packet is handed on as its MIDI bytes, plain or escaped |
| `Scs1x.Scs.InputMidiByte` | sound/firewire/scs1x.c:277-295 | one byte of plain MIDI, wrapping the undefined status f9 and the three bytes after it |
| `Scs1x.Scs.OutputOpen` | sound/firewire/scs1x.c:61-70 | a newly opened stream starts the parser anew and leaves a transaction that is still running alone |
| `Scs1x.SplitInvariance` | sound/firewire/scs1x.c:80-230 | the requests do not depend on how the bytes are split over writes and tasklet runs, nor on how transactions interleave, even if one is still running when the stream is opened |
| `Scs1x.RequestsSafe` | sound/firewire/scs1x.c:134-230 | in every state reachable from opening the stream each request is one complete message with explicit status or an unescaped packet of 1 to 64 bytes |
| `Scs1x.RequestsPaced` | sound/firewire/scs1x.c:80-225 | in every reachable state at most one transaction runs: there are no more requests than completions, but for the one that is running |
| `Scs1x.QuietWhileDown` | sound/firewire/scs1x.c:144-149 | while the stream is not triggered no byte is read and nothing is requested |
| `Scs1x.AllIsServed` | sound/firewire/scs1x.c:134-230 | once triggered, a stream whose transactions are completed and whose tasklet runs as often as there are bytes has all of them read and all packets in them requested, in order |
| `Digi00xCodec.SaltNonZero` | sound/firewire/digi00x/digi00x-protocol.c:57-63 | the table lookup is non-zero exactly up to the reach of the index, at most 14; no table index leaves its table |
| `Digi00xCodec.DecodeEncode` | sound/firewire/digi00x/digi00x-protocol.c:65-75 | a decoder with the encoder's state recovers every sample of a stream of any length and ends in the encoder's state |
| `Digi00xCodec.EncodeConcat` | sound/firewire/digi00x/digi00x-protocol.c:65-75 | encoding goes on across any split of the stream |
| `Digi00xCodec.Tail` | sound/firewire/digi00x/digi00x-protocol.c:57-75 | behind a non-zero byte exactly the first len[idx & 0xf] of a run of zero bytes are disturbed, and again each time the 32-bit offset comes round |
| `Digi00xCodec.HighStart` | sound/firewire/digi00x/digi00x-protocol.c:52-63 | at offset 0 the salt's high nibble is the index's own |
| `Digi00xCodec.HighStep` | sound/firewire/digi00x/digi00x-protocol.c:45-63 | each step of the offset moves it on by one place on a ring of 15 nibbles, which leaves out 9 |
| `Digi00xCodec.SaltIs` | sound/firewire/digi00x/digi00x-protocol.c:28-63 | the whole salt in closed form: the reach from the index's low nibble, the high nibble turned by the offset, and the low nibble f, 1, e, 2, ... backwards from the reach |
| `Digi00xCodec.TailIs` | sound/firewire/digi00x/digi00x-protocol.c:28-75 | the k'th zero byte behind a non-zero one is sent as that salt |
| `Digi00xCodec.SilentStart` | sound/firewire/digi00x/digi00x-protocol.c:65-75 | from the state that prepare sets, silence and the first byte behind it go out as they are |
| `Digi00xCodec.FirstTail` | sound/firewire/digi00x/digi00x-protocol.c:28-75 | 11 and 00 are sent as 11 and 2f |
| `Digi00xCodec.SampleLabelled` | sound/firewire/digi00x/digi00x-protocol.c:120-121 | the label 40 over the upper 24 bits of a sample, in bus order |
| `Digi00xProtocol.BlocksAreStream` | sound/firewire/digi00x/digi00x-protocol.c:118-128 | the frame and channel loops encode the samples as one stream |
| `Digi00xProtocol.PacketDecodes` | sound/firewire/digi00x/digi00x-protocol.c:106-133 | from the packet buffer a decoder recovers every sample taken from the ring and is ready for the next packet |
| `Digi00xProtocol.RunDecodes` | sound/firewire/digi00x/digi00x-protocol.c:77-133 | from the state that prepare sets, and over any number of packets of any sizes a decoder recovers every sample, in order, and is in the driver's state behind each packet |
| `Digi00xProtocol.DotStream.EncodeStep` | sound/firewire/digi00x/digi00x-protocol.c:65-75 | one sample encoded in place |
| `Digi00xProtocol.DotStream.WritePcmS32` | sound/firewire/digi00x/digi00x-protocol.c:106-133 | the frames of the pointer walk, encoded, are in the packet buffer, and the state has followed |
| `IsoResources.BandwidthIsExact` | sound/firewire/iso-resources.c:48-62 | the bandwidth is the packet's time in S400 bytes, rounded up: one unit less would not be enough |
| `IsoResources.OverheadIs` | sound/firewire/iso-resources.c:64-77 | the overhead is 89 units and 9.7 per step of the gap count, whole units only, and 512 from a gap count of 63 on |
| `IsoResources.FwIsoResources.Allocate` | sound/firewire/iso-resources.c:105-150 | the result and the fields after any number of bus resets; refused, and nothing changed, while allocated |
| `IsoResources.FwIsoResources.Update` | sound/firewire/iso-resources.c:164-202 | a stale generation leaves the resources allocated although the result is negative; any other error gives them up |
| `IsoResources.FwIsoResources.Free` | sound/firewire/iso-resources.c:211-230 | asks the bus for exactly the channel and bandwidth of the fields, once |
| `IsoBus.StepKeeps` | sound/firewire/iso-resources.c:105-230 | every step of every interleaving of any number of clients, other nodes and bus resets keeps the manager's account complete and each channel with one owner |
| `IsoBus.ManagerAnswers` | sound/firewire/iso-resources.c:126-148 | the answers taken from the manager are neither too few nor too many: in its generation it either grants a channel or is busy, and only a stale request is told to come again |
| `IsoBus.UpdateRecovers` | sound/firewire/iso-resources.c:164-202 | behind a bus reset a granted update takes the client's channel and the bandwidth with the new overhead again, and nothing else |
| `IsoBus.Conservation` | sound/firewire/iso-resources.c:105-230 | after every run the available bandwidth and all charges of the current generation add up to the whole; charged channels are distinct; each charge is what its client would give back |
| `IsoBus.ChannelNeverChanges` | sound/firewire/iso-resources.c:164-202 | over every run in which a client stays allocated, with any resets, updates and other clients' steps, its channel and bandwidth stay the same |
| `IsoBus.FreeReturnsCharge` | sound/firewire/iso-resources.c:211-230 | a free in the generation of the charge gives back exactly the charge; any other changes nothing |
| `IsoBus.OrphanedIff` | sound/firewire/iso-resources.c:189-230 | a charge is left without owner exactly by a failed free of current resources and by the end of a repeated update in one generation, whatever its answer |
| `IsoBus.CarefulConservation` | sound/firewire/iso-resources.c:79-88 | if no update comes while the client's resources are those of the current generation, and frees succeed, clients and other nodes account for all bandwidth |
| `IsoBus.SecondUpdateLoses` | sound/firewire/iso-resources.c:164-202 | a second update in one generation loses the resources whatever the answer |
| `IsoClients.UpdateOn` | sound/firewire/iso-resources.c:164-202 | the object's call is the client's run on the bus, whatever others do between its look at the generation and the manager's answer |
| `IsoClients.FreeOn` | sound/firewire/iso-resources.c:211-230 | the object's call is the client's step, and the manager takes back exactly what the object asks it to |
| `IsoClients.AllocateOn` | sound/firewire/iso-resources.c:105-150 | the object's call, with any bus resets and others' steps in it, is the client's run on the bus; the account stays complete, and what the object then holds is what the manager has charged it |
| `IsoClients.PlayedIsRun` | sound/firewire/iso-resources.c:105-150 | the fields after the client's run are those that the rounds of the loop give |
| `CompareSwap.PcrModifyAtomic` | sound/firewire/cmp.c:73-110 | whatever requests and answers the bus loses, a register is changed only in atomic steps from its current value to the modified one, and that value is the cached one or has passed the check; at most one step is answered, and then the call succeeds; success without one means an accepted bus reset |
| `CompareSwap.LockTransaction` | sound/firewire/lib.c:32-68 | the repetitions of one transaction |
| `CompareSwap.LostIff` | sound/firewire/cmp.c:82-105 | a request has changed the register without an answer if and only if the device had just the value compared with and its answer was lost |
| `CompareSwap.ChangedIff` | sound/firewire/cmp.c:82-105 | so a call that fails has changed the register if and only if there is such a request |
| `CompareSwap.ResetIff` | sound/firewire/cmp.c:89-103 | a call ends with success but without a change of its own, or with -EAGAIN if that is not wanted, exactly if one of its requests meets a bus reset |
| `CompareSwap.ThreeTries` | sound/firewire/lib.c:32-68 | two tries without an answer are repeated, three are a failure |
| `CompareSwap.PcrModifyLoop` | sound/firewire/cmp.c:73-110 | the loop computes that outcome and the new cached value |
| `Cmp.ModifyDescribes` | sound/firewire/cmp.c:189-245 | the written register has one point-to-point connection and no broadcast one, decodes to the connection's channel, speed and overhead, and keeps all other bits; after a break both are gone and the rest is kept |
| `Cmp.ModifyMarks` | sound/firewire/cmp.c:247-260 | a set register passes for in use, a broken one does not, and neither changes whether the plug is on-line |
| `Cmp.OpcrSetFields` | sound/firewire/cmp.c:219-245 | the output register's fields, with the extended speed beyond S400 |
| `Cmp.ConnectionBits` | sound/firewire/cmp.c:34-44 | connection count and flags as plain shifts |
| `Cmp.SpeedBit` | sound/firewire/cmp.c:34-44 | the speed field and its extension beyond S400 as plain shifts |
| `Cmp.CheckCodes` | sound/firewire/cmp.c:247-260 | a plug in use refuses with EBUSY, one that is off-line with ECONNREFUSED, and no other |
| `Cmp.IpcrSetFields` | sound/firewire/cmp.c:189-198 | the input register's fields |
| `Cmp.PcrBreakFields` | sound/firewire/cmp.c:370-373 | the register after a break |
| `Cmp.GetOverheadId` | sound/firewire/cmp.c:200-217 | the smallest table value above the overhead, or the largest one |
| `CmpConnections.CmpConnection.EstablishConnection` | sound/firewire/cmp.c:273-318 | the connection after any number of bus resets during the call |
| `CmpConnections.CmpConnection.UpdateConnection` | sound/firewire/cmp.c:331-367 | the connection after an update, with each way to fail |
| `CmpConnections.CmpConnection.BreakOff` | sound/firewire/cmp.c:383-403 | the connection after a break |
| `CmpConnections.Established` | sound/firewire/cmp.c:273-318 | a call either fails and holds nothing, or has put the connection into a register that was free and on-line or was the cached one, in one step: the register then has one point-to-point connection and no broadcast one, on the connection's channel, for an output plug with its speed and overhead, and every bit outside the fields of that kind of plug is kept |
| `CmpConnections.EstablishSucceeds` | sound/firewire/cmp.c:273-318 | if the manager grants a channel at once and the register is as cached, or free and on-line, the call succeeds, with that channel and the packet's bandwidth |
| `CmpConnections.ResetIsRetried` | sound/firewire/cmp.c:286-307 | a call never returns -EAGAIN: behind a bus reset it begins anew |
| `CmpConnections.WrongStateIsKept` | sound/firewire/cmp.c:275-395 | an established connection cannot be established again, and nothing else can be updated or broken; nothing changes |
| `CmpConnections.Updated` | sound/firewire/cmp.c:331-367 | the same for the register behind an update, for the resources as they are then; or the update has met another bus reset; one that fails leaves no connection |
| `CmpConnections.RunIsSafe` | sound/firewire/cmp.c:273-403 | in every reachable state a connection that is established holds its resources, and its cached register is in use |
| `CmpConnections.StuckIff` | sound/firewire/cmp.c:331-367 | a run ends with resources that belong to no connection exactly if an update was overtaken by a bus reset in it |
| `CmpConnections.StuckForever` | sound/firewire/cmp.c:273-403 | no later call gives such resources back, and every attempt to establish fails |
| `CmpConnections.LostAnswerFails` | sound/firewire/cmp.c:290-318 | if the first answer is lost, the repeated request finds the connection's own value and establishing fails with EBUSY; everything here is freed, while the register is that of the connection |
| `CmpConnections.TakenPlugRefuses` | sound/firewire/cmp.c:247-260 | as long as the register stays so, every attempt to establish fails |
| `CmpConnections.BreakSucceeds` | sound/firewire/cmp.c:370-403 | a break goes through whatever value the register turns out to have |
| `CmpConnections.BreakReleases` | sound/firewire/cmp.c:383-403 | a break always frees the resources; the cached register passes for free exactly if it was written |
| `CmpSharing.SwapIsRound` | sound/firewire/cmp.c:82-105 | a controller's compare-swap on the shared register is one round of the loop |
| `CmpSharing.StaleIsRound` | sound/firewire/cmp.c:94-99 | so is a request that meets a bus reset: the call fails if it was to establish a connection, and the connection stays unless it was to be broken |
| `CmpSharing.FailureEnds` | sound/firewire/cmp.c:301-362 | a call that fails for good, or an update without resources, ends the connection for its controller and leaves the register alone |
| `CmpSharing.LostIsUnnoticed` | sound/firewire/lib.c:32-68 | a request whose answer is lost swaps exactly if the device has the value compared with, and its controller does not notice |
| `CmpSharing.EverSharedIff` | sound/firewire/cmp.c:73-110 | over every interleaving of any controllers, bus resets, lost answers and failures: a register comes to belong to two established connections if and only if one is set up over another, with a cached value that is in use and not checked |
| `CmpSharing.TakeoverIsReached` | sound/firewire/cmp.c:73-110 | that is reached: a break that fails leaves such a value, and behind a bus reset another connection gives the register just that value |
| `CmpSharing.CarefulRunIsExclusive` | sound/firewire/cmp.c:73-110 | it cannot happen if active connections have distinct channels and a cached value in use is that of a connection on the same channel |
| `Rings.CopyIn` | sound/firewire/fireworks/fireworks_transaction.c:142-155 | the copy in parts is the element-wise store around the ring |
| `Rings.CopyOut` | sound/firewire/fireworks/fireworks_hwdep.c:49-66 | the copy in parts is the element-wise fetch around the ring |
| `Fireworks.Efw.CopyRespToBuf` | sound/firewire/fireworks/fireworks_transaction.c:118-164 | stores the announced part of a response, or refuses it, by the distance of the pointers |
| `Fireworks.Efw.ReadRespBuf` | sound/firewire/fireworks/fireworks_hwdep.c:22-73 | reads as many whole messages as there is room for |
| `Fireworks.Be32Is` | sound/firewire/fireworks/fireworks_transaction.c:124-127 | the length field has its most significant byte first |
| `Fireworks.PushAnswers` | sound/firewire/fireworks/fireworks_transaction.c:118-164 | a response of at least a header is stored whole, as far as it announces and goes, with rcode 0, or refused with rcode 4 and nothing changed |
| `Fireworks.PushAgreesIff` | sound/firewire/fireworks/fireworks_transaction.c:129-139 | the writer answers as a bounded queue exactly when the ring is not full, or the message larger than the ring |
| `Fireworks.FullRingOverwrites` | sound/firewire/fireworks/fireworks_transaction.c:129-163 | any other response is reported as stored: over the oldest messages, which are lost, and resp_queues counts one more than there are |
| `Fireworks.OverwriteIsReached` | sound/firewire/fireworks/fireworks_transaction.c:118-164 | responses do that: from an empty ring, any that together fill it exactly are all stored, and one more is stored over them, where the reader finds it |
| `Fireworks.EveryRingCanBeFilled` | sound/firewire/fireworks/fireworks.c:238-240 | for every resp_buf_size that is a multiple of 4 there are responses of at most 0x200 bytes that fill the ring |
| `Fireworks.PushRefines` | sound/firewire/fireworks/fireworks_transaction.c:118-164 | a push is the queue's push while the ring is not full |
| `Fireworks.ReadRefines` | sound/firewire/fireworks/fireworks_hwdep.c:40-72 | a read is the queue's read: whole messages, oldest first, byte for byte |
| `Fireworks.RingIsFifoIff` | sound/firewire/fireworks/fireworks_transaction.c:118-164 | over every interleaving of responses and reads, all answers and all reads are those of the queue if and only if no response arrives that overwrites; and then the ring goes on holding the queue's messages and resp_queues is their number |
| `Fireworks.FifoKeepsOrder` | sound/firewire/fireworks/fireworks_hwdep.c:40-72 | the bytes read and the bytes still stored are the accepted messages in the order of arrival |
| `Dice.ConfigureStream` | sound/firewire/dice/dice-stream.c:98-144 | accepts exactly the rates of the clock and the numbers of channels that fit, for a stream that is not running, configured before or not; which wire rate, channels, MIDI ports and position map each rate mode gets |
| `Dice.GetRateMode` | sound/firewire/dice/dice-stream.c:27-42 | finds the mode of a rate exactly if the clock supports it |
| `Dice.Interleave` | sound/firewire/dice/dice-stream.c:139-143 | the loop over the position map |
| `Dice.InterleavedIsBijection` | sound/firewire/dice/dice-stream.c:139-143 | the map takes the channels one to one onto the PCM quadlets |
| `Dice.DualFitsIff` | sound/firewire/amdtp.c:406-429 | a dual wire transfer stays inside the ring exactly when all its frames lie before the end, although it counts half of them |
| `Dice.DualSampleLands` | sound/firewire/amdtp.c:418-426 | sample c of the frames 2j and 2j + 1 of a packet stands in quadlets 2c and 2c + 1 of block j |
| `Dice.PointerAligned` | sound/firewire/amdtp.c:182-187 | over any run of empty and full packets from prepare, with a buffer of a multiple of 32 frames, the pointer stays at multiples of 32 below its end |
| `Dice.PointerCounts` | sound/firewire/amdtp.c:570-588 | over any packets at all the pointer is the number of frames transferred, less whole laps |
| `Dice.DualWire` | sound/firewire/dice/dice-stream.c:118-144 | over any run of empty and full packets from prepare, self-timed from any packet on or as the other end times them, no packet goes beyond the ring, and every sample of every data packet sent stands where the device expects it |
| `Dice.DualRun` | sound/firewire/amdtp.c:795-814 | in every run of the callback for a dual wire stream, each packet has, side by side and each behind the label 0x40, the upper 24 bits of the samples of the ring's next frames |
| `Dice.ScheduleIsBlocking` | sound/firewire/amdtp.c:328-333 | the packets of a self-timed dual wire stream are such a run, from any packet on |
| `Isight.IsightStream.UpdatePointers` | sound/firewire/isight.c:92-110 | the pointer goes around the buffer, and every frame is in a reported period or in the counter |
| `Isight.IsightStream.CopyFrames` | sound/firewire/isight.c:121-131 | the copy in one or two parts is the element-wise store around the ring |
| `Isight.IsightStream.HandlePacket` | sound/firewire/isight.c:169-214 | one packet: buffer, pointer, sample number, flag, queue index and abort, for well-formed and other payloads |
| `Isight.IsightStream.DroppedSamples` | sound/firewire/isight.c:142-167 | a gap is filled with silence, or aborts the stream if it is a whole buffer or more |
| `Isight.AbortIff` | sound/firewire/isight.c:142-197 | how many frames a packet adds to the buffer, by its sample number: behind the first one a gap of less than a buffer is filled, a larger one is left out and aborts the stream |
| `Isight.RunLaysTimeline` | sound/firewire/isight.c:183-197 | a run lays samples and silent gaps into the ring as one timeline |
| `Isight.StartIsNumber` | sound/firewire/isight.c:183-197 | a packet's place in the timeline is its own sample number, unwrapped |
| `Isight.GapIsSilent` | sound/firewire/isight.c:142-167 | places that no packet covers are silent |
| `Isight.SampleLands` | sound/firewire/isight.c:112-197 | until a whole buffer has followed, every sample is found at its unwrapped sample number plus a constant, around the ring |
| `Isight.FirstPacketIff` | sound/firewire/isight.c:188-193 | the flag for the first packet survives exactly as long as no sample number differs from the expected one |
| `Isight.GapFilledIff` | sound/firewire/isight.c:183-197 | after any packets from the start of the stream, a real gap is left out of the buffer if and only if all of them happened to carry the expected numbers; what is stored in either case |
| `Isight.SkippedAreFollowed` | sound/firewire/isight.c:112-197 | while PCM is stopped the buffer stays as it is, and numbers and flag are followed as while it runs |
| `Isight.UsedIff` | sound/firewire/isight.c:177-187 | which payloads are used: 16 bytes and the signature, and no more samples announced than received; exactly these samples are taken |
| `Fcp.IsMatchingResponse` | sound/firewire/fcp.c:313-332 | true exactly if every byte that the mask selects is in the response and equal |
| `Fcp.BitIs` | sound/firewire/fcp.c:313-332 | the mask's bits are those of its binary representation |
| `Fcp.FcpTransaction.HandleResponse` | sound/firewire/fcp.c:352-366 | what a response does to a transaction |
| `Fcp.FcpTransaction.HandleBusReset` | sound/firewire/fcp.c:295-309 | what a bus reset does to a transaction |
| `Fcp.FcpTransaction.Step` | sound/firewire/fcp.c:242-277 | one look or write of the waiting caller |
| `Fcp.HandleAll` | sound/firewire/fcp.c:334-370 | exactly the transactions whose device has the card, the generation and the node of the response get it |
| `Fcp.ResetAll` | sound/firewire/fcp.c:295-309 | exactly the transactions of the unit are marked |
| `Fcp.RunIsSafe` | sound/firewire/fcp.c:223-370 | over every interleaving a result that is no error is the size of a received, matching, final frame, and that frame is in the caller's buffer |
| `Fcp.CompleteIsTerminal` | sound/firewire/fcp.c:352-366 | completion is terminal and the response is not touched again |
| `Fcp.ResetIsFinal` | sound/firewire/fcp.c:262-277 | over every run: once a bus reset is marked, no response is taken any more, no try is counted, and the only result is the error of an attempt to send the command |
| `Fcp.ResetSendsAgain` | sound/firewire/fcp.c:242-277 | a marked transaction is where it was after each round: the command is sent again for ever |
| `Fcp.ResetLostIff` | sound/firewire/fcp.c:250-261 | over every run: a bus reset that meets a waiting transaction can be forgotten if and only if it falls between the caller's look at a deferred transaction and its write |
| `Fcp.SuccessAfterResetIff` | sound/firewire/fcp.c:223-309 | a successful result can still be had after such a reset if and only if it fell there and there is a response that answers the command at all |
| `Fcp.AnswerLostIff` | sound/firewire/fcp.c:250-277 | over every run: an answer to a transaction that still waits for one is lost, so that only another answer can help, if and only if the transaction is deferred or reset as it comes, or the caller has looked for a response for the last time |
| `Fcp.WindowIff` | sound/firewire/fcp.c:250-261 | over every run: behind an interim response a transaction stays deferred exactly until the caller's write or a bus reset |
| `Fcp.AnswerInWindowIsLost` | sound/firewire/fcp.c:250-366 | so an answer that comes in that window, however long it is, does not let the call succeed |
| `Fcp.UnansweredFails` | sound/firewire/fcp.c:242-277 | a command that nobody answers is sent three times, and then the call fails |
| `Fcp.SendFails` | sound/firewire/fcp.c:242-249 | a command that cannot be sent ends the call with that error |
| `Fcp.WaitsIff` | sound/firewire/fcp.c:250-252 | the caller waits exactly as long as the transaction is pending, until the timeout |
| `Fcp.InterimIsWaitedOut` | sound/firewire/fcp.c:250-261 | an interim response, once noticed, leaves the transaction waiting as before, with as many tries |

## Left out

- AmdtpStreams.AmdtpStream.SetParameters: the position map and the block size are one value, which is left alone when a stream gets no channels.
- AmdtpStreams.AmdtpStream.OutStreamCallback: the slots of the packet queue are one buffer; with two frames in a block it assumes blocking mode, SYT_INTERVAL 16 and a buffer of a multiple of 32 frames, as for the one device family that has them.
- AmdtpStreams.AmdtpStream.HandleInPacket: assumes the header condition of `AcceptedFitsIff`, without which the blocks reach behind the packet, and a ring with room for as many frames as the payload has room for.
- Dice.ConfigureStream: parameters that `amdtp_stream_set_parameters` only warns about end the call here; the allocation of resources and the start of the stream are not part of it.
- Dice.DualWire: assumes a buffer of a multiple of 32 frames, as the PCM constraints of `amdtp.c:182-187` make it, and packets of 0 or 16 blocks; where the samples of received packets land is not stated.
- Digi00xProtocol.DotStream.WritePcmS32: takes the channel positions and the ring as arguments instead of from the stream and the PCM runtime.
- Fireworks.Efw.ReadRespBuf: does not model a fault while copying to user space, nor the wait for the first response.
- Fireworks.RingIsFifoIff: assumes responses that announce at least a header and no more than was received, and a ring size that is a multiple of 4.
- Isight.SampleLands: assumes that the first sample number has been taken, that PCM is running, and gaps below the buffer size.
- CompareSwap.PcrModifyLoop: a register that other controllers change for ever is cut off by a device that stops answering.
- CmpConnections.CmpConnection.EstablishConnection: a call that bus resets spoil for ever is cut off by a signal.
- CmpSharing.EverSharedIff: takes from the bus that a reset clears the connection counters of a plug, and that other controllers work like this one.
- IsoBus.CarefulConservation: the one-second delay before new allocations is the condition on updates, not a clock.
- Fcp.FcpTransaction.Step: memory ordering beyond single reads and writes, and the removal from the list, which comes after the last step.
- `amdtp_write_s16` and `write_pcm_s16`: like the 32-bit forms, with another sample format.
- `in_stream_callback`, `slave_stream_callback` and `amdtp_stream_first_callback`: hand each packet, or the timestamp of the master stream, to the functions modelled here.
- `cmp_connection_init` and `cmp_connection_check_used`: read registers once.
- MIDI of the Digi 00x, its control messages, and the transaction queue of Fireworks commands: similar to what is modelled.
- `fw_iso_context_*`, `fw_run_transaction`, `fw_iso_resource_manage`, locks, tasklets, wait queues, DMA and byte order: steps and answers of the environment.
- Device discovery, card and proc files, ALSA controls, hardware rules, duplex orchestration, vendor command wrappers and the user-space tools: plumbing or device behaviour.
