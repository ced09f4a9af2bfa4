# Control-node link and experiment lifecycle

A Dafny model of the parts of the IoT-LAB gateway code with the most state, interleaving, parsing and arithmetic,
and proofs about all their inputs, runs and interleavings. `dafny verify dfyconfig.toml` checks everything.

## What is modelled

* **Serial framing** (`Bytes`, `Framing`, `SerialParser`, `FrameGrammar`): the resumable parser of `serial.c` as an
  object, against a decoder that takes one byte at a time and against an unambiguous grammar of streams. A packet
  carries the whole receive buffer, so that code reading past its length sees the older bytes it would see.
* **Commands** (`Bits`, `Dict`, `Text`, `Scanf`, `Channels`, `CommandTable`, `CommandReader`, `CommandEncoder`,
  `Protocol`, `Selection`, `Compilation`, `Device`, `ProfileMeaning`, `Requests`): profiles checked by `profile.py`,
  printed by `cn_protocol.py`, matched by `command_parser.c` and encoded by `command_reader.c`. `Device` reads the bytes
  back independently, and the main theorem says for every request whether the C program accepts it and whether the
  device understands what was asked for.
* **Measures** (`TimeRef`, `Measures`, `MeasuresHandler`, `Sniffing`, `TimeSync`): `time_ref.c` and `measures_handler.c`.
* **Answers** (`Answers`, `EndToEnd`, `MeasurePath`, `Session`): `decode.c`, `write_answer()` and `_handle_answer()`, and the theorems that span
  both programs in both directions.
* **Pairing** (`Trace`, `Pairing`, `ControlNodeSerial`): `send_command()` calls, the reader thread and the one-slot
  queue, in every interleaving.
* **Sniffer server** (`SnifferServer`): the lock-free hand-over of `sniffer_server.c`, in every interleaving.
* **Lifecycle** (`Lifecycle`, `Schedule`, `Timeouts`, `GatewayManager`): `exp_start()`, `exp_stop()`, the timeout callback
  and the other synchronous operations; as whole operations, and as single statements between which any thread may try
  an operation and be refused by the re-entrant lock, whichever calls into nodes, files and threads raise.
* **Expect** (`Expect`): the line window of `serial_expect.py`.

The clock, the answers of nodes and network, the read boundaries and the schedule are parameters. Integers are
unbounded except where the source's width matters, and there it is written out. The host is little-endian with 64-bit
`long`.

## Where code and comments disagree

The model follows the code.

* A new sniffer client is said to replace the old one; the test is `0 > connect_fd`, so nobody is closed
  (`SnifferServer.ClientsPileUp`).
* The period of a radio measure is said to be checked to hold on 16 bits; only its low 16 bits are tested
  (`ProfileMeaning.RssiMeaning`).
* `dc_charge` is in the supply table but longer than the eight characters that are read (`ProfileMeaning.PowerMeaning`).
* A timeout is said to stop only the experiment that started it; a restarted experiment of the same pair is stopped
  too, and a busy lock loses the timeout (`Lifecycle.RestartedExperimentIsStopped`, `Timeouts.BusyLockLosesTimeout`).
* A failed send is said to leave at worst a mark without client; the descriptor may then be closed again, up to three
  times in all (`SnifferServer.AtMostThreeCloses`, `SnifferServer.WithoutHit`, `SnifferServer.HitClosesAgain`).
* `timeval_substract` is said to return 1 for a negative difference; see the exact condition in
  `TimeRef.TimevalSubstract`.

## Model

| member | source | states |
|---|---|---|
| `Framing.ChunkIndependence` | control_node_serial/src/serial.c:102-117 | for every byte stream and every cut into reads, the packets delivered and the final parser state are those of one byte-at-a-time decoder on the whole stream |
| `Framing.RunPayload` | control_node_serial/src/serial.c:166-186 | any run of payload bytes equals one copy into the buffer at the current index, with delivery exactly when the packet becomes full |
| `Framing.RunNoise` | control_node_serial/src/serial.c:140-150 | bytes without a sync byte leave the idle parser unchanged |
| `Framing.Step` | control_node_serial/src/serial.c:129-192 | every reachable state keeps index <= length <= 255 inside the 2048-byte buffer, and the payload phase never holds a full non-empty packet |
| `Framing.Conservation` | control_node_serial/src/serial.c:139-192 | over any run every consumed byte is counted exactly once: dropped while idle, part of a delivered frame (sync, length, payload), or part of the frame in progress |
| `SerialParser.Memchr` | control_node_serial/src/serial.c:144-148 | finds the first sync byte between two indices, or reports that there is none |
| `SerialParser.Memcpy` | control_node_serial/src/serial.c:173-174 | replaces exactly the destination slice by the source slice |
| `SerialParser.Parser.constructor` | control_node_serial/src/serial.c:125-133 | starts idle with nothing delivered |
| `SerialParser.Parser.IdleTurn` | control_node_serial/src/serial.c:140-154 | one turn of the idle phase: what remains of the buffer still leads the byte-at-a-time decoder to the same state |
| `SerialParser.Parser.LengthTurn` | control_node_serial/src/serial.c:155-164 | the same for the length phase |
| `SerialParser.Parser.PayloadTurn` | control_node_serial/src/serial.c:165-186 | the same for the payload phase, which consumes nothing only when it delivers a packet of length zero and returns to idle |
| `SerialParser.Parser.CopyPayload` | control_node_serial/src/serial.c:165-186 | moves the missing bytes or as many as there are, and delivers the packet when it is full |
| `SerialParser.Parser.ParseRxData` | control_node_serial/src/serial.c:126-193 | the loop terminates and leaves the object in exactly the state, packets included, of the byte-at-a-time decoder on the bytes of the buffer |
| `SerialParser.Parser.ReceiveAll` | control_node_serial/src/serial.c:102-117 | any number of reads leave the object as the decoder run on their concatenation |
| `FrameGrammar.ParseCovers` | control_node_serial/src/serial.c:140-192 | every byte stream is a list of noise bytes and frames followed by an unfinished frame |
| `FrameGrammar.ParseUnique` | control_node_serial/src/serial.c:140-192 | that decomposition is unique |
| `FrameGrammar.RunItems` | control_node_serial/src/serial.c:139-192 | from idle, any list of noise and frames delivers exactly the payloads of the frames, in order, with a trailing empty packet only deferred |
| `FrameGrammar.DeliversExactlyTheFrames` | control_node_serial/src/serial.c:139-192 | for any stream whatever, the packets are the frames of its unique decomposition, and the parser ends idle iff no frame is unfinished |
| `FrameGrammar.FramingRoundTrip` | control_node_serial/src/serial.c:139-192 | noise mixed with frames of 1 to 255 arbitrary bytes, sync bytes included, in any chunks, yields those payloads in order and ends idle |
| `FrameGrammar.RunUnfinished` | control_node_serial/src/serial.c:155-186 | an unfinished frame delivers nothing, and leaves the parser idle only if it is empty |
| `Dict.Inverse` | control_node_serial/src/utils.c:31-61 | on a table with unique keys and values the two searches are inverse of each other and succeed exactly on its entries |
| `Dict.GetVal` | control_node_serial/src/utils.c:31-47 | succeeds exactly for the keys of the table, with 0xFF for an unknown key and the old value for a missing one |
| `Dict.GetKey` | control_node_serial/src/utils.c:49-61 | succeeds exactly for the values of the table |
| `CommandTable.CommandsAreUnique` | control_node_serial/src/command_reader.c:122-150 | the shipped command table has unique names and bytes |
| `CommandTable.SmallTablesAreUnique` | control_node_serial/src/command_reader.c:49-156 | so have the other lookup tables used in both directions |
| `CommandTable.ScalesAreUnique` | control_node_serial/src/command_reader.c:65-86 | and the period and average tables |
| `CommandTable.NoCommandIsAsync` | control_node_serial/src/decode.c:39-45 | no command byte has the high nibble of a measure frame, so no answer is routed to the measure handler |
| `Channels.ParseChannelsList` | control_node_serial/src/command_reader.c:477-494 | the token loop computes the OR of the bits of the listed channels, unusable tokens counting for nothing |
| `Channels.AccumulateBits` | control_node_serial/src/command_reader.c:482-491 | bit c of the mask is set iff some token reads as channel c within 11..26 |
| `Channels.ChannelSetAsBitmask` | gateway_code/control_nodes/cn_iotlab/cn_protocol.py:150-153 | printing the sorted duplicate-free channels and parsing the list sets bit c iff c is in the set |
| `Channels.SeveralChannels` | control_node_serial/src/command_reader.c:352-361 | flag & (flag - 1) is non-zero iff the printed set has at least two channels |
| `Bits.SeveralBits` | control_node_serial/src/command_reader.c:355 | x & (x - 1) is non-zero iff two different bits of x are set |
| `CommandEncoder.SeveralChannelsTest` | control_node_serial/src/command_reader.c:355 | the same test in 32-bit unsigned arithmetic, the wrap at zero included |
| `Scanf.ScanPrinted` | control_node_serial/src/command_parser.c:50-56 | a line printed from arguments that fit a format is read back field by field |
| `Scanf.ScanPrintedInt` | control_node_serial/src/command_reader.c:403-430 | "%i" reads back every printed integer, negative ones and zero included, as far as the next blank |
| `Scanf.ScanCut` | control_node_serial/src/command_reader.c:403-405 | "%8s" keeps exactly the first eight characters of a longer word |
| `CommandReader.CommandParse` | control_node_serial/src/command_parser.c:29-59 | the loop returns the first entry of the table that the line matches, and none iff no entry matches |
| `CommandReader.SelectFirst` | control_node_serial/src/command_parser.c:35-58 | an entry is chosen iff it matches and no earlier one does |
| `CommandReader.CompileIsWellFormed` | control_node_serial/src/command_reader.c:445-468 | any accepted line becomes 1 to 9 bytes that start with the byte of its first word, never that of a measure frame |
| `CommandEncoder.CommandBuffer.constructor` | control_node_serial/src/command_reader.c:546-551 | an empty command buffer |
| `CommandEncoder.CommandBuffer.Init` | control_node_serial/src/command_reader.c:455-458 | the buffer holds a sync byte and no payload, whatever it held before |
| `CommandEncoder.CommandBuffer.AppendData` | control_node_serial/src/command_reader.c:470-475 | appends exactly the given bytes to the payload and keeps the length byte in step |
| `CommandEncoder.CommandBuffer.Packet` | control_node_serial/src/command_reader.c:569-570 | what is written is the frame of the payload |
| `CommandEncoder.CmdLookup` | control_node_serial/src/command_reader.c:227-257 | one looked-up byte is appended; failure iff the word is not in the table |
| `CommandEncoder.CmdSetTime` | control_node_serial/src/command_reader.c:192-203 | appends the low 32 bits of seconds and microseconds, little-endian, and stores the time as the reference of the acknowledgement |
| `CommandEncoder.CmdSetNodeId` | control_node_serial/src/command_reader.c:205-225 | appends four bits of architecture and twelve of number; failure iff the architecture is unknown |
| `CommandEncoder.CmdConsumption` | control_node_serial/src/command_reader.c:259-312 | appends state, source with flags, period with average; failure iff one of the words is unknown |
| `CommandEncoder.CmdRadioMeasure` | control_node_serial/src/command_reader.c:315-337 | appends mask, period and count; failure iff no channel, a zero 16-bit period or a count above 255 |
| `CommandEncoder.CmdRadioSniffer` | control_node_serial/src/command_reader.c:339-366 | appends mask and period; failure iff no channel, or the period is zero with several channels or non-zero with one |
| `CommandEncoder.CmdRadioPingPong` | control_node_serial/src/command_reader.c:369-401 | appends state, channel and power; failure as the channel range and the tables say |
| `CommandEncoder.ParseCmd` | control_node_serial/src/command_reader.c:445-468 | returns 0 iff the line compiles, and then the buffer holds the compiled payload behind a sync byte; the time reference changes iff the line selects set_time |
| `CommandEncoder.ReadCommands` | control_node_serial/src/command_reader.c:546-578 | everything written for a session is the frames of the accepted lines, in order, and nothing else; the time reference is that of the last set_time |
| `CommandEncoder.WrittenFramesDecode` | control_node_serial/src/command_reader.c:558-573 | a parser that reads those bytes in any chunks gets back exactly the payload of each accepted line |
| `Protocol.NewConsumption` | gateway_code/profile.py:82-99 | whatever passes the checks has a known source, period and average |
| `Protocol.EveryValidConsumption` | gateway_code/profile.py:82-99 | and every such setting is accepted |
| `Protocol.NewRadio` | gateway_code/profile.py:113-166 | whatever passes the checks has channels in 11..26 and periods and counts in range, with a sniffer period iff not exactly one channel is listed |
| `Protocol.EveryValidRadio` | gateway_code/profile.py:113-166 | and every such setting is accepted, a missing sniffer period counting as 0 |
| `Device.MaskOfSet` | control_node_serial/src/command_reader.c:477-494 | the channels read from the mask of a printed set are that set, in increasing order |
| `Device.Config0Fields` | control_node_serial/src/command_reader.c:292-296 | source and measure flags share a byte without interfering |
| `Device.Config1Fields` | control_node_serial/src/command_reader.c:299-303 | so do period and average |
| `ProfileMeaning.PowerMeaning` | gateway_code/control_nodes/cn_iotlab/cn_protocol.py:39-47 | for any supply word, the command is accepted iff it is dc or battery (never dc_charge, which "%8s" cuts), and then means that supply |
| `ProfileMeaning.TimeMeaning` | gateway_code/control_nodes/cn_iotlab/cn_protocol.py:49-53 | set_time is accepted and carries the clock exactly iff the seconds fit 32 bits |
| `ProfileMeaning.NodeMeaning` | gateway_code/control_nodes/cn_iotlab/cn_protocol.py:78-88 | set_node_id is accepted and carries the node exactly iff its number is below 4096 |
| `ProfileMeaning.LedMeaning` | gateway_code/control_nodes/cn_iotlab/cn_protocol.py:90-98 | both led commands mean what they say |
| `ProfileMeaning.ConsumptionMeaning` | gateway_code/control_nodes/cn_iotlab/cn_protocol.py:100-125 | every valid consumption setting is accepted; the device recovers source, flags, period and average exactly iff no flag is an integer whose low 32 bits vanish |
| `ProfileMeaning.FlagKeptIsExact` | control_node_serial/src/command_reader.c:294-296 | when a flag keeps its truth value through "%i" and !!, as a condition on the integer |
| `ProfileMeaning.RssiMeaning` | gateway_code/control_nodes/cn_iotlab/cn_protocol.py:144-158 | for any period and count, which are accepted by the C checks, and that meaning is kept iff 1 <= period < 65536 and 0 <= count < 256 |
| `ProfileMeaning.SnifferMeaning` | gateway_code/control_nodes/cn_iotlab/cn_protocol.py:160-172 | for any period, which are accepted, and that meaning is kept iff 0 <= period < 65536 |
| `ProfileMeaning.RadioStopMeaning` | gateway_code/control_nodes/cn_iotlab/cn_protocol.py:174-176 | the stop command stops the radio |
| `ProfileMeaning.PingPongMeaning` | control_node_serial/src/command_reader.c:369-401 | the printed line of a started radio test, for any number and power word: accepted iff the channel, in 32-bit arithmetic, is within 11..26 and the power known; the frame carries both and the power byte names its word |
| `Requests.CommandPreservesMeaning` | gateway_code/control_nodes/cn_iotlab/cn_protocol.py:32-176 | for every request: accepted iff supported (no dc_charge supply, no sniffer list that only repeats one channel), and then understood exactly iff its numbers fit the frame |
| `Requests.RepeatedChannelIsRefused` | gateway_code/profile.py:155-164 | the sniffer profile [11, 11] with a period passes the Python checks and is refused by the C program |
| `Requests.WideNodeIsCut` | control_node_serial/src/command_reader.c:218-222 | node number 4096 is accepted and reaches the device as another number |
| `Requests.WideFlagIsLost` | control_node_serial/src/command_reader.c:294-296 | a flag of 2^32 is accepted and reaches the device as false |
| `Requests.SessionPreservesMeaning` | control_node_serial/src/command_reader.c:546-578 | over a whole session, in any chunks, the device understands exactly the supported requests, in order |
| `TimeRef.TimevalSubstract` | control_node_serial/src/time_ref.c:28-54 | the difference is exact and the carry keeps y; normalised inputs give a normalised result and a flag that is 1 iff x < y; in general microseconds reach 10^6, and the flag is wrong on equal instants, exactly when they differ by whole seconds in the stated way |
| `TimeRef.RaggedExample` | control_node_serial/src/time_ref.c:53 | two equal unnormalised instants for which the flag says negative |
| `TimeRef.Timeval.Clear` | control_node_serial/src/measures_handler.c:256 | timerclear |
| `Measures.TimeExtended` | control_node_serial/src/measures_handler.c:59-68 | the timestamp has the same total as reference plus offset, with microseconds below 10^6 |
| `Measures.FrameRoundTrip` | control_node_serial/src/measures_handler.c:86-121 | any frame of up to 255 records passes the length test and reads back record by record, whatever follows in the buffer |
| `Measures.AcceptedSize` | control_node_serial/src/measures_handler.c:97-104 | a non-empty frame passes the length test iff the record size is the one it was written for |
| `Measures.SampleColumns` | control_node_serial/src/measures_handler.c:204-217 | the floats of a record land in the columns of the enabled flags, NAN elsewhere |
| `Measures.SamplesRoundTrip` | control_node_serial/src/measures_handler.c:86-121 | every frame of samples taken under the current configuration comes out as those samples, in order, in their columns, with absolute times |
| `Measures.SamplesAccepted` | control_node_serial/src/measures_handler.c:97-104 | a non-empty frame of k-value samples is accepted iff the configuration has k values |
| `Measures.RadioRoundTrip` | control_node_serial/src/measures_handler.c:123-129 | radio samples come out with channel and signed strength under any configuration |
| `MeasuresHandler.LastAckWins` | control_node_serial/src/measures_handler.c:241-276 | over every run of packets the configuration is that of the last acknowledged consumption setting |
| `MeasuresHandler.NoAckKeeps` | control_node_serial/src/measures_handler.c:278-318 | no other packet changes it |
| `MeasuresHandler.ConfigBits` | control_node_serial/src/measures_handler.c:258-265 | which bits of the acknowledged byte are the three flags and the source; the record size is four bytes for each flag |
| `MeasuresHandler.Handler.constructor` | control_node_serial/src/measures_handler.c:48-56 | starts without measures |
| `MeasuresHandler.Handler.ConfigConsumption` | control_node_serial/src/measures_handler.c:219-239 | replaces the whole configuration; the size always matches the flags |
| `MeasuresHandler.Handler.HandleAck` | control_node_serial/src/measures_handler.c:241-276 | changes the configuration for a consumption acknowledgement only; set_time reports the exact elapsed time and clears the reference |
| `MeasuresHandler.Handler.ConsumptionHandler` | control_node_serial/src/measures_handler.c:204-217 | each enabled column takes the next float of the buffer |
| `MeasuresHandler.Handler.HandleRecords` | control_node_serial/src/measures_handler.c:109-120 | the handler is called once per record, in order, with its own time and bytes |
| `MeasuresHandler.Handler.HandleOmlMeasure` | control_node_serial/src/measures_handler.c:86-121 | a wrong length calls no handler; otherwise the rows depend on the frame alone, not on stale bytes of the measure buffer |
| `MeasuresHandler.Handler.HandleMeasurePkt` | control_node_serial/src/measures_handler.c:278-318 | dispatch by type; unknown types are refused and change nothing |
| `MeasuresHandler.SameRow` | control_node_serial/src/measures_handler.c:204-217 | what a handler extracts does not depend on the bytes after the measure |
| `TimeSync.SelectsSetTime` | control_node_serial/src/command_reader.c:403-430 | the lines that store the time are exactly the text set_time |
| `TimeSync.PlayAll` | control_node_serial/src/measures_handler.c:250-257 | over any run of command lines and packets the objects keep the time reference of the run and print its delays |
| `TimeSync.DelaySinceLastSetTime` | control_node_serial/src/measures_handler.c:250-257 | the delay printed for an acknowledgement is the time since the last set_time iff no acknowledgement came in between (or that was sent at the epoch); a second acknowledgement prints the time since the epoch |
| `MeasuresHandler.ExtractData` | control_node_serial/src/measures_handler.c:320-324 | overwrites the head of the buffer and leaves the rest as it was |
| `Sniffing.SecondsRoundTrip` | control_node_serial/src/measures_handler.c:135-196 | Unix and NTP seconds are inverse for every 32-bit value, across the wrap |
| `Sniffing.Microseconds` | control_node_serial/src/measures_handler.c:197 | microseconds of a fraction are below 10^6 |
| `Sniffing.MicrosecondsMonotone` | control_node_serial/src/measures_handler.c:197 | and never decrease with the fraction |
| `Sniffing.MicrosecondsRoundTrip` | control_node_serial/src/measures_handler.c:197 | a fraction rounded down loses at most one microsecond, one rounded up loses none |
| `Sniffing.FloorIsExact` | control_node_serial/src/measures_handler.c:197 | rounding down loses none iff the microseconds are a multiple of 5^6 |
| `Sniffing.HandleRadioSniffer` | control_node_serial/src/measures_handler.c:158-202 | accepted iff both length tests hold; what is forwarded is the captured packet and one byte more, always |
| `Sniffing.SnifferRoundTrip` | control_node_serial/src/measures_handler.c:158-202 | every captured packet yields its own channel, quality, strength, time and length minus two in 32 bits, whatever follows it |
| `Answers.WriteAnswer` | control_node_serial/src/command_reader.c:496-543 | prints the name and the word for the code iff both are known, the signed code for an error frame, and fails otherwise |
| `Answers.DecodePkt` | control_node_serial/src/decode.c:32-57 | measure frames go to the handler, the others to write_answer, with a diagnostic for every failure; the configuration moves as the packet says |
| `Answers.DecodeAll` | control_node_serial/src/decode.c:32-57 | packets handled in turn print exactly the transcript of the run and leave the configuration of the last acknowledgement |
| `Answers.TranscriptAnswers` | control_node_serial/src/decode.c:39-45 | over any run of non-empty packets the answers printed are those of the payloads, whatever the measure handler does |
| `Answers.LinesSurvive` | gateway_code/control_nodes/cn_iotlab/cn_interface.py:214-223 | the lines read back from the printed text are the lines printed |
| `Answers.LineReaction` | gateway_code/control_nodes/cn_iotlab/cn_interface.py:179-206 | of every line that the C program can print, answers are enqueued as two words and nothing else is; none makes _handle_answer() itself raise, the delay of a set_time acknowledgement being a decimal for float() |
| `Answers.TranscriptPossible` | control_node_serial/src/command_reader.c:496-543 | every line printed for any run of packets is of that kind |
| `EndToEnd.AnswersArrive` | gateway_code/control_nodes/cn_iotlab/cn_interface.py:179-226 | whatever noise and non-empty frames the device sends, in any chunks, Python enqueues exactly the answers among them, in order, and the reader thread survives |
| `EndToEnd.EveryStreamIsCarried` | control_node_serial/src/decode.c:32-57 | every stream of noise and non-empty frames, from any idle parser and configuration, has such a passage, so the theorems about it are never empty |
| `EndToEnd.CommandByte` | control_node_serial/src/command_reader.c:460-464 | the first byte of an accepted command names it |
| `EndToEnd.AcknowledgedEndToEnd` | gateway_code/control_nodes/cn_iotlab/cn_protocol.py:32-37 | for every supported request: if the device answers with the command byte and a code, amid noise and measure frames, exactly [command, word] is enqueued, and send_cmd() is 0 iff the code is ACK |
| `EndToEnd.AcknowledgedCall` | gateway_code/control_nodes/cn_iotlab/cn_interface.py:228-256 | for every interleaving of calls and reader: if what is handled from the drain of the call to its return begins with what comes back from the device, send_cmd() returns 0 iff the code is ACK |
| `EndToEnd.NothingInTime` | gateway_code/control_nodes/cn_iotlab/cn_interface.py:241-246 | a call during which no answer is handled makes send_cmd() return 1 |
| `Session.SessionHeard` | gateway_code/control_nodes/cn_iotlab/cn_interface.py:179-226 | if the device acknowledges every command it reads, amid any noise and measure frames and in any chunks, Python enqueues exactly the names of the supported requests of the session, with ACK, in order |
| `Session.AcknowledgedSession` | gateway_code/control_nodes/cn_iotlab/cn_protocol.py:32-37 | a whole session through both programs, the device and back, each answer handled within its own call: every call whose command was written makes send_cmd() return 0 if its request is supported, and 1 if not |
| `MeasurePath.DecodedConfig` | control_node_serial/src/measures_handler.c:258-265 | what the measure handler keeps of an acknowledged configuration is what the device reads from the command |
| `MeasurePath.SamplesOnTheWire` | control_node_serial/src/measures_handler.c:86-121 | on the byte stream: after the acknowledgement of a configuration and anything that acknowledges no other, amid any noise and chunks, a frame of samples taken under it makes the measure handler yield exactly those samples |
| `MeasurePath.RequestedMeasuresOnTheWire` | control_node_serial/src/measures_handler.c:86-121 | the same for the configuration that a profile compiles to and samples of the quantities it asks for |
| `Pairing.EveryRun` | gateway_code/control_nodes/cn_iotlab/cn_interface.py:228-256 | in every interleaving the queue holds at most one item, at most one call is inside, and emptying the queue never raises |
| `Pairing.StepInv` | gateway_code/control_nodes/cn_iotlab/cn_interface.py:235-256 | every atomic step keeps that, and that a call past its drain can only see the very first answer handled since |
| `Pairing.ReturnsFirstAnswer` | gateway_code/control_nodes/cn_iotlab/cn_interface.py:228-256 | a call whose command was written returns the first answer handled after its drain, and None only if there was none |
| `Pairing.SuccessIsFirstAnswer` | gateway_code/control_nodes/cn_iotlab/cn_protocol.py:32-37 | send_cmd() is 0 iff the first answer handled after the call's drain came before its return and is its own [command, ACK] |
| `Pairing.OwnAnswerIff` | gateway_code/control_nodes/cn_iotlab/cn_interface.py:237-246 | with a device that answers some of the accepted commands in order, however late: a returned answer is the call's own iff no command written before its own is answered at or after its drain |
| `Pairing.OwnAnswerIfNoneOpen` | gateway_code/control_nodes/cn_iotlab/cn_interface.py:237-246 | with a device that answers every accepted command in order: a returned answer is the call's own iff its line was accepted and every accepted command before it was answered when the call drained the queue |
| `Pairing.AnswersConserved` | gateway_code/control_nodes/cn_iotlab/cn_interface.py:202-206 | every answer handled is returned once, queued, or counted as discarded; no two calls return the same one |
| `Pairing.NthCallNthAnswer` | gateway_code/control_nodes/cn_iotlab/cn_interface.py:228-256 | if every accepted command gets one answer within its own call, the n-th one accepted returns the n-th answer, and a call whose line was refused or not written returns None |
| `Pairing.LateAnswerIsTaken` | gateway_code/control_nodes/cn_iotlab/cn_interface.py:237-246 | the failing case: from any quiet state, a call times out, the answer to its command comes during the next call, and that one returns it |
| `ControlNodeSerial.Sender.constructor` | gateway_code/control_nodes/cn_iotlab/cn_interface.py:72-81 | the machine starts empty |
| `ControlNodeSerial.Sender.TestEmpty` | gateway_code/common.py:95 | performs this step of the machine: a call goes on to write only with an empty queue |
| `ControlNodeSerial.Sender.GetNowait` | gateway_code/common.py:96 | performs this step of the machine; the item that was seen is still there |
| `ControlNodeSerial.Sender.WriteCommand` | gateway_code/control_nodes/cn_iotlab/cn_interface.py:241-252 | performs this step of the machine; a failed write returns None and frees the mutex |
| `ControlNodeSerial.Sender.GetAnswer` | gateway_code/control_nodes/cn_iotlab/cn_interface.py:243-256 | performs this step of the machine; returns the queued answer, or None iff there is none at the deadline |
| `ControlNodeSerial.Sender.HandleCommandAnswer` | gateway_code/control_nodes/cn_iotlab/cn_interface.py:202-206 | performs this step of the machine; an answer that finds the queue full is dropped |
| `ControlNodeSerial.Sender.EnterAndDrain` | gateway_code/common.py:95-96 | the wait for the mutex and the loop of empty_queue(), with any steps of other threads in between: a call goes on to its write only with the queue found empty |
| `ControlNodeSerial.Sender.SendCommand` | gateway_code/control_nodes/cn_iotlab/cn_interface.py:228-256 | send_command() as one method with any steps of other calls and the reader between its own: the new state is that of a run of the machine from the old one, and the call returns the first answer handled since its drain, or None iff there was none or the write failed |
| `SnifferServer.LiveClientIsActive` | control_node_serial/src/sniffer_server.c:111-192 | in every interleaving a latest client that has not failed is marked active, or the accepting thread is between its steps, or the sender will restore the mark; with both threads outside it is marked |
| `SnifferServer.StepInv` | control_node_serial/src/sniffer_server.c:125-192 | every atomic step of either thread keeps the hand-over invariant |
| `SnifferServer.SendHealsMark` | control_node_serial/src/sniffer_server.c:173-192 | after an undisturbed send the mark says whether the packet reached the latest client, and nobody else received it |
| `SnifferServer.OnlyFailuresAreClosed` | control_node_serial/src/sniffer_server.c:137-141 | a descriptor is closed only after a failed send to it, never by a new accept |
| `SnifferServer.ClientsPileUp` | control_node_serial/src/sniffer_server.c:137-141 | as long as no send fails every client ever accepted stays open |
| `SnifferServer.AtMostThreeCloses` | control_node_serial/src/sniffer_server.c:186-190 | in every interleaving no descriptor is closed more than three times |
| `SnifferServer.ThreeClosesOccur` | control_node_serial/src/sniffer_server.c:186-190 | and a run in which one is closed three times |
| `SnifferServer.WithoutHit` | control_node_serial/src/sniffer_server.c:143-190 | unless a send fails on the saved client while that is marked or about to be, nobody is closed twice and whoever is marked has not failed |
| `SnifferServer.HitClosesAgain` | control_node_serial/src/sniffer_server.c:143-190 | and if one does, the mark stays on the closed client and the next undisturbed send closes it again |
| `SnifferServer.ReceiversAdvance` | control_node_serial/src/sniffer_server.c:173-192 | once a client has received a packet no older client ever does |
| `SnifferServer.SnifferState.constructor` | control_node_serial/src/sniffer_server.c:48-58 | no client, not active |
| `SnifferServer.SnifferState.AcceptReturns` | control_node_serial/src/sniffer_server.c:130-141 | performs exactly this step of the accepting thread and keeps the hand-over invariant |
| `SnifferServer.SnifferState.SaveConnectFd` | control_node_serial/src/sniffer_server.c:145 | performs exactly this step of the accepting thread and keeps the hand-over invariant |
| `SnifferServer.SnifferState.MarkActive` | control_node_serial/src/sniffer_server.c:146 | performs exactly this step of the accepting thread and keeps the hand-over invariant |
| `SnifferServer.SnifferState.TestActive` | control_node_serial/src/sniffer_server.c:178-179 | performs this step of the sender, which goes on iff the mark is set, and keeps the invariant |
| `SnifferServer.SnifferState.ClearActive` | control_node_serial/src/sniffer_server.c:183 | performs exactly this step of the sender and keeps the hand-over invariant |
| `SnifferServer.SnifferState.ReadConnectFd` | control_node_serial/src/sniffer_server.c:184 | performs exactly this step of the sender and keeps the hand-over invariant |
| `SnifferServer.SnifferState.SendData` | control_node_serial/src/sniffer_server.c:186 | performs exactly this step of the sender and keeps the hand-over invariant |
| `SnifferServer.SnifferState.CloseOrRestore` | control_node_serial/src/sniffer_server.c:187-190 | performs this step of the sender, close after a failure and mark again after a success, and keeps the invariant |
| `SnifferServer.SnifferState.SendWhole` | control_node_serial/src/sniffer_server.c:173-192 | the whole function with any steps of the accepting thread between its own: nothing without a mark, at most one receiver, and the mark set again after a success |
| `Schedule.EveryInterleaving` | gateway_code/gateway_manager.py:99-256 | in every interleaving of attempts and single statements, whichever calls raise, and in every intermediate state: a stored timer is that of the running experiment, every other timer is cancelled, at most one user handler is registered; whenever the lock is free its depth is 0 and a manager without experiment has nothing left |
| `Schedule.Serialisable` | gateway_code/common.py:133-151 | the operations that ended, with the one in progress, are exactly the attempts that got the lock, in order; whenever the lock is free, the manager and all results are those of these operations, each as a whole, one after the other |
| `Schedule.RefusedExactlyWhenBusy` | gateway_code/common.py:141-144 | an attempt is refused iff another thread is inside an operation, at whatever statement, and changes neither the manager nor the lock nor what the owner does |
| `Schedule.OperationEnds` | gateway_code/common.py:146-149 | left alone the owner ends its operation, by return or exception, with the effect of the whole operation and the lock free |
| `Schedule.StepGood` | gateway_code/gateway_manager.py:121-256 | every statement and every attempt keeps the invariant, and what is left of the operation in progress still leads to the effect of the whole |
| `Lifecycle.DoInv` | gateway_code/gateway_manager.py:99-256 | every operation as a whole keeps the invariant of the idle manager |
| `Lifecycle.PerformReturns` | gateway_code/gateway_manager.py:155-179 | a run of calls returns iff none of them raises |
| `Lifecycle.StartAchieves` | gateway_code/gateway_manager.py:99-187 | a start that returns runs the requested experiment with its own files, handler and, for a non-zero timeout, timer; with a bad profile or firmware nothing runs afterwards, whatever ran before |
| `Lifecycle.StopAchieves` | gateway_code/gateway_manager.py:209-256 | a stop that returns leaves nothing behind and cancels every timer; its value adds two results and drops that of control_node.stop() |
| `Lifecycle.FailedStopLosesTimer` | gateway_code/gateway_manager.py:229-246 | a stop leaves the experiment running iff one of its calls raises, and then without any timer that could end it |
| `Lifecycle.LateCallback` | gateway_code/gateway_manager.py:189-207 | a callback that has the lock changes nothing unless the running experiment has its pair, and ends the running experiment iff that is so and no call of exp_stop() raises |
| `Timeouts.TimeoutStopsIff` | gateway_code/gateway_manager.py:189-207 | in any state of any interleaving: the callback ends the running experiment iff nobody is inside an operation when it tries, the pair is its own, and no call of exp_stop() raises |
| `Timeouts.BusyLockLosesTimeout` | gateway_code/common.py:141-144 | a run from the start in which a timed experiment outlives its timeout because another operation holds the lock |
| `Timeouts.LostForGood` | gateway_code/gateway_manager.py:181-207 | after that, no interleaving of callbacks and other operations ends it until somebody asks for a start or a stop |
| `Lifecycle.RestartedExperimentIsStopped` | gateway_code/gateway_manager.py:189-207 | a restarted experiment of the same pair is stopped by the cancelled timer of its first life |
| `GatewayManager.GatewayManager.constructor` | gateway_code/gateway_manager.py:50-70 | starts without experiment, the lock free |
| `GatewayManager.GatewayManager.TryAcquire` | gateway_code/common.py:141-144 | succeeds iff the lock is free or already the thread's own, and then deepens it by one |
| `GatewayManager.GatewayManager.Release` | gateway_code/common.py:146-149 | undoes one acquisition and frees the lock at depth zero |
| `GatewayManager.GatewayManager.RemoveHandler` | gateway_code/gateway_manager.py:253 | unregisters the current user handler and no other |
| `GatewayManager.GatewayManager.ExpStop` | gateway_code/gateway_manager.py:209-256 | refused without effect when another thread has the lock; otherwise the effect and result of exp_stop(), with the lock given back also after an exception |
| `GatewayManager.GatewayManager.ExpStart` | gateway_code/gateway_manager.py:99-187 | the same for exp_start(), whose nested exp_stop() takes the lock again |
| `GatewayManager.GatewayManager.TimeoutExpStop` | gateway_code/gateway_manager.py:189-207 | the same for the callback, which swallows an EWOULDBLOCK raised inside exp_stop() and no other exception |
| `GatewayManager.GatewayManager.HoldLock` | gateway_code/gateway_manager.py:258-272 | the same for the operations that only call the nodes under the lock |
| `GatewayManager.AddUp` | gateway_code/gateway_manager.py:155-179 | results are added up, up to the first call that raises, whose exception is the outcome |
| `Expect.Expect` | gateway_code/utils/serial_expect.py:60-118 | the loop over reads: ValueError iff the pattern has a newline, otherwise the outcome of the windowed search |
| `Expect.WindowIsExact` | gateway_code/utils/serial_expect.py:86-90 | for every pattern without anchors and look-around: the window of one line returns at the same read and with the same match as a search of everything read so far, whatever is read, iff no match goes on after a newline up to which nothing is found |
| `Expect.SpanIsMissed` | gateway_code/utils/serial_expect.py:86-90 | and any match that does gives two reads on which the outcomes differ |
| `Expect.NewlineIsMissed` | gateway_code/utils/serial_expect.py:64-68 | a pattern without newline in its text that has such a match |
| `Expect.ExpectList` | gateway_code/utils/serial_expect.py:54-58 | on any patterns: ValueError iff the text of one has a newline; otherwise, if no match of an alternative goes on after a newline in that way, the outcome of searching everything read so far for the first alternative that matches |
| `Expect.WindowStep` | gateway_code/utils/serial_expect.py:88-90 | text read before the current line cannot matter for such a pattern |
| `Expect.FoundIffOccurs` | gateway_code/utils/serial_expect.py:74-118 | for one literal and reads in time the cut does not matter: it is found iff it occurs in everything read |

## Left out

- TTY setup, sockets, thread creation, OML files and process control: plumbing around the modelled logic.
- REST server, command line tools, node classes, flashing tools, autotests and external processes: thin wrappers.
- What `exp_update_profile` and the power, debug, reset, flash, sleep and status operations of the manager do to the nodes:
  they are node calls under the lock that touch no field.
- When a timer fires: its callback may come at any moment after its creation, once, even after it was cancelled.
- `_set_node_id_args`: the request carries architecture and number already split; other architectures send nothing.
- Writes past small C arrays ("%8s" into eight bytes, "%i" into a 16-bit number, a 32-character first word): the model
  gives the value that is read and not the neighbouring memory that is overwritten.
- `sscanf` beyond the formats of the command table; "0x" without digits is a mismatch here.
- The `default` branch of the parser's switch: the state variable has three values.
- Wording of diagnostics and number format of printed measures: a line is known by its first word and has no newline.
- Answers.LineReaction: what a `measures_debug` callback raises is not modelled.
- `ControlNodeSerial.start` and `stop`: the reader is modelled while it runs.
- `sniffer_server_stop` and reuse of descriptor numbers: every accepted connection is a new number.
- Memory order: the two shared fields of the sniffer server are sequentially consistent, and so is the time reference that
  the command thread stores and the main thread reads.
- Expect.WindowIsExact: the syntax of regular expressions is not modelled, a pattern is what it matches at the head of a
  text; anchors and look-around are not covered. The logging of lines is not modelled.
- MeasuresHandler.Handler.HandleAck: the clock is assumed normalised, as gettimeofday() gives it.
- TimeRef.TimevalSubstract: microseconds further apart than an `int` product allows are not covered.
- GatewayManager.GatewayManager.ExpStart: the contents of the experiment files and the board's configuration are not
  modelled, only for whom the files were created.
