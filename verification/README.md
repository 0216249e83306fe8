# Verification of the ROC v2 link protocols and tool controller

A Dafny model of the parts of this repository that work on unreliable links or
drive a motor, with proofs about all inputs and all runs. Code that updates
objects or buffers in the repository is a class or a method with a loop here;
each such method is proved equal to a function, and the theorems are about
these functions.

Check everything with `dafny verify dfyconfig.toml`.

## What is modelled

**HIL frames** (`Bytes`, `Fletcher`, `HilCodec`, `Receivers`, `StreamDecoder`,
`Integers`, `HilFrameArduino`, `Frame`, `HilFrame`, `Deframers`, `Segments`,
`OtherMarks`, `Noise`, `Deadlines`, `Interop`). A payload is
followed by a Fletcher-16 mod 255 trailer (the 8-bit Fletcher sum of Appendix I
of RFC 1146), byte-stuffed with 0x7D and xor 0x20 (the scheme of section 4.2 of
RFC 1662) and put between two 0x7E. The repository has three implementations of
the codec and three loops that cut a stream at its delimiters. All readers are
instances of one byte-driven machine (`Receivers`), and each imperative reader
is proved to be that machine on the bytes that arrive before its deadline.
The main results are the round trip over streams, resynchronisation after
arbitrary noise and after deadlines with the exact conditions for losing a frame,
agreement of the implementations with their one exact difference, and what the
checksum detects.

**MAVLink** (`Crc`, `Bursts`, `Differences`, `IdChanges`, `SplitBursts`, `Mavlink`,
`MavlinkErrors`). The shift-form CRC equals the bit-by-bit
reflected CRC-16 (polynomial 0x8408, Appendix C of RFC 1662, start 0xFFFF, no
final complement). Every burst of up to 16 bits within the covered bytes is
detected at every length. In a frame the extra byte comes between the covered
bytes and the checksum, and changes with the id. Of the single bytes of a version
1 frame, the length apart, exactly four id changes pass; of the bursts of up to 16
bits that keep length and extra byte, in either version, exactly seven patterns
across that boundary do. In both versions exactly the encodings of a frame are
accepted, and their fields come back; the datagram scanner returns the leftmost
valid frame.

**RTCM3 extraction** (`Rtcm`). Incremental parsing of the transport layer
(RTCM 10403.3, section 4) from a retained and trimmed buffer equals parsing the
whole stream, for every chunking, and through the 180-byte messages.

**RC switch** (`RcSwitch`). The classifier that is fed its own answer, and the
commands that go out on its edges, down to the numbers sent.

**Tool controller** (`ToolSpec`, `ToolFirmware`, `ToolSafety`, `ToolCommands`,
`ToolFaults`). Six states, two
relay outputs written one pin at a time, sensor flags that interrupts may
change between any two reads, and a 32-bit millisecond clock. Every write is
recorded with the interval of true time in which it happened. The theorems hold
for every interleaving of commands and control updates, a superset of what the
loop can produce, and start after the outputs were first forced off. They bound
when an output may be driven, and tie every drive to the command that ordered it
and every fault code to what was found.

## Where the code departs from its comments and documentation

The model follows the code.

- `frame.cpp` keeps a dangling escape "so checksum fails"; the checksum passes
  when its high byte is 0x7D (`BridgeFrame.LostTrailerByte`).
- `readFrame` in `hil_serial.cpp` uses delimiters up in pairs. Behind an odd
  number of them, as when it starts inside a frame, it takes every END for a
  header and returns empty frames as long as no further stray delimiter arrives
  (`Segments.DeliversByParity`, `Segments.DeliversIffEven`, `Segments.MidFrameStart`).
- The bridge's README describes low PWM as DOWN with an 80 us hysteresis band by
  default and inversion as an option. `invert_switch` is true by default, no
  option clears it, and with it both the mapping and the effect of the band are
  reversed (`RcSwitch.MappingIff`, `RcSwitch.HysteresisIff`, `RcSwitch.DefaultDeparts`).
- Section 14 of the tool's README ties a fault code to `STATUS_FAULT` until
  `CMD_RESET_FAULT`. `CMD_STOP` also leaves FAULT and keeps the code
  (`ToolSafety.StopLeavesStaleCode`).
- The tool's README lists an overcurrent limit of 1.2 A; the code has 1.5 A and,
  with the measurement commented out, never reports overcurrent
  (`ToolSafety.FaultsOfRuns`).

## Model

| member | source | states |
|---|---|---|
| `Bytes.FlipIsXor` | Raspberry/Tool_Raspbarry_base/src/frame.cpp:70 | The arithmetic `Flip` used everywhere is xor with 0x20 on all 256 bytes |
| `Fletcher.Checksum` | Raspberry/Tool_Raspbarry_base/src/frame.cpp:226-241 | The loop over a whole array leaves the plain sum of the bytes mod 255 in the low byte of its result and the sum weighted n - i mod 255 in the high byte |
| `Fletcher.ClosedForm` | Raspberry/Tool_Raspbarry_base/src/frame.cpp:234-238 | For every length the two sums are the plain sum and the sum weighted n - i, both mod 255 |
| `Fletcher.OneByteError` | Raspberry/Tool_Raspbarry_base/src/frame.cpp:226-241 | Replacing one byte is missed exactly when old and new agree mod 255 |
| `Fletcher.TwoByteError` | Raspberry/Tool_Raspbarry_base/src/frame.cpp:226-241 | Replacing two bytes is missed exactly when the changes cancel mod 255 and the distance annihilates the change |
| `Fletcher.TwoByteErrorDetected` | Raspberry/Tool_Raspbarry_base/src/frame.cpp:226-241 | At a distance coprime to 255 every real two-byte change is detected, at every length |
| `HilCodec.UnstuffStuffed` | Raspberry/Tool_Raspbarry_base/src/frame.cpp:60-108 | Unstuffing recovers a stuffed message and carries on behind it, for every setting of header, end and escape |
| `HilCodec.UnstuffUndoesStuff` | Raspberry/Tool_Raspbarry_base/src/frame.cpp:60-108 | Unstuff is a left inverse of Stuff for every setting |
| `HilCodec.StuffedIsDelimiterFree` | Raspberry/Tool_Raspbarry_base/src/frame.cpp:60-79 | With transparent marks no stuffed message contains header or end |
| `HilCodec.TransparentIff` | Raspberry/Tool_Raspbarry_base/src/frame.cpp:60-79 | Stuffed output avoids header and end for every message exactly when escape, escape ^ 0x20, header ^ 0x20 and end ^ 0x20 all avoid both |
| `HilCodec.TrailerBytes` | Tool_firmware/Simple_firmware/simple_firmware/HilFrameArduino.h:254-266 | The two trailer bytes are the plain sum of the payload and then its weighted sum, both mod 255 |
| `HilCodec.ByteOnTheLine` | Tool_firmware/Simple_firmware/simple_firmware/HilFrameArduino.h:403-410 | Every byte of payload and trailer but 0x7E and 0x7D goes out as it is, these as 7D 5E and 7D 5D, wherever they stand |
| `HilCodec.FrameOnTheLine` | Raspberry/RC_Tool_Radio_Bridge/src/hil_frame.cpp:36-55 | A frame is 0x7E, payload, plain sum, weighted sum and 0x7E, with nothing else but the escapes |
| `HilCodec.VerifyInverse` | Raspberry/RC_Tool_Radio_Bridge/src/hil_frame.cpp:81-92 | Only payload plus its own trailer verifies |
| `HilCodec.EncodeInjective` | Raspberry/Tool_Raspbarry_base/src/frame.cpp:349-373 | Different payloads have different encodings |
| `HilCodec.CorruptedPayloadRejected` | Tool_firmware/Simple_firmware/simple_firmware/HilFrameArduino.h:356-367 | A changed payload byte is rejected under the sent trailer unless 0x00 and 0xFF were exchanged |
| `ArduinoFrame.HilFrameArduino.constructor` | Tool_firmware/Simple_firmware/simple_firmware/HilFrameArduino.h:32-35 | A new frame is empty |
| `ArduinoFrame.HilFrameArduino.SetData` | Tool_firmware/Simple_firmware/simple_firmware/HilFrameArduino.h:69-86 | Replaces the payload if it fits and changes nothing otherwise |
| `Integers.LittleEndianRoundTrip` | Tool_firmware/Simple_firmware/simple_firmware/HilFrameArduino.h:98-121 | A value that fits n bytes is read back from them, lowest first |
| `Integers.FromLittleEndianRoundTrip` | Tool_firmware/Simple_firmware/simple_firmware/HilFrameArduino.h:167-194 | Bytes that are read as a value are written back |
| `Integers.TypedFieldsRoundTrip` | Tool_firmware/Simple_firmware/simple_firmware/HilFrameArduino.h:98-194 | A 16-bit and a signed 32-bit field are returned by the matching getters at their place, whatever stands around them |
| `ArduinoFrame.HilFrameArduino.AddBytes` | Tool_firmware/Simple_firmware/simple_firmware/HilFrameArduino.h:139-155 | Appends all the bytes, or none if they do not fit |
| `ArduinoFrame.HilFrameArduino.AddUInt16` | Tool_firmware/Simple_firmware/simple_firmware/HilFrameArduino.h:98-107 | Appends the two bytes, lowest first, or nothing |
| `ArduinoFrame.HilFrameArduino.AddInt32` | Tool_firmware/Simple_firmware/simple_firmware/HilFrameArduino.h:109-121 | Appends the four bytes of the two's complement, lowest first, or nothing |
| `ArduinoFrame.HilFrameArduino.GetBytes` | Tool_firmware/Simple_firmware/simple_firmware/HilFrameArduino.h:157-165 | Takes the next n bytes at the read cursor, or nothing if fewer are left |
| `ArduinoFrame.HilFrameArduino.GetUInt16` | Tool_firmware/Simple_firmware/simple_firmware/HilFrameArduino.h:167-178 | The value of the next two bytes, lowest first, or nothing |
| `ArduinoFrame.HilFrameArduino.GetInt32` | Tool_firmware/Simple_firmware/simple_firmware/HilFrameArduino.h:180-194 | The signed value of the next four bytes, lowest first, or nothing |
| `ArduinoFrame.HilFrameArduino.AppendTxRaw` | Tool_firmware/Simple_firmware/simple_firmware/HilFrameArduino.h:393-401 | One byte appended to the transmit buffer, unless it is full |
| `ArduinoFrame.HilFrameArduino.AppendEscaped` | Tool_firmware/Simple_firmware/simple_firmware/HilFrameArduino.h:403-410 | One byte appended stuffed |
| `ArduinoFrame.HilFrameArduino.AppendTrailer` | Tool_firmware/Simple_firmware/simple_firmware/HilFrameArduino.h:254-266 | The stuffed checksum, low byte first, and the END |
| `ArduinoFrame.HilFrameArduino.Build` | Tool_firmware/Simple_firmware/simple_firmware/HilFrameArduino.h:236-267 | Fails on the empty payload only; otherwise the transmit buffer holds exactly the encoding and MAX_ENCODED is never hit |
| `ArduinoFrame.HilFrameArduino.CloseFrame` | Tool_firmware/Simple_firmware/simple_firmware/HilFrameArduino.h:332-376 | At an END the payload is kept exactly when the trailer verifies |
| `ArduinoFrame.HilFrameArduino.ReadFrom` | Tool_firmware/Simple_firmware/simple_firmware/HilFrameArduino.h:280-390 | One call equals the decoder machine run on the bytes that arrive in time: same verdict, same payload, same bytes consumed, all array accesses in bounds |
| `Receivers.ReceiveIsFirst` | Tool_firmware/Simple_firmware/simple_firmware/HilFrameArduino.h:291-386 | A call returns the first frame that comes out, at the very byte that completes it, or ends in the state where the bytes ran out |
| `Receivers.Advance` | Tool_firmware/Simple_firmware/simple_firmware/HilFrameArduino.h:291-386 | One more byte of a call: it goes on in the next state, or returns a frame with exactly the bytes so far consumed |
| `Receivers.FeedIsReceive` | Tool_firmware/Simple_firmware/simple_firmware/HilFrameArduino.h:280-390 | One call is the first part of an uninterrupted run of the machine, and the run goes on from outside a frame |
| `Receivers.SessionIsFeed` | Tool_firmware/Simple_firmware/simple_firmware/HilFrameArduino.h:280-390 | As long as no deadline passes, calling a reader again and again is one uninterrupted run of its machine |
| `Receivers.FeedConcat` | Tool_firmware/Simple_firmware/simple_firmware/HilFrameArduino.h:291-386 | Feeding a stream in two parts is feeding it at once |
| `StreamDecoder.FeedKeepsLegal` | Tool_firmware/Simple_firmware/simple_firmware/HilFrameArduino.h:314-385 | On any input the decoded buffer never holds more than MAX_PAYLOAD + 2 bytes |
| `StreamDecoder.FeedStuffed` | Tool_firmware/Simple_firmware/simple_firmware/HilFrameArduino.h:314-385 | Over a stuffed body the decoder collects exactly the bytes that were stuffed, or gives the frame up for lack of room |
| `StreamDecoder.FramesRoundTrip` | Tool_firmware/Simple_firmware/simple_firmware/HilFrameArduino.h:236-390 | Frames sent back to back come out exactly, in order, from either synchronised state |
| `StreamDecoder.SessionRoundTrip` | Tool_firmware/Simple_firmware/simple_firmware/HilFrameArduino.h:280-410 | Successive calls return exactly the list of payloads that was sent |
| `StreamDecoder.FeedFrameAnywhere` | Tool_firmware/Simple_firmware/simple_firmware/HilFrameArduino.h:291-386 | What one frame yields from every reachable decoder state, and that it always leaves the decoder synchronised |
| `StreamDecoder.Resynchronise` | Tool_firmware/Simple_firmware/simple_firmware/HilFrameArduino.h:291-386 | From any state one frame suffices: at most one payload comes out during it, and all later frames come out untouched |
| `StreamDecoder.NoiseCostsAtMostOneFrame` | Tool_firmware/Simple_firmware/simple_firmware/HilFrameArduino.h:280-390 | Arbitrary noise, a dangling escape or an overflow included, costs at most the first frame behind it |
| `StreamDecoder.FirstFrameLostIff` | Tool_firmware/Simple_firmware/simple_firmware/HilFrameArduino.h:314-367 | The first frame is lost exactly when the noise ends in a dangling escape or in an unfinished frame that verifies to something else |
| `StreamDecoder.StreamAgreesWithBatch` | Tool_firmware/Simple_firmware/simple_firmware/HilFrameArduino.h:280-390 | On a delimited body the streaming decoder accepts exactly what strict batch decoding does within its capacity |
| `Deadlines.ListenIsSessions` | Tool_firmware/Simple_firmware/simple_firmware/HilFrameArduino.h:291-389 | Calls that run out of time return what the calls within each window return on their own |
| `Deadlines.DeadlinesLoseOnlyWhatTheyCut` | Tool_firmware/Simple_firmware/simple_firmware/HilFrameArduino.h:280-390 | Frames sent back to back with deadlines anywhere: exactly the frames are lost inside of which a deadline passes, for the streaming decoder and for both deframers that skip empty frames |
| `Noise.SessionReadsNoise` | Tool_firmware/Simple_firmware/simple_firmware/HilFrameArduino.h:291-386 | What the streaming decoder returns and where it ends, on any stream, read off the runs between the delimiters |
| `Noise.FirstFrameLostBehindNoise` | Tool_firmware/Simple_firmware/simple_firmware/HilFrameArduino.h:314-367 | The first frame behind noise is lost exactly if the noise, so read, ends in an unfinished frame with a dangling escape or one that verifies to something else |
| `FrameClass.EscapedCopy` | Raspberry/Tool_Raspbarry_base/src/frame.cpp:60-79 | The loop computes the stuffed copy |
| `FrameClass.UnescapedCopy` | Raspberry/Tool_Raspbarry_base/src/frame.cpp:81-108 | The loop computes the unstuffed copy with a dangling escape kept as data |
| `FrameClass.Frame.constructor` | Raspberry/Tool_Raspbarry_base/src/frame.cpp:111-120 | Default marks 7E, 7E, 7D and an empty frame |
| `FrameClass.Frame.Build` | Raspberry/Tool_Raspbarry_base/src/frame.cpp:349-373 | The buffer becomes the encoding under the frame's own marks; an empty payload leaves it empty and incomplete |
| `FrameClass.Frame.Check` | Raspberry/Tool_Raspbarry_base/src/frame.cpp:337-341 | The status is whether the stored checksum is that of the payload |
| `FrameClass.Frame.Unbuild` | Raspberry/Tool_Raspbarry_base/src/frame.cpp:375-403 | True exactly when the buffer decodes, with that payload; a shapeless buffer leaves payload and checksum alone |
| `FrameClass.BuildThenUnbuild` | Raspberry/Tool_Raspbarry_base/src/frame.cpp:349-403 | unbuild restores what build encoded, for every payload and every setting of the marks |
| `BridgeFrame.HilFrame.AppendEscaped` | Raspberry/RC_Tool_Radio_Bridge/src/hil_frame.cpp:152-162 | One byte appended stuffed |
| `BridgeFrame.HilFrame.Build` | Raspberry/RC_Tool_Radio_Bridge/src/hil_frame.cpp:36-55 | Fails on the empty payload, changing nothing; otherwise the buffer is the encoding |
| `BridgeFrame.HilFrame.DecodeFromBytes` | Raspberry/RC_Tool_Radio_Bridge/src/hil_frame.cpp:57-95 | True exactly when the body decodes strictly, with that payload; otherwise nothing changes |
| `BridgeFrame.BridgeRoundTrip` | Raspberry/RC_Tool_Radio_Bridge/src/hil_frame.cpp:36-95 | The body of an encoded payload decodes to that payload |
| `BridgeFrame.FrameAgainstHilFrame` | Raspberry/Tool_Raspbarry_base/src/frame.cpp:81-108 | unbuild on 7E b 7E and decodeFromBytes on b agree on every body except exactly on those where a dangling 0x7D passes for the high checksum byte; there only Frame accepts |
| `BridgeFrame.LostTrailerByte` | Raspberry/Tool_Raspbarry_base/src/frame.cpp:91-95 | Losing the last byte of any frame whose high checksum byte is 0x7D goes unseen by Frame, against its comment, and is seen by HilFrame |
| `BridgeFrame.LostTrailerByteWitness` | Raspberry/Tool_Raspbarry_base/src/frame.cpp:91-95 | Such a payload exists |
| `Deframers.ReadFrame` | Raspberry/Tool_Raspbarry_base/src/hil_serial.cpp:39-80 | One call equals the blocking deframer machine: result, frame buffer, bytes consumed |
| `Deframers.ReadFrameTimed` | Raspberry/Tool_Raspbarry_base/src/hil_serial.cpp:83-153 | One call equals the deframer machine that takes an empty frame for the next header |
| `Deframers.ReadBody` | Raspberry/RC_Tool_Radio_Bridge/src/serial_port.cpp:97-159 | One call equals the deframer machine with the 256-byte cap, partial output on a timeout included |
| `Deframers.FeedEncoded` | Raspberry/Tool_Raspbarry_base/src/hil_serial.cpp:112-152 | What one encoded frame yields from every state of every deframer |
| `Deframers.FeedFrames` | Raspberry/Tool_Raspbarry_base/src/hil_serial.cpp:112-152 | Back to back frames: every body that fits, in order |
| `Deframers.NoiseCostsAtMostOneFrame` | Raspberry/RC_Tool_Radio_Bridge/src/serial_port.cpp:108-158 | Arbitrary noise costs the readers that skip empty frames at most the first frame behind it |
| `Segments.CutMeans` | Raspberry/Tool_Raspbarry_base/src/hil_serial.cpp:53-79 | A stream is its delimiter-free runs, put together again with delimiters |
| `Segments.FeedReadsRuns` | Raspberry/Tool_Raspbarry_base/src/hil_serial.cpp:112-152 | What every deframer returns and where it ends, from any state on any stream, read off the runs between the delimiters |
| `Segments.SessionReadsRuns` | Raspberry/Tool_Raspbarry_base/src/hil_serial.cpp:39-153 | The frames of a whole session, for every deframer and every stream |
| `Segments.Aligned` | Raspberry/Tool_Raspbarry_base/src/hil_serial.cpp:39-80 | Started between frames, readFrame returns every frame, in order |
| `Segments.StaysShifted` | Raspberry/Tool_Raspbarry_base/src/hil_serial.cpp:53-79 | Started on an END, readFrame returns what it held and then an empty frame per frame sent, for every number of frames |
| `Segments.DeliversByParity` | Raspberry/Tool_Raspbarry_base/src/hil_serial.cpp:39-80 | Behind arbitrary bytes readFrame returns all frames if those bytes hold an even number of delimiters, and otherwise what it held and empty frames |
| `Segments.DeliversIffEven` | Raspberry/Tool_Raspbarry_base/src/hil_serial.cpp:39-80 | The exact condition for all frames to be returned, for every noise and every list of frames |
| `Segments.MidFrameStart` | Raspberry/Tool_Raspbarry_base/src/hil_serial.cpp:39-153 | Started inside a frame, readFrameTimed delivers the next n frames and readFrame n empty ones, none of which unbuild accepts; one more stray delimiter realigns it |
| `OtherMarks.StateAfterNoise` | Raspberry/Tool_Raspbarry_base/src/hil_serial.cpp:53-79 | With a header that differs from the END, where readFrame ends on any stream: in the bytes behind the first header behind the last END |
| `OtherMarks.NoiseCostsAtMostOneFrame` | Raspberry/Tool_Raspbarry_base/src/hil_serial.cpp:39-80 | With such marks, if they are transparent, noise costs readFrame at most the first frame, which is then returned as the end of the unfinished one |
| `Interop.SendAndReceive` | Tool_firmware/Simple_firmware/simple_firmware/HilFrameArduino.h:236-390 | One frame object sends any list of payloads, another reads it by repeated calls: the list arrives |
| `Interop.EncodeThreeWays` | Raspberry/RC_Tool_Radio_Bridge/src/hil_frame.cpp:36-55 | The three encoders emit identical bytes |
| `Interop.AllReceiversRecover` | Raspberry/RC_Tool_Radio_Bridge/src/serial_port.cpp:97-159 | Payloads of up to 126 bytes sent back to back are recovered by all four receiving paths |
| `Interop.CapLosesIff` | Raspberry/RC_Tool_Radio_Bridge/src/serial_port.cpp:151-157 | The bridge loses a frame exactly when its stuffed body exceeds 256 bytes |
| `Crc.CrcCalculate` | Raspberry/RC_Tool_Radio_Bridge/src/mavlink_minimal.cpp:169-175 | The loop folds every byte into 0xFFFF and returns what computing bit by bit does |
| `Crc.ShiftFormIsBitwise` | Raspberry/RC_Tool_Radio_Bridge/src/mavlink_minimal.cpp:177-183 | One update in shift form equals eight steps of the reflected polynomial 0x8408 |
| `Crc.CrcIsBitwise` | Raspberry/RC_Tool_Radio_Bridge/src/mavlink_minimal.cpp:169-183 | The same for messages of every length and every start value |
| `Crc.JoinIsWord` | Raspberry/RC_Tool_Radio_Bridge/src/mavlink_minimal.cpp:228-229 | Two bytes read as a word: the first counts ones, the second 256s |
| `Crc.StepIsBijection` | Raspberry/RC_Tool_Radio_Bridge/src/mavlink_minimal.cpp:177-183 | For each byte the update is a bijection of the 65536 checksums, with an explicit inverse |
| `Crc.StepInjectiveInByte` | Raspberry/RC_Tool_Radio_Bridge/src/mavlink_minimal.cpp:177-183 | From one checksum different bytes lead to different checksums |
| `Crc.PairInjective` | Raspberry/RC_Tool_Radio_Bridge/src/mavlink_minimal.cpp:177-183 | So do different pairs of bytes |
| `Crc.OneByteChangeSeen` | Raspberry/RC_Tool_Radio_Bridge/src/mavlink_minimal.cpp:169-183 | Any change of one byte changes the checksum, at every length |
| `Bursts.SerialAtOnce` | Raspberry/RC_Tool_Radio_Bridge/src/mavlink_minimal.cpp:177-183 | Up to 16 bits fed one at a time are the same as all of them added at once |
| `Bursts.CrcIsSerial` | Raspberry/RC_Tool_Radio_Bridge/src/mavlink_minimal.cpp:169-183 | The checksum of a message is what its bits lead to, one at a time |
| `Bursts.BurstSeen` | Raspberry/RC_Tool_Radio_Bridge/src/mavlink_minimal.cpp:169-183 | Any change confined to 16 consecutive bits, aligned or not, changes the checksum, at every length |
| `Bursts.TwoByteBurstSeen` | Raspberry/RC_Tool_Radio_Bridge/src/mavlink_minimal.cpp:169-183 | In particular any change within two adjacent bytes |
| `Differences.CrcDifference` | Raspberry/RC_Tool_Radio_Bridge/src/mavlink_minimal.cpp:169-183 | The checksums of two messages of one length differ by the checksum of their difference alone |
| `Differences.OneByteDifference` | Raspberry/RC_Tool_Radio_Bridge/src/mavlink_minimal.cpp:169-183 | One changed byte moves the checksum by its difference, taken eight bits further for itself and for every byte behind it |
| `IdChanges.CancelsIff` | Raspberry/RC_Tool_Radio_Bridge/src/mavlink_minimal.cpp:185-193 | When a changed id byte moves the checksum by as much as an exchange of extra bytes: at 134 and at 25 bytes behind it only, for one difference each |
| `SplitBursts.BurstUnseenIff` | Raspberry/RC_Tool_Radio_Bridge/src/mavlink_minimal.cpp:228-234 | Every burst of up to 16 bits over covered bytes and checksum is seen, except exactly seven patterns across the boundary |
| `Mavlink.ParseV1Frame` | Raspberry/RC_Tool_Radio_Bridge/src/mavlink_minimal.cpp:217-241 | Accepts exactly the valid version 1 frames, with all reads in bounds |
| `Mavlink.ParseV2Frame` | Raspberry/RC_Tool_Radio_Bridge/src/mavlink_minimal.cpp:243-272 | The same for version 2, signed frames included; what an accepted frame yields is pinned by `Mavlink.V2RoundTrip` and `Mavlink.V2Inverse` |
| `Mavlink.ParseDatagram` | Raspberry/RC_Tool_Radio_Bridge/src/mavlink_minimal.cpp:195-215 | Fails exactly when no offset starts a valid frame, otherwise returns the leftmost one |
| `Mavlink.Endpoint.BuildSetMessageInterval` | Raspberry/RC_Tool_Radio_Bridge/src/mavlink_minimal.cpp:123-153 | The request byte by byte, from 0xFE, 33 and the sequence number over the two parameters, command 511 and the target to the checksum; the sequence number advances by one and wraps |
| `Mavlink.V1RoundTrip` | Raspberry/RC_Tool_Radio_Bridge/src/mavlink_minimal.cpp:140-153 | Every encoded frame parses back to its fields, whatever follows it |
| `Mavlink.V1Inverse` | Raspberry/RC_Tool_Radio_Bridge/src/mavlink_minimal.cpp:217-241 | Nothing else is accepted: what parses as version 1 starts with the encoding of exactly what comes out |
| `Mavlink.V2RoundTrip` | Raspberry/RC_Tool_Radio_Bridge/src/mavlink_minimal.cpp:243-272 | Every version 2 frame, signed or not, parses back to its 24-bit id, system, component and payload, whatever follows it |
| `Mavlink.V2Inverse` | Raspberry/RC_Tool_Radio_Bridge/src/mavlink_minimal.cpp:243-272 | Nothing else is accepted: what parses as version 2 starts with the encoding of exactly what comes out, an announced signature included |
| `Mavlink.RequestLayout` | Raspberry/RC_Tool_Radio_Bridge/src/mavlink_minimal.cpp:112-153 | Where every field of the request stands in its 41 bytes |
| `Mavlink.RequestRoundTrip` | Raspberry/RC_Tool_Radio_Bridge/src/mavlink_minimal.cpp:112-153 | The request parses back to id 76, system 255, component 190 and the same 33 bytes at any offset; the scanner returns it when no earlier offset validates |
| `MavlinkErrors.V1AcceptedIff` | Raspberry/RC_Tool_Radio_Bridge/src/mavlink_minimal.cpp:217-241 | A valid version 1 frame changed anywhere but in start and length is accepted exactly if the computed checksum changes as the received one does |
| `MavlinkErrors.V2AcceptedIff` | Raspberry/RC_Tool_Radio_Bridge/src/mavlink_minimal.cpp:243-272 | The same for version 2, if a signature that the flags announce is there |
| `MavlinkErrors.V1DetectsOneByte` | Raspberry/RC_Tool_Radio_Bridge/src/mavlink_minimal.cpp:217-241 | Any one changed byte but the length is detected, except exactly id 65 for 158 or back at length 134 and id 76 for 226 or back at length 25 |
| `MavlinkErrors.V2DetectsOneByte` | Raspberry/RC_Tool_Radio_Bridge/src/mavlink_minimal.cpp:243-272 | Any one changed byte but the length is detected, except exactly an id byte that moves the checksum by as much as the extra byte changes |
| `MavlinkErrors.V1DetectsStretch` | Raspberry/RC_Tool_Radio_Bridge/src/mavlink_minimal.cpp:217-241 | For any changed stretch of covered bytes behind the length, the id included, the exact condition to be missed |
| `MavlinkErrors.V2DetectsStretch` | Raspberry/RC_Tool_Radio_Bridge/src/mavlink_minimal.cpp:243-272 | The same for version 2, whose id has three bytes |
| `MavlinkErrors.V1DetectsBits` | Raspberry/RC_Tool_Radio_Bridge/src/mavlink_minimal.cpp:217-241 | Any burst of up to 16 bits over covered bytes and checksum that keeps length and extra byte is detected, except exactly the seven patterns |
| `MavlinkErrors.V2DetectsBits` | Raspberry/RC_Tool_Radio_Bridge/src/mavlink_minimal.cpp:243-272 | The same for version 2 |
| `MavlinkErrors.BlindBurstWitness` | Raspberry/RC_Tool_Radio_Bridge/src/mavlink_minimal.cpp:217-241 | Two valid frames that differ in 14 consecutive bits only |
| `MavlinkErrors.V1DetectsBurst` | Raspberry/RC_Tool_Radio_Bridge/src/mavlink_minimal.cpp:217-241 | In particular two adjacent covered bytes, length and id apart |
| `Mavlink.ExtractReadsChannel` | Raspberry/RC_Tool_Radio_Bridge/src/mavlink_minimal.cpp:302-321 | From a payload cut short anywhere, the time stamp included, exactly the channels that arrived whole and are in use are read, each with its own value |
| `Mavlink.ChannelThroughDatagram` | Raspberry/RC_Tool_Radio_Bridge/src/mavlink_minimal.cpp:195-321 | From a version 2 RC_CHANNELS frame inside a datagram to the switch: a channel reads the value that was sent for it, if it arrived whole and is in use |
| `Rtcm.Find` | Raspberry/RTK_infrastructure/sniff_rtcm_udp_m.py:22 | The index of the first preamble, or -1 if there is none |
| `Rtcm.Sniffer.ParseFrames` | Raspberry/RTK_infrastructure/sniff_rtcm_udp_m.py:18-53 | One call: the typed frames counted, the counters, and the bytes left in the buffer; which numbers these are is pinned by `Rtcm.EncodedIsOneFrame` |
| `Rtcm.Sniffer.OnMessage` | Raspberry/RTK_infrastructure/sniff_rtcm_udp_m.py:78-83 | One message extends the buffer by its trimmed data and parses |
| `Rtcm.Sniffer.Listen` | Raspberry/RTK_infrastructure/sniff_rtcm_udp_m.py:76-83 | The main loop between two reports, over any list of messages: frames, counters and buffer are those of parsing online |
| `Rtcm.Sniffer.ListenAndReport` | Raspberry/RTK_infrastructure/sniff_rtcm_udp_m.py:76-99 | The main loop with the reports that start the counters afresh: reports and running counters together account for every frame and message number exactly once |
| `Rtcm.ParseResumes` | Raspberry/RTK_infrastructure/sniff_rtcm_udp_m.py:18-53 | Parsing on with what a call left behind yields exactly the remaining frames; the trim to 1024 bytes loses none |
| `Rtcm.ChunkInvariance` | Raspberry/RTK_infrastructure/sniff_rtcm_udp_m.py:76-83 | However the stream is cut, the frames are those of one call on the whole stream, in order |
| `Rtcm.BufferBounded` | Raspberry/RTK_infrastructure/sniff_rtcm_udp_m.py:25-32 | What one call leaves is at most 8192 bytes and the end of what it was given |
| `Rtcm.GarbageShrinks` | Raspberry/RTK_infrastructure/sniff_rtcm_udp_m.py:24-29 | Bytes without a preamble stay, but of more than 8192 of them only the last 1024 |
| `Rtcm.OnlineBounded` | Raspberry/RTK_infrastructure/sniff_rtcm_udp_m.py:76-83 | However the stream is cut, the retained buffer is at most 8192 bytes and the end of the whole stream |
| `Rtcm.EncodedIsOneFrame` | Raspberry/RTK_infrastructure/sniff_rtcm_udp_m.py:7-16 | A frame as a sender makes it is one whole frame to the parser, and is read back with the 12-bit message number the sender gave it, or with none if it has less than two payload bytes |
| `Rtcm.CleanStream` | Raspberry/RTK_infrastructure/sniff_rtcm_udp_m.py:35-51 | A stream of well-formed frames is recovered frame by frame, nothing is left over, and no payload byte passes for a preamble |
| `Rtcm.TrimUndoesInject` | Raspberry/RTK_infrastructure/rtcm_injector.py:13-22 | Padding to 180 and trimming to the length restores every block |
| `Rtcm.EndToEnd` | Raspberry/RTK_infrastructure/rtcm_injector.py:13-23 | From the radio link to the counters: any blocking of a clean stream yields exactly its frames that carry a message and counts each message number as often as the sender gave it |
| `RcSwitch.Bridge.constructor` | Raspberry/RC_Tool_Radio_Bridge/src/rc_tool_radio_bridge.cpp:514-520 | One UP goes out before the switch is read |
| `RcSwitch.Bridge.OnSample` | Raspberry/RC_Tool_Radio_Bridge/src/rc_tool_radio_bridge.cpp:543-578 | The first sample only sets the position; later ones send the command of an edge, and a status request if so configured; the numbers are those of `RcSwitch.CommandsFollowThePosition` |
| `RcSwitch.Bridge.OnMessage` | Raspberry/RC_Tool_Radio_Bridge/src/rc_tool_radio_bridge.cpp:539-578 | Messages without a usable pulse width change nothing |
| `RcSwitch.Bridge.Listen` | Raspberry/RC_Tool_Radio_Bridge/src/rc_tool_radio_bridge.cpp:535-578 | The main loop over any list of messages: the commands sent are those of the edges of the usable pulse widths |
| `RcSwitch.EdgesAlternate` | Raspberry/RC_Tool_Radio_Bridge/src/rc_tool_radio_bridge.cpp:543-575 | For every setting and every signal the edge commands alternate |
| `RcSwitch.CommandsFollowThePosition` | Raspberry/RC_Tool_Radio_Bridge/src/rc_tool_radio_bridge.cpp:574-578 | What goes out, in numbers: 1 and 2 in turn, each followed by 3 exactly if so configured; the last one is 1 exactly if the position is UP and 2 exactly if it is DOWN |
| `RcSwitch.PositionIs` | Raspberry/RC_Tool_Radio_Bridge/src/rc_tool_radio_bridge.cpp:329-360 | The position after any samples: the last one at or beyond an edge of the band says it, or the very first; those behind it leave it alone or turn it over one by one, with the exact condition |
| `RcSwitch.ThrowSends` | Raspberry/RC_Tool_Radio_Bridge/src/rc_tool_radio_bridge.cpp:335-578 | A throw of the switch across the band sends 1 on the way up and 2 on the way down, the other way round with inversion, and 3 behind it if so configured |
| `RcSwitch.EdgesCostMovement` | Raspberry/RC_Tool_Radio_Bridge/src/rc_tool_radio_bridge.cpp:335-351 | Without inversion every edge is paid for by movement across the whole band |
| `RcSwitch.HysteresisHolds` | Raspberry/RC_Tool_Radio_Bridge/src/rc_tool_radio_bridge.cpp:329-360 | Without inversion k edge commands need a movement of at least (2k - 1) times the hysteresis |
| `RcSwitch.InvertedFlipsInBand` | Raspberry/RC_Tool_Radio_Bridge/src/rc_tool_radio_bridge.cpp:335-359 | With inversion every sample inside the band changes the position |
| `RcSwitch.ConstantInput` | Raspberry/RC_Tool_Radio_Bridge/src/rc_tool_radio_bridge.cpp:543-575 | A constant pulse width sends a command on every sample or on none, with the exact condition |
| `RcSwitch.HysteresisIff` | Raspberry/RC_Tool_Radio_Bridge/src/rc_tool_radio_bridge.cpp:329-360 | The documented price of edge commands is paid on every signal of pulse widths that can be received exactly without inversion, without a band, or with the band out of reach |
| `RcSwitch.MappingIff` | Raspberry/RC_Tool_Radio_Bridge/src/rc_tool_radio_bridge.cpp:329-360 | The documented mapping of the receivable pulse widths outside the band holds, whatever the position was, exactly without inversion; with it every one is mapped the other way |
| `RcSwitch.DefaultDeparts` | Raspberry/RC_Tool_Radio_Bridge/src/rc_tool_radio_bridge.cpp:55-58 | The default setting maps every width the opposite way and sends a command per sample exactly within 80 us of the centre |
| `ToolFirmware.Controller.constructor` | Tool_firmware/Test/Tool_firmware/Tool_firmware.ino:129-134 | The state after setup has forced both relays off |
| `ToolFirmware.Controller.ForceBothRelaysOff` | Tool_firmware/Test/Tool_firmware/Tool_firmware.ino:282-286 | Two single writes, UP first |
| `ToolFirmware.Controller.ActivateUpRelaySafely` | Tool_firmware/Test/Tool_firmware/Tool_firmware.ino:299-317 | The sequence of writes, with both fall-backs |
| `ToolFirmware.Controller.ActivateDownRelaySafely` | Tool_firmware/Test/Tool_firmware/Tool_firmware.ino:319-337 | The sequence of writes, with both fall-backs |
| `ToolFirmware.Controller.RaiseFault` | Tool_firmware/Test/Tool_firmware/Tool_firmware.ino:339-348 | Both relays off, the code stored, state FAULT |
| `ToolFirmware.Controller.StartUpTool` | Tool_firmware/Test/Tool_firmware/Tool_firmware.ino:440-474 | The complete new state and the result, for every refusal and for acceptance |
| `ToolFirmware.Controller.StartDownTool` | Tool_firmware/Test/Tool_firmware/Tool_firmware.ino:476-510 | The complete new state and the result, for every refusal and for acceptance |
| `ToolFirmware.Controller.ClearFault` | Tool_firmware/Test/Tool_firmware/Tool_firmware.ino:512-521 | Both relays off, no code, state IDLE |
| `ToolFirmware.Controller.UpdateTool` | Tool_firmware/Test/Tool_firmware/Tool_firmware.ino:527-608 | One control update is the specified transition, writes included, for all values read |
| `ToolFirmware.Controller.ProcessCommandFrame` | Tool_firmware/Test/Tool_firmware/Tool_firmware.ino:645-708 | One command frame is the specified transition and response; what each code does is stated by `ToolCommands.RaisedByOrder`, `ToolCommands.OrderMoves`, `ToolCommands.CommandsWithoutMovement` and `ToolCommands.MovementAnswers` |
| `ToolFirmware.Controller.Loop` | Tool_firmware/Test/Tool_firmware/Tool_firmware.ino:756-766 | Any sequence of command frames and control updates takes the globals, the pins and the write history where the specified run leads |
| `ToolSafety.StepKeepsSound` | Tool_firmware/Test/Tool_firmware/Tool_firmware.ino:440-608 | Every command and update keeps outputs and state coupled, the current at zero, the timeout at 5000 ms |
| `ToolSafety.FlagsMean` | Tool_firmware/Test/Tool_firmware/Tool_firmware.ino:282-337 | The observer's flags are statements about every single write |
| `ToolSafety.OffPhaseMeans` | Tool_firmware/Test/Tool_firmware/Tool_firmware.ino:282-286 | An off phase is a run of writes that all leave both outputs off |
| `ToolSafety.OnPhaseMeans` | Tool_firmware/Test/Tool_firmware/Tool_firmware.ino:299-337 | An on phase is a run of writes none of which leaves both outputs off |
| `ToolSafety.StepObserved` | Tool_firmware/Test/Tool_firmware/Tool_firmware.ino:440-608 | Every event leaves the outputs alone, releases them, or energises one at the end of its preparation |
| `ToolSafety.Interlock` | Tool_firmware/Test/Tool_firmware/Tool_firmware.ino:282-337 | In every run, for arbitrary read-backs, no single write leaves both outputs on, and between events an output is on in its own movement only |
| `ToolSafety.ElapsedIsTrueTime` | Tool_firmware/Test/Tool_firmware/Tool_firmware.ino:547 | A wrapped millis() difference is the true one mod 2^32 and never overstates it |
| `ToolSafety.DeadTime` | Tool_firmware/Test/Tool_firmware/Tool_firmware.ino:546-559 | In every run each energising write follows at least 100 ms of true time with both outputs off, across clock wraps |
| `ToolSafety.OnTime` | Tool_firmware/Test/Tool_firmware/Tool_firmware.ino:561-572 | With updates at most `gap` apart and 5000 + gap <= 2^32 a movement is younger than 5000 ms at every update and off once an update finds it due, before 5000 + gap, whatever commands arrive |
| `ToolSafety.OnTimeNeedsTheBound` | Tool_firmware/Test/Tool_firmware/Tool_firmware.ino:567 | For every larger gap a run with faithful read-backs keeps the relay on for 2^32 ms |
| `ToolSafety.RunAtLimit` | Tool_firmware/Test/Tool_firmware/Tool_firmware.ino:457-462 | With the limit held, activations plus a pending preparation never increase |
| `ToolSafety.LimitHeld` | Tool_firmware/Test/Tool_firmware/Tool_firmware.ino:546-602 | With one limit held and the other inactive, at most one more activation of that side, only if it was pending, ended for good by the next update |
| `ToolSafety.StepFromFault` | Tool_firmware/Test/Tool_firmware/Tool_firmware.ino:670-696 | FAULT is left exactly by STOP and RESET_FAULT; a code is cleared exactly by RESET_FAULT |
| `ToolSafety.FaultLatched` | Tool_firmware/Test/Tool_firmware/Tool_firmware.ino:527-608 | The same over whole runs |
| `ToolSafety.CoupledUnlessStopped` | Tool_firmware/Test/Tool_firmware/Tool_firmware.ino:671-676 | Fault code and FAULT state stay coupled exactly unless a STOP finds the tool in FAULT |
| `ToolSafety.RunCoupled` | Tool_firmware/Test/Tool_firmware/Tool_firmware.ino:671-676 | They are coupled after every run without such a STOP |
| `ToolSafety.CoupledThroughoutIff` | Tool_firmware/Test/Tool_firmware/Tool_firmware.ino:671-676 | They stay coupled throughout a run exactly if no STOP ever finds the tool in FAULT |
| `ToolSafety.FaultsOfRuns` | Tool_firmware/Test/Tool_firmware/Tool_firmware.ino:339-348 | In every run FAULT has a code and both outputs off, and no overcurrent is ever reported |
| `ToolSafety.StopLeavesStaleCode` | Tool_firmware/Test/Tool_firmware/Tool_firmware.ino:671-676 | STOP in FAULT leaves a tool that moves again while its status keeps the old code and no longer says FAULT |
| `ToolSafety.StaleCodeWitness` | Tool_firmware/Test/Tool_firmware/Tool_firmware.ino:536-539 | Such a run: a sensor conflict at the first update, then STOP |
| `ToolSafety.MovementStartsIff` | Tool_firmware/Test/Tool_firmware/Tool_firmware.ino:546-559 | With faithful read-backs and no sensor conflict a preparation becomes a movement exactly when the elapsed time mod 2^32 is at least 100 ms |
| `ToolSafety.StatusTellsTheTruth` | Tool_firmware/Test/Tool_firmware/Tool_firmware.ino:367-434 | In every run each public status stands for exactly the states, outputs and sensors it names, fault code and sensors are reported as they are, and asking changes nothing |
| `ToolSafety.NoRelayConflict` | Tool_firmware/Test/Tool_firmware/Tool_firmware.ino:531-534 | A relay conflict is never reported while read-backs equal what was written |
| `ToolCommands.OrderedBy` | Tool_firmware/Test/Tool_firmware/Tool_firmware.ino:440-510 | In every run a tool that moves or prepares to was ordered to by an accepted command and has been on its way ever since |
| `ToolCommands.RaisedByOrder` | Tool_firmware/Test/Tool_firmware/Tool_firmware.ino:645-708 | In every run each write that raises the UP (DOWN) output is made by an update and goes back to an order 1 (2) answered with OK, with no STOP, RESET_FAULT or other accepted movement in between |
| `ToolCommands.OrderMoves` | Tool_firmware/Test/Tool_firmware/Tool_firmware.ino:679-690 | Behind any run that leaves the tool idle an order 1 (2) that the sensors allow is answered with OK, and the first update 100 ms or more later leaves exactly the UP (DOWN) output driven, whatever harmless events come in between |
| `ToolCommands.OthersIgnored` | Tool_firmware/Test/Tool_firmware/Tool_firmware.ino:652-665 | A frame for another device or without a command changes nothing and is not answered |
| `ToolCommands.CommandsWithoutMovement` | Tool_firmware/Test/Tool_firmware/Tool_firmware.ino:670-706 | STOP and RESET_FAULT leave the tool idle with both outputs off from every state; a status request and an unknown code change nothing |
| `ToolCommands.MovementAnswers` | Tool_firmware/Test/Tool_firmware/Tool_firmware.ino:440-510 | Each answer to a movement order is given for exactly one reason, and what each refusal changes |
| `ToolFaults.StepFinds` | Tool_firmware/Test/Tool_firmware/Tool_firmware.ino:527-608 | What an event finds becomes FAULT with its own code, nothing else does, and only RESET_FAULT clears a code |
| `ToolFaults.CodeTells` | Tool_firmware/Test/Tool_firmware/Tool_firmware.ino:527-608 | In every run the fault code shown is that of the latest thing found, with no RESET_FAULT since |
| `ToolFaults.TimeoutIsTrue` | Tool_firmware/Test/Tool_firmware/Tool_firmware.ino:567-569 | In every run a timeout is only found after at least 5000 ms of true time with its own output driven, across clock wraps |
| `ToolFaults.OvercurrentWouldStop` | Tool_firmware/Test/Tool_firmware/Tool_firmware.ino:570-572 | With a measured current a movement would stop above 1.5 A from 50 ms on, with its own code |

## Left out

- Sockets, serial devices, `poll`, Arduino `Stream` and pymavlink: a port is the sequence of bytes it delivers, a deadline the number of bytes that arrive before it, a datagram its bytes.
- The reads of pins, sensor flags and `millis()`: parameters of each step, independent of one another; only `ToolSafety.NoRelayConflict`, `ToolSafety.MovementStartsIff` and `ToolSafety.LimitHeld` restrict them.
- Pin levels before `setup` calls `forceBothRelaysOff`: runs start after it.
- IEEE floats: command and device numbers are the integers the firmware truncates them to, and float fields are their four bytes.
- The floats of an answer and the numbers of its results, faults and statuses: an answer is the value it stands for.
- The current measurement and its filter: never started and never called, so the filtered current only ever is reset to zero.
- Mavlink.Endpoint.BuildSetMessageInterval: takes the message id and the interval as the four bytes of their floats; neither the conversion of the id nor the quotient `1000000 / rate_hz` is modelled, because both are IEEE arithmetic.
- MavlinkErrors.V1DetectsBits: leaves bursts aside that change the id to one with another extra byte; for these `MavlinkErrors.V1DetectsStretch` and `MavlinkErrors.V1AcceptedIff` give the exact condition, without a list of the patterns.
- MavlinkErrors.V2DetectsBits: the same exception as for version 1.
- How the deadline of a reader is computed from its clock: it only decides how many bytes arrive.
- `insertEscape`, `removeEscape`, `realoc` and the move constructors: memory management around the functions that are modelled.
- The copies of `HilFrameArduino.h`, `frame.cpp` and `hil_serial.cpp` in other directories, and the RTCM loop of the serial sniffer: the same code again.
- The CRC-24Q of RTCM frames and MAVLink signatures: the code checks neither.
- Detection of a changed MAVLink length byte: the parser then looks for the checksum elsewhere, and nothing general holds.
- Overflow of the 32-bit sums of threshold and hysteresis: thresholds within 399 of the limits of int are treated as if the sums were exact.
- `simple_firmware.ino`, the communication sketches, the keyboard tools and the Lua scripts: the same primitives or one decision per tick without carried state.
- Argument parsing, console output and retries, and how the bridge waits for and prints the tool's answers.
