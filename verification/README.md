# Verified model of librasp

librasp drives 1-Wire buses, DHT sensors, Dallas thermometers, shift registers and nRF24L01+ radios from
a Raspberry Pi. This project models the parts of it in which something can go subtly wrong and proves
what they are for. `dafny verify dfyconfig.toml` checks all of it.

**The 1-Wire netlink engine** (`src/w1.c`).
`Frames` has the three nested layers of the connector socket (netlink frames, section 2.3.2 of RFC 3549,
connector messages, w1 messages and their commands) as values, with encoders, parsers and round trips.
`AckWalk` has the intermediate "ack, w1 message" stream of the receive path, proves when walking it
agrees with a parser that works layer by layer, and that foreign traffic cannot be seen. `InPlace` has
the two passes that compact the receive buffer over the part of it already read. `Matching` has the
matching of replies to commands as a function and its theory: it is right on in-order replies exactly
when types change, and does not depend on how replies are cut into messages. `AnyReplies` has what it
guarantees on any replies whatever, and the messages it can never get through. `ExecCallback` and
`Listing` have the callbacks with their data updated in place. `Receive` has the pollable loop over any
sequence of events and what its success means. `Request` builds, numbers, frames and executes a request,
and states the main result about `w1_msg_exec` (`ExecDelivers`). `Exchange` follows what a device sends
from its bytes on the wire to the buffers of the executed message, or to the list asked for.

**The DHT decoder** (`src/devices/dht.c`). `DhtDecoder` has the sampling loop on a wrapping clock, the
packing loop and the checksum; `DhtWaveform` an encoder, the line it drives, samplings with bounded lag,
and the proof that decoding inverts encoding; `DhtRetry` the retry policy.

**The clock** (`src/clock.c`). `Clock` has the sleep over a wrapping counter with a saturating
accumulator, and the 64-bit reading assembled from 32-bit reads of a running counter.

**The CRC** (`src/devices/ds_therm.c`). `Crc8` proves the nibble tables equal to the bitwise shift
register for x^8 + x^5 + x^4 + 1 (Maxim Application Note 27) and what the checksum detects.

**Smaller cores.** `ShiftRegister` reads a model of a load/shift register over pins that may fail;
`NrfRegisters` has the setters and getters of the radio over SPI frames, refining an abstract
configuration, and `NrfRuns` what the getters read back after any run of setters. `Bytes` and `Bits8`
are shared.

Objects the source updates are classes or arrays here, and their methods are proved equal to functions
on values; the theorems are about those functions. Where a property the source suggests is false, the
code is modelled as it is, a lemma shows an input, and another says exactly when the property holds:
NOOP frames, several w1 messages in one connector message, consecutive reads, a status report or a reply
without data, request numbers two apart, radio settings that are not read back, pins after a failed
access.

What encoders, parsers and methods share (types and codes, byte order, sizes, register addresses, bit
positions, thresholds) is stated once more with the numbers written out, by the `OnWire` lemmas,
`FrameByNumbers`, `VisibleIff`, `ReportsByPulses`, the SPI frames of the setters, and the theorems of
`Exchange`.

Conventions. Command buffers are ranges of one array, the caller's memory, and may overlap. Bytes are
numbers where they are fields of wire structures, and bit vectors where the code works on bits. The
fields of the wire structures are little-endian. memcpy is modelled as copying upwards byte by byte;
both compaction passes copy overlapping blocks downwards, which the C standard leaves open and this
order makes right. Length tests look at a length field only when a whole header is left; the source
reads it first, but its test is then false whatever it read. Sizes of type size_t are unbounded; 16-bit
length fields, 32-bit counters (sequence number, received messages, `cmd_msgs`, retries, clock) and the
8-bit status wrap as in the source. The default build configuration is modelled (src/config.h:18-32).
poll(), recv(), the line level, the clock registers, the pins and the outcome of a probe are parameters:
sequences or functions of what the calls return.

## Model

| member | source | states |
|---|---|---|
| Frames.CmdsRoundTrip | src/w1.c:40-42 | walking an encoded command list with W1CMD_OK/NEXT returns the same commands and leaves nothing over |
| Frames.WalkAccountsForEveryByte | src/w1.c:40-42 | any data at all is the encoding of the commands the walk reads followed by the bytes it leaves, which do not hold another command |
| Frames.CnsRoundTrip | src/w1.c:232-273 | connector messages packed one after the other are read back unchanged |
| Frames.ChainRoundTrip | src/w1.c:175-216 | however a payload is spread over the frames of a multi-part netlink chain, stripping the headers gives it back whole |
| Frames.FrameByNumbers | src/w1.c:188-210 | a frame of type 1 holds the loop up, one of type 2 is a protocol error, one of type 3 ends the message, one with flag 2 is followed by the rest, and any other is a bad message |
| Frames.NlHeaderOnWire | src/w1.c:351-357 | a netlink header is length, type, flags, sequence number and sender in 4, 2, 2, 4 and 4 bytes, the lowest byte first |
| Frames.CnHeaderOnWire | src/w1.c:359-366 | a connector header is subsystem, its value, sequence number and ack in 4 bytes each, length and flags in 2 bytes each, the lowest byte first |
| Frames.MessagesOnWire | src/w1.c:874-886 | a w1 message is type, status, 2 bytes of length, id and data; a command is code, result, 2 bytes of length and data |
| Frames.StuckForeverIffNoop | src/w1.c:176-191 | the netlink loop turns forever exactly on the datagrams the parser calls stuck; on all others it ends |
| Frames.TurnsForeverIffNoopReached | src/w1.c:176-216 | sent any frames, the netlink loop turns forever if and only if a NOOP frame comes with nothing but parts of a multi-part message in front of it |
| Frames.NoopExample | src/w1.c:188-191 | on one bare NOOP header the loop is still reading after any number of turns |
| AckWalk.WalkRefinesLayers | src/w1.c:218-317 | with one w1 message in each kept connector message, the flat walk over the ack stream reports exactly the acks and w1 messages a layer-by-layer parser reports |
| AckWalk.WalkRefinesIffOnePerMessage | src/w1.c:263-317 | for kept connector messages made of whole w1 messages, the walk reports exactly what a layer-by-layer parser reports if and only if each of them holds exactly one |
| AckWalk.TwoPerMessageExample | src/w1.c:263-280 | with two w1 messages in one connector message the second is lost |
| AckWalk.StrayByteExample | src/w1.c:263-280 | a stray byte behind the only w1 message is read over by both, so "whole" matters |
| AckWalk.VisibleIff | src/w1.c:241-311 | a connector message with one w1 message is delivered if and only if it has subsystem 3 and 1, the sequence number and the type of the request, the four id bytes of its master for master commands (4), and all eight id bytes for slave commands (5) |
| AckWalk.ForeignInBetween | src/w1.c:241-248 | connector messages of other subsystems, sequence numbers or requests, inserted anywhere, do not change what the callback sees |
| AckWalk.ForeignTrafficIsInvisible | src/w1.c:241-317 | the same on the bytes of two datagrams, under any two packings into netlink frames |
| InPlace.MovePayload | src/w1.c:198-204 | appending a payload to the moved ones leaves everything behind the frame untouched |
| InPlace.StripHeaders | src/w1.c:175-216 | the first compaction pass leaves in the buffer the payload a parser of the original bytes finds, or fails with the same error |
| InPlace.WriteAcked | src/w1.c:263-268 | writing ack and data of a connector message leaves everything behind it untouched |
| InPlace.FilterConnector | src/w1.c:232-273 | the second compaction pass leaves in the buffer the ack stream of the kept messages of the original bytes |
| InPlace.CallBackFiltered | src/w1.c:281-316 | w1 messages that do not answer the request make no difference to the callbacks |
| InPlace.SilentAfterNoMore | src/w1.c:312-316 | after "no more" the callback is never called again |
| Matching.Take | src/w1.c:561-615 | one reply never moves the index back or past the list, and memory keeps its size |
| Matching.Unmatched | src/w1.c:575-609 | a first reply of another type for a read or touch, and data of another length than its buffer, stop the callback with status 214, that is -42 |
| Matching.CutsDoNotMatter | src/w1.c:549-626 | after any run of error-free messages the callback data is that of their replies in one piece: how they were cut into messages is irrelevant |
| Matching.Seek | src/w1.c:575-596 | the reply for a command is taken at the first command of its type from the index on, and the index lags over no read or touch |
| Matching.InOrderRun | src/w1.c:561-615 | on in-order replies with changing types the lag invariant holds after every reply and no error is raised |
| Matching.EveryReplyInItsOwnBuffer | src/w1.c:549-626 | on in-order replies with changing types, cut in any way, every read and touch buffer that overlaps no other ends up with exactly its own reply, and memory outside the buffers replied to is unchanged |
| Matching.MatchingRightIffTypesChange | src/w1.c:575-596 | in-order data replies are taken by the commands they were sent for if and only if no read or touch is answered directly behind a command of its own type |
| Matching.TwoReadsExample | src/w1.c:575-614 | of two one-byte reads in a row the second reply overwrites the first buffer, without an error |
| Matching.VerdictTellsOutstanding | src/w1.c:617-622 | on in-order replies "more required" is answered exactly while data is outstanding, except when nothing has been replied and only the first command is owed data |
| Matching.EmptyMessageExample | src/w1.c:575-622 | the exception: a message without replies makes the callback content although the only read is unanswered |
| Matching.BehindForGood | src/w1.c:575-614 | once a reply has been taken by a command in front of its own, with a read or touch in between, in-order replies never bring the index level again, or end in an error |
| Matching.ContentOnlyIfTypesChange | src/w1.c:575-622 | on in-order, error-free messages the callback asks for more or notes an error whenever a read or touch is answered directly behind a command of its own type |
| AnyReplies.BehindMeansAnswered | src/w1.c:561-596 | on every reply stream, each read or touch behind the index has had a reply of its own type |
| AnyReplies.ContentMeansAllAnswered | src/w1.c:561-622 | on every run of messages, status 0 and any verdict but "more required" mean that every read and touch has been answered by a reply consumed, or that there was none and only the first command is owed data |
| AnyReplies.EmptyReplyExample | src/w1.c:595-622 | an empty reply is an answer: the callback is content and the buffer of the only read is as before |
| AnyReplies.BufferHoldsLast | src/w1.c:598-614 | on every reply stream a read or touch buffer that overlaps no other holds the data of the last non-empty reply taken at its command, or what it held before |
| AnyReplies.OnlyRepliesAreWritten | src/w1.c:549-614 | on every run of messages a byte of memory is as before or was put there by a consumed reply of the code and exact length of the read or touch it belongs to, and buffers that do not overlap hold exactly what came last for them |
| AnyReplies.NeverContent | src/w1.c:575-622 | with a read or touch directly behind a command of its own type, whatever comes in, the callback asks for more or notes an error |
| ExecCallback.Exec.OneReply | src/w1.c:577-614 | against the current command a reply is taken, refused, or left for the next command, with the effect `Matching.Take` gives it |
| ExecCallback.Exec.WalkReplies | src/w1.c:572-615 | the walk over a message's bytes, with the goto to the next command, does to index, counter, status and buffers what taking the parsed replies one by one does |
| ExecCallback.Exec.Callback | src/w1.c:549-626 | the callback turns its private data and the caller's buffers into what `Matching.OnMessage` says, for any message |
| Listing.SplitCutsAll | src/w1.c:463-471 | a chunk is cut into elements of the right size and less than one element is dropped |
| Listing.Lister.Callback | src/w1.c:474-532 | both listing callbacks turn their data and the list buffer into what `ListMessage` says |
| Listing.ListIsBoundedPrefix | src/w1.c:463-532 | after any run of successful replies the list is the longest prefix of the received ids that fits, the buffer behind it is untouched, all are counted, and re-cutting the ids makes no difference |
| Receive.DispatchW1 | src/w1.c:275-317 | the third pass invokes the callback for exactly the answering w1 messages, until "no more" |
| Receive.HandleDatagram | src/w1.c:166-317 | a datagram through all three passes over one buffer leaves the callback as a parser of the untouched bytes would |
| Receive.RecvLoop | src/w1.c:132-164 | the receive loop returns, and leaves in the callback's data, what the loop on values does, for every sequence of poll and recv results |
| Receive.RecvW1Msg | src/w1.c:109-327 | the same for a whole reception, which is over at once without a w1 message in the request |
| Receive.RunIsOneWalk | src/w1.c:138-164 | over datagrams followed by silence the callbacks are those of one walk over everything that answers, and the result depends on the last verdict alone |
| Receive.EveryRunIsAWalk | src/w1.c:138-317 | on any run the callbacks are those of one walk over what answers among the first events, and success comes at a timeout behind readable datagrams only |
| Receive.SuccessMeansContentCallback | src/w1.c:132-158 | on any run, success means that a callback was made and that the last one did not ask for more |
| Receive.FirstEventEnds | src/w1.c:138-210 | failing poll and recv are communication errors, a timeout without a message, or with more required, is no response, and a datagram that cannot be read ends with its own error |
| Receive.ExecNotesError | src/w1.c:566-570 | a message handed to the exec callback with ack 0xffffffff and a status other than 0, while commands are left, ends the callbacks with that status |
| Receive.ListNotesError | src/w1.c:474-508 | the same for both listing callbacks |
| Receive.OtherAcksReportNothing | src/w1.c:312-316 | with any other ack the status of a message makes no difference at all, to either callback |
| Receive.ExecSucceedsIffServed | src/w1.c:913-919 | on any in-order, error-free exchange the execution succeeds exactly when something answered, no read or touch was answered directly behind a command of its own type, and none lacks its data; with changing types each buffer then holds its own reply |
| Listing.StatusIffGood | src/w1.c:474-532 | only the messages up to the first status report or bad message matter to a listing, and its status is 0 exactly when none of them is bad |
| Receive.ListingSucceedsIffGood | src/w1.c:646-655 | a listing succeeds exactly when anything answered and no answer handed to the callback was bad, with the bounded prefix as its list |
| Request.SeqCollides | src/w1.c:29-30 | requests k apart on a handle carry the same number exactly when k is the whole range without a wrap of the counter, or 2 across one |
| Request.SeqCollisionExample | src/w1.c:29-30 | the last request in front of a wrap and the second one behind it carry number 1 |
| Request.LateRepliesAreForeign | src/w1.c:241-248 | replies to the previous request are foreign traffic to the next one |
| Request.W1Message.Add | src/w1.c:760-793 | a command is appended, or refused as a bus reset to a slave or for lack of space, with nothing changed |
| Request.RequestRoundTrip | src/w1.c:341-368 | a request that passes the size check fits the send buffer, and the library's own parsers read back from the sent datagram the same request and the same commands, zeros for reads, with nothing left over |
| Request.BuildRequest | src/w1.c:846-908 | the request is laid out in the buffer as its encoding, no length field truncates, and empty or too long lists are refused |
| Request.PutCommand | src/w1.c:885-905 | writing one command, with the buffer cleared before, appends exactly its encoding and leaves zeros behind it |
| Request.CommandOnWire | src/w1.c:883-905 | a read is sent as code 0 with zeros, a write as 1 and a touch as 4 with the bytes of their buffers, a bus reset as 5, each with its length, the low byte first |
| Request.RequestOnWire | src/w1.c:872-881 | a master request is type 4 and the master id in four bytes, the lowest first, a slave request type 5 and its eight id bytes, each with the length of the commands and the commands |
| Request.FillFrame | src/w1.c:351-368 | the send buffer holds the encoding of the netlink frame around the connector message around the w1 message |
| Request.DatagramOnWire | src/w1.c:351-368 | the datagram sent is a netlink header of type 3, a connector header for subsystem 3 and 1 with ack 0xffffffff, both with the number of the request, the w1 message, and zeros up to a multiple of 4 |
| Request.Handle.Frame | src/w1.c:341-368 | the size test, the sequence number used and the counter left behind |
| Request.ExchangeExec | src/w1.c:910-919 | the exchange with the exec callback ends in the result and buffers of the loop on values, a status turning success into a protocol error |
| Request.W1MsgExec | src/w1.c:838-923 | executing a message returns, and leaves in the buffers, what `ExecRun` says, in place from the size check to the last reply |
| Request.RefusedUnsent | src/w1.c:850-870 | without commands execution is refused as empty, with more than 4076 bytes of message, 12 of them header, as too long, and memory stays as it was |
| Request.ExecDelivers | src/inc/librasp/w1.h:138-147 | executing a w1 message on any in-order, error-free exchange succeeds exactly when something answered, all types changed and all requested data arrived, and the buffers then hold the replies of their commands |
| Request.SuccessMeansAllAnswered | src/w1.c:838-923 | on any run of events whatever, success means that every read and touch has been answered by a reply of its own type, or that there was no reply and only the first command is owed data; and memory holds just what came last for each of them |
| Request.ErrorReportedNoSuccess | src/w1.c:910-919 | on any run of events whatever, a w1 message handed on with ack 0xffffffff and a status other than 0, while commands are left, excludes success |
| Request.ErrorReportedFails | src/w1.c:910-919 | over readable datagrams followed by silence such a message makes execution a protocol error |
| Request.ExecWritesRepliesOnly | src/w1.c:838-923 | on any run of events whatever, memory changes only where reads and touches have their buffers, to what a reply of their own code and length carried, and buffers that do not overlap hold the data that came last for them |
| Request.NeverSucceeds | src/w1.c:838-923 | a message with a read or touch directly behind a command of its own type is never executed with success, whatever comes back |
| Exchange.ReadsBack | src/w1.c:166-317 | a w1 message that answers the request, framed on its own in one datagram, is handed to the callback as it was sent |
| Exchange.EveryNeedAnswered | src/w1.c:838-923 | sent to a device that answers all reads and touches and any of the other commands, a message is executed with success if and only if something is answered and no read or touch has the command answered last before it of its own type; when buffers of reads and touches do not overlap, each read and each touch then has what the device sent for it in its buffer; memory outside the buffers of reads and touches is unchanged, so writes, bus resets and pull-up writes leave theirs alone |
| Exchange.EveryCommandAnswered | src/w1.c:838-923 | when all commands are answered, that is so if and only if no read or touch is directly behind a command of its own type |
| Exchange.SilentWriteExample | src/w1.c:575-596 | a write without acknowledgement between two reads leaves them one behind the other |
| Exchange.EveryIdListed | src/w1.c:629-715 | any 4-byte ids sent for masters (type 6), and any 8-byte ids sent for slaves (type 4, command 2) or alarmed slaves (command 3), cut into messages in any way, are listed: the longest prefix that fits is at the front of the list, the rest of it is as before, and all are counted |
| Exchange.ErrorReportOnWire | src/w1.c:838-923 | the answer with ack 0xffffffff and any status other than 0, sent as a datagram, makes execution of any message a protocol error |
| Exchange.ListErrorReportOnWire | src/w1.c:629-700 | the same for each of the three listings |
| Request.List | src/w1.c:629-715 | listing masters, slaves or alarmed slaves returns, and leaves in the list, what `ListRun` says; the sizes are reported on success only |
| Request.ListRequestOnWire | src/w1.c:638-680 | masters are listed by type 6 without data, slaves searched for by type 4, the master id and command 2, or 3 for alarmed ones |
| Request.ListDelivers | src/w1.c:629-715 | over any datagrams followed by silence each of the three listings succeeds exactly when anything answered and no answer handed to the callback was bad, with the longest prefix of the ids that fits in the list and both numbers right |
| Request.ListSuccessMeansListed | src/w1.c:629-715 | on any run of events whatever, success of a listing means that something answered before a timeout behind readable datagrams, that no answer handed to the callback was bad, and that list and numbers are those of the ids in them |
| Request.ListErrorReportedNoSuccess | src/w1.c:646-652 | on any run of events whatever, a message handed to a listing callback with ack 0xffffffff and a status other than 0 excludes success of a listing |
| Request.ListErrorReportedFails | src/w1.c:646-652 | over readable datagrams followed by silence such a message makes a listing a protocol error |
| DhtDecoder.Retrieve | src/devices/dht.c:59-92 | the sampling loop fills siglens, within its bounds, as the loop on values does |
| DhtDecoder.Pack | src/devices/dht.c:128-131 | bit 7 - k % 8 of packed byte k / 8, by shifting, is 1 exactly when pulse k lasted longer than 50us |
| DhtDecoder.SameBits | src/devices/dht.c:128-131 | byte strings with the same bits are equal, so packing has one result |
| DhtDecoder.ChecksumIsSum | src/devices/dht.c:142-143 | the test accepts exactly when the integer sum of the first four bytes modulo 256 is the fifth |
| DhtDecoder.ProbeSamples | src/devices/dht.c:57-150 | on any samples: the probe ends exactly when 41 high pulses have been completed or a level has lasted 500 ticks; it then reports no response if no pulse was completed, corrupted data for 1 to 39, and for 40 or 41 corrupted data or the five bytes read |
| DhtDecoder.LoopEndsWithLine | src/devices/dht.c:60-92 | where the line alone says that the loop ends, it ends, with as many pulse lengths as the line had completed pulses, its falls behind a high level but for the first one of a line that was high to begin with |
| DhtDecoder.LoopGoesOnWithLine | src/devices/dht.c:60-92 | where it does not, the loop goes on |
| DhtDecoder.SilentLine | src/devices/dht.c:68-73 | a line on which no low sample follows a high one completes no pulse |
| DhtDecoder.ReportsByPulses | src/devices/dht.c:98-150 | 0 pulses are no response, 1 to 39 corrupted data; of 40 or 41 the last 40 are the bits, and the data is accepted exactly when the integer sum of four bytes modulo 256 is the fifth |
| DhtWaveform.OneEdgeAtMost | src/devices/dht.c:68-78 | with bounded lag there is at most one level change between two samples, and none is missed |
| DhtWaveform.Step | src/devices/dht.c:68-91 | sample by sample the loop tracks the line: its state is the level, its start is within the lag of the edge, and each recorded width within the lag of the true one |
| DhtWaveform.DecoderInvertsEncoder | src/devices/dht.c:60-150 | every sampling of a response with bounded lag, with the response pulse caught or missed and across clock wrap, yields the bytes sent, accepted exactly when the integer sum of the first four modulo 256 is the fifth |
| DhtWaveform.EncodedRuns | src/devices/dht.c:60-92 | the lines an explicit encoder drives meet the assumptions, from every phase of sampling up to the end of the response pulse |
| DhtWaveform.RoundTrip | src/devices/dht.c:60-150 | decoding the encoder's line gives the five bytes back |
| DhtWaveform.LoopIsBounded | src/devices/dht.c:60-92 | whatever the line does, siglens is not overrun and the loop ends within 83 levels of less than 500 ticks and a sample gap each |
| DhtRetry.ProbeRetried | src/devices/dht.c:179-217 | the retry loop follows the policy for every sequence of outcomes and every 32-bit number of retries: at most one probe more than that, and the first conclusive outcome counts |
| DhtRetry.PolicyDecides | src/devices/dht.c:186-213 | the policy fixes the result and the number of probes |
| DhtRetry.NoDevIffTenSilent | src/devices/dht.c:198-204 | "no device" is reported exactly when ten probes are allowed and the first ten are silent |
| DhtRetry.FirstConclusive | src/devices/dht.c:192-209 | success or any other error than no response and corrupted data is the result as soon as it comes, unless ten silent probes came first |
| DhtRetry.NoneConclusive | src/devices/dht.c:210-213 | without one, and without ten silent probes in front, all probes are made and a device error is reported |
| Clock.BcmUsleep | src/clock.c:158-180 | the sleep lasts at least as long as asked; without a stall of a counter period it would not have been through one counter read earlier, and each coarse sleep is half of what is really left |
| Clock.StopMinusTicks | src/clock.c:162-169 | while the loop runs, stop - ticks is the time left, modulo 2^32 |
| Clock.AtMost24Sleeps | src/clock.c:165-188 | with the default threshold of 400us and coarse sleeps that last as long as asked there are at most 24 of them |
| Clock.GetTicks64 | src/clock.c:128-138 | the 64-bit reading lies between the counter at the first and at the last register read, however long the call takes |
| Clock.TicksAreRead | src/clock.c:128-138 | it is the counter at the instant of a low register read exactly when the high half had settled; calls of less than 2^32 ticks always have |
| Clock.TicksNeverGoBack | src/clock.c:128-138 | successive calls never run backwards, whatever the counter does in between |
| Crc8.TableStep | src/devices/ds_therm.c:22-36 | the two table lookups are eight shifts of the register |
| Crc8.Crc8Tables | src/devices/ds_therm.c:20-39 | crc8 is the bitwise shift register over all message bits, for every length |
| Crc8.Linear | src/devices/ds_therm.c:34-37 | the checksum is linear over the bitwise difference of messages |
| Crc8.Parity | src/devices/ds_therm.c:34-37 | the parity of the checksum is that of the message, so odd numbers of flips are detected |
| Crc8.BurstsDetected | src/devices/ds_therm.c:34-37 | every burst of at most eight bits is detected, across byte boundaries too |
| Crc8.TwoFlipsMissedIff127 | src/devices/ds_therm.c:34-37 | two flips are missed exactly when their distance is a multiple of 127 bits, at any length |
| Crc8.ThreeFlipsDetected | src/devices/ds_therm.c:34-37 | in up to 127 bits any one, two or three flips are detected |
| Crc8.Residue | src/devices/ds_therm.c:20-39 | a byte appended to a message makes the residue 0 exactly when it is the checksum |
| Crc8.AcceptScratchpad | src/devices/ds_therm.c:162-168 | the acceptance test compares the checksum of the first eight bytes with the ninth |
| Crc8.CorruptionRejected | src/devices/ds_therm.c:156-171 | an accepted scratchpad is rejected after one to three flips, any odd number of flips, or any burst of eight bits |
| ShiftRegister.OneMore | src/devices/shr_piso.c:43-45 | one more input goes into its bit, a new byte starting from 0 |
| ShiftRegister.ShiftBits | src/devices/shr_piso.c:39-54 | the loop reads n inputs with exactly n rising edges, into exactly the bytes needed |
| ShiftRegister.PisoRead | src/devices/shr_piso.c:20-59 | it succeeds exactly when all pin accesses work; bit k % 8 of output byte k / 8, by shifting, is then input k, padding is 0, bytes from (n + 7) / 8 on are unchanged, and both pins are high; after a failure SH/~LD is low exactly when raising it failed, and the clock exactly when a bit could not be read or the clock not raised and the last attempt to raise it failed, too |
| ShiftRegister.ShLdLeftLowExample | src/devices/shr_piso.c:30-33 | when raising SH/~LD fails, that pin stays low |
| NrfRegisters.SetSwitch | src/devices/nrf_hal.c:59-141 | each one-bit setter changes its setting and nothing else of the configuration; on SPI it reads its register, 0x00, 0x06 or 0x1d, and writes it back with its bit, given as a mask, set or cleared |
| NrfRegisters.SetCrcMode | src/devices/nrf_hal.c:218-254 | the checksum mode is set and nothing else changes; on SPI bits 0x08 and 0x04 of register 0x00 are written |
| NrfRegisters.SetPipe | src/devices/nrf_hal.c:284-370 | opening or closing one or all pipes changes those pipes only, and other pipe numbers nothing; on SPI registers 0x02 and 0x01 are read and written with bit 1 << pipe, or 0x3f, set or cleared |
| NrfRegisters.SetAddress | src/devices/nrf_hal.c:400-421 | as many bytes as the address is wide replace the first ones of that address, and nothing else; on SPI they are written to register 0x0a plus the pipe, or to 0x10 |
| NrfRegisters.GetAddress | src/devices/nrf_hal.c:423-435 | the address getter returns that many bytes of the configured address |
| NrfRegisters.GetPipeStatus | src/devices/nrf_hal.c:372-387 | the pipe status is 2 for auto-acknowledge plus 1 for open, and 0 for other pipe numbers |
| NrfRuns.RunSetters | src/devices/nrf_hal.c:782-812 | any run of setters over SPI frames refines the run on the abstract configuration |
| NrfRuns.Get | src/devices/nrf_hal.c:75-435 | each getter over SPI frames returns its item of the abstract configuration, a wide address as wide as addresses are at the time, and changes nothing |
| NrfRuns.LastSetterWins | src/devices/nrf_hal.c:59-397 | after any run each piece of the configuration is what the last setter for it made it |
| NrfRuns.ReadBackIffLasting | src/devices/nrf_hal.c:59-435 | after any run a getter gives back what the last setter for its item was asked for if and only if the value is representable (channel below 128, retransmissions below 16, delay a multiple of 250 from 250 to 4000, rate 1 Mbps, anything else always) and, for wide addresses, they have not become wider since, unless the bytes missing were there already |
| NrfRuns.WidthRaisedExample | src/devices/nrf_hal.c:389-435 | an address set while three bytes wide is read back with older bytes behind it once addresses are five wide |
| NrfRuns.SetAndGet | src/devices/nrf_hal.c:59-435 | the same through the setters and the getter over SPI frames |
| NrfRuns.StatusDocumentedIff | src/inc/librasp/devices/nrf_hal.h:525-527 | the pipe status after any run of setters is one of the three documented values if and only if it was before or the run opens or closes the pipe |

## Left out

- Frames.StuckForeverIffNoop: the receive methods require that no datagram reaches a NOOP frame, since the source never gets past one.
- Receive.RecvW1Msg: sockets, poll(), recv() and send() are a sequence of results; a failing send() is not modelled.
- Request.W1MsgExec: size_t sums of command lengths that wrap are not modelled.
- Listing.Lister.Callback: the list is an array of ids of 4 or 8 bytes rather than raw bytes, as these are the only element sizes there are.
- Logging, debug output and hex dumps, platform detection, memory mapping, build files and the examples directory.
- Pull-up writes and the system clock driver, which the default build does not contain.
- Real-time scheduling (src/common.c): effects on the operating system only.
- The start signal of a DHT probe, and turning the decoded bytes into humidity and temperature.
- The scratchpad's temperature formulas and the thermometer commands other than reading the scratchpad; `exec_cmd_all` passes one byte more than it was given, so its data is not determined by its arguments.
- `src/gpio.c`, `src/spi.c` and `src/devices/hcsr04.c`, which would add only single-register accesses; pins and SPI frames are modelled by what they do.
- Radio behaviour, FIFOs, payload transfers, interrupt flags and SPI failures of the nRF24L01+; DYNPD, which has no getter, and saving the context.
- NrfRegisters.SetSwitch: the one-bit setters of the source (CONFIG, FEATURE, RF_SETUP) are one method with the register and bit as parameters.
