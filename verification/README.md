# SidecarDOS, verified

SidecarDOS turns an iPad into a wireless second display for a Windows PC. A driver on the PC offers a
virtual monitor and hands its frames to a host process; the host encodes them and sends them over QUIC to a
client on the iPad, which decodes them and sends touches, mouse and keys back. This project models the parts
where the two ends, or the host and the driver, have to agree, and proves what they rely on.

Check everything with `dafny verify dfyconfig.toml`.

## How the model is built

A value type describes the state of each stateful part, and functions describe what each operation does to
it; where the source is a structure updated in place, a class with the same fields and loops is verified
against those functions, and the theorems are about the functions and about whole runs of them. For each
main operation a law also tells its outcome from the states before and after alone, so that a function and a
method that took the same wrong turn would contradict it. Time is a number given with each event. What the
network, the operating system or the hardware decides is given with each event too, so a theorem over all
runs covers every such decision.

| modules | what they model |
|---|---|
| `Base` | machine integers, results, sums over maps, the pigeonhole principle |
| `AnnexB`, `ParameterSets` | the scanner for Annex B byte streams (ITU-T H.264, Annex B) and the repetition of parameter sets before IDR units |
| `Wire`, `Packets`, `Messages`, `Framing` | the field codec, packets, the table of messages, and packets on a byte stream read incrementally and exactly |
| `Fragments`, `Datagrams` | cutting a frame into fragments and sending each in a datagram |
| `Assembly`, `AssemblyLaws`, `Delivery`, `Reordering` | the frame assembler; what its operations do, told from the states before and after; its runs over a lossy, duplicating, reordering channel; the reordering window |
| `Decoding`, `VideoPath`, `VideoLaws`, `BrokenChain`, `HostStream` | the decoder's gate, the client's path from datagram to hardware decoder, a run that breaks its chain, and the host's stream of prepared frames |
| `Handshake`, `HandshakeLaws`, `Sessions`, `Progress` | pairing, reconnection and session start, as two machines over ordered streams, cut at any step |
| `Slots`, `SlotLaws` | three shared textures with keyed mutexes between driver and host |
| `Injection`, `InjectionLaws`, `Touches` | the host's input injector against what the operating system holds down, and the client's contact ids |
| `Edid` | the monitor description the driver writes and reads |
| `Pipeline`, `PipelineLaws`, `Topology` | the host's pipeline thread, and the retries of display placement |

## Findings

- A changed parameter set in an access unit without an IDR makes the decoder drop that unit and *not* wait
  for an IDR, so the next delta is decoded against a frame that never was (`ipad/SidecarDOS/Decoder/H264Decoder.swift:63`).
  `VideoPath.ChainStep` gives the exact condition for each unit, `VideoPath.SkipBreaks` shows that every such skip breaks the
  chain at the next plain delta, and `BrokenChain.ChainBreaks` is a client's run of three frames. `VideoPath.AlwaysDecodable` proves the
  chain over all runs when the sets in force change on IDR units only; units that repeat the sets in force are
  allowed, and `HostStream.StreamDecodable` proves it of the host's own stream, across new encoders.
  `Decoding.SessionStaysCurrent` gives the exact condition under which the decoding session is the one of
  the sets last seen.
- Repeating parameter sets in front of an access unit is undone by the scanner exactly under
  `ParameterSets.Repeatable`: the unit count stays within the scanner's limit, and the last repeated set
  meets the access unit's first start code without its trailing zero being swallowed.
  `ParameterSets.RepetitionFails` gives two access units in a row for which it is not.
- `Identity::trust` counts the records before it looks whether the client is among them, so re-pairing a
  client whose first pairing was cut fails at 64 records: `Sessions.FreshPairing` is an if and only if, and
  `Sessions.LimitReached` a run of 64 cut pairings.
- Entering the right pairing code again before the host answers makes the host break off, in every
  interleaving and only then (`Sessions.SecondProofDecides`; `Sessions.CodeEnteredTwice` is one such run).
- A mode change with a new rate that the pipeline takes during grace changes the modes it goes by but not
  the monitor's (`Pipeline.ModesCurrent` is an if and only if); reconnecting with these modes then keeps the old
  monitor (`Pipeline.StaleMonitor`).

## Model

| member | source | states |
|---|---|---|
| `AnnexB.StartsExact` | windows/host/src/encoder/h264.rs:5-19 | the scanner's starts are exactly the places of 00 00 01, each extended left over one zero that belongs to no earlier start |
| `AnnexB.Scan` | windows/host/src/encoder/h264.rs:3-19 | the index-driven loop collects exactly those starts |
| `AnnexB.ComputeUnits` | windows/host/src/encoder/h264.rs:2-33 | the scanner as a whole: the units between starts, or an error when there is none, are more than 4096, or one is empty |
| `AnnexB.UnitsOk` | windows/host/src/encoder/h264.rs:20-32 | accepted units number 1 to 4096, are nonempty and hold no start code |
| `AnnexB.PrintableScans` | ipad/SidecarDOS/Decoder/H264Decoder.swift:153-172 | printing printable units with start codes and scanning returns them |
| `AnnexB.ScannedPrintable` | ipad/SidecarDOS/Decoder/H264Decoder.swift:153-172 | units that come back from printing and scanning were printable |
| `AnnexB.RoundTrip` | windows/host/src/encoder/h264.rs:2-33 | scanning undoes printing exactly when the units are nonempty, hold no start code, do not end in 00 before a three-byte code, and number at most 4096 |
| `ParameterSets.ParameterSetStore.Prepare` | windows/host/src/encoder/h264.rs:40-78 | the stored sets, the output and the keyframe flag of each call, with every error path |
| `ParameterSets.PrepareKeepsStored` | windows/host/src/encoder/h264.rs:43-56 | stored sets stay well formed over every call, failed ones included |
| `ParameterSets.PreparedExactly` | windows/host/src/encoder/h264.rs:42-78 | the sets seen last are stored; one SPS is put in front exactly if there is an IDR and no SPS, then one PPS likewise, and nothing else; when it fails, and with which error |
| `ParameterSets.SameUnits` | windows/host/src/encoder/h264.rs:5-19 | what stands before the first start code of a suffix does not change how the suffix is scanned |
| `ParameterSets.RepetitionScans` | windows/host/src/encoder/h264.rs:57-77 | scanning the prepared access unit gives the repeated sets and then the original units, exactly when it is repeatable |
| `ParameterSets.RepetitionFails` | windows/host/src/encoder/h264.rs:63-72 | a PPS that ends in 00, taken from one access unit and repeated before the next, is scanned without its last byte |
| `ParameterSets.KeyframeAgrees` | ipad/SidecarDOS/Decoder/H264Decoder.swift:53-65 | the host's keyframe flag is the client's IDR test, and every prepared keyframe brings both sets |
| `Wire.CodecBijection` | windows/host/src/protocol/mod.rs:21-99 | a body reads as these values exactly when they fit their fields and it is their encoding, for every list of field types |
| `Wire.WrittenThenRead` | windows/host/src/protocol/mod.rs:80-94 | typed values survive the wire exactly when floats are finite and bytes and strings within the reader's limits |
| `Wire.LeFromLe` | windows/host/src/protocol/mod.rs:68-79 | every little-endian number is written back as it was read |
| `Wire.FromLeLe` | windows/host/src/protocol/mod.rs:25-36 | every number within its width is read back as it was written |
| `Wire.FieldLayout` | windows/host/src/protocol/mod.rs:21-46 | the bytes of each field type: numbers lowest byte first, signed ones in two's complement, bytes and strings behind a length of four bytes |
| `Wire.Utf8Exactly` | windows/host/src/protocol/mod.rs:90-94 | the strings accepted are exactly the encodings of Unicode scalar values (RFC 3629) |
| `Wire.Writer.Put` | windows/host/src/protocol/mod.rs:22-46 | each field type appends its encoding and nothing else |
| `Wire.Writer.Message` | windows/host/src/protocol/generated.rs:339-350 | a message appends its fields in order |
| `Wire.Reader.TakeBytes` | ipad/SidecarDOS/Protocol/Wire.swift:26-30 | taking bytes advances the cursor or fails without moving it |
| `Wire.Reader.Get` | windows/host/src/protocol/mod.rs:56-94 | each field type is read, or refused with the source's reason |
| `Wire.Reader.Message` | ipad/SidecarDOS/Protocol/Wire.swift:82-86 | a body is read field by field and may leave nothing over |
| `Packets.PacketBijection` | windows/host/src/protocol/mod.rs:118-150 | bytes decode to a packet exactly when they are its encoding with some minor version, within the limit |
| `Packets.AcceptedRewritten` | windows/host/src/protocol/mod.rs:118-150 | every accepted packet is written back as it came but for the minor version's byte |
| `Packets.PacketLayout` | windows/host/src/protocol/mod.rs:118-128 | the header byte by byte and the body behind it |
| `Packets.EncodePacket` | windows/host/src/protocol/mod.rs:118-128 | the writer's steps yield the packet's encoding |
| `Packets.DecodePacket` | ipad/SidecarDOS/Protocol/Wire.swift:67-76 | the reader's steps yield the decoding, with the errors in the source's order |
| `Messages.MessageRoundTrip` | windows/host/src/protocol/mod.rs:108-157 | every message goes to bytes and back unchanged exactly when its values fit and the packet is within the limit |
| `Messages.ReadMessage` | windows/host/src/protocol/mod.rs:151-157 | a packet is read as a message only of its own kind |
| `Messages.WriteMessage` | windows/host/src/protocol/mod.rs:108-117 | a message becomes a packet of its kind |
| `Framing.ParseContinues` | ipad/SidecarDOS/Protocol/Wire.swift:94-106 | parsing what was left with what comes next continues the parse of the whole stream |
| `Framing.FirstExactly` | ipad/SidecarDOS/Protocol/Wire.swift:94-104 | a packet is taken off a stream exactly if the stream begins with its encoding, and waited for exactly while the header or the bytes it announces are not all there |
| `Framing.WrittenParsed` | windows/host/src/protocol/mod.rs:118-128 | packets written one after the other come out of the stream as they were |
| `Framing.ParsedLaid` | ipad/SidecarDOS/Protocol/Wire.swift:94-106 | what comes out of any stream is what stands in it, packet after packet, and parsing stops only where it must |
| `Framing.StreamParser.Append` | ipad/SidecarDOS/Protocol/Wire.swift:90-107 | one call returns the packets of its buffer and keeps the rest, or throws |
| `Framing.Segmentation` | ipad/SidecarDOS/Protocol/Wire.swift:88-108 | however a stream is cut into pieces of at most 16384 bytes, the calls throw exactly when the whole stream is refused and never for a full buffer, and return its packets |
| `Framing.SameHoweverCut` | ipad/SidecarDOS/Protocol/Wire.swift:87-93 | two ways of cutting a stream give the same packets and the same error |
| `Framing.Stream.ReadPacket` | windows/host/src/network/mod.rs:64-75 | two exact reads yield the first packet of the reference parse, or the right error |
| `Framing.Stream.ReadAll` | windows/host/src/app/runtime.rs:483-490 | repeated exact reads yield the same packets as the client's parser, and end with an error exactly of the parse's kind |
| `Framing.ReplayGuard.Accept` | windows/host/src/protocol/mod.rs:165-173 | the guard accepts what exceeds the last accepted number |
| `Framing.AcceptedIffNew` | windows/host/src/protocol/mod.rs:167-173 | a number is accepted exactly when it exceeds every earlier one, accepted or not |
| `Fragments.OffsetStep` | windows/host/src/network/mod.rs:95-105 | chunks are nonempty, at most the chunk size, and end with the frame |
| `Datagrams.DatagramSize` | windows/host/src/network/mod.rs:91-94 | a fragment's datagram is the overhead of 85 bytes and the chunk |
| `Datagrams.DatagramBijection` | ipad/SidecarDOS/App/SessionModel.swift:163-168 | the client takes a datagram for a fragment exactly when it carries it and is at most 1200 bytes |
| `Datagrams.DatagramReceived` | windows/host/src/network/mod.rs:106-124 | what the host sends is received as it was |
| `Datagrams.Read` | ipad/SidecarDOS/App/SessionModel.swift:163-168 | a datagram is passed over when not streaming or of another session, ends the session when unreadable, or carries a fragment |
| `Datagrams.ArrivedExactly` | ipad/SidecarDOS/App/SessionModel.swift:163-168 | which datagrams end the session and which must not: passed over are those while not streaming and the packets of other sessions, up to 1200 bytes |
| `Datagrams.FragmentLayout` | windows/host/src/protocol/generated.rs:327-366 | each field of a fragment at its own place in the datagram |
| `Datagrams.FragmentFits` | windows/host/src/network/mod.rs:92-94 | each datagram is at most the overhead and the chunk size |
| `Datagrams.CutFor` | windows/host/src/network/mod.rs:85-96 | the checks before sending, in order; the chunk they settle on keeps every datagram within the path's limit and 1200 bytes |
| `Datagrams.CutExactly` | windows/host/src/network/mod.rs:85-96 | which check fails first, and that the chunk is the largest the path and the fragment's limit allow |
| `Datagrams.SendFrame` | windows/host/src/network/mod.rs:84-125 | the datagrams sent are the frame's first fragments, all of them exactly when it answers true; a frame too old sends nothing |
| `Datagrams.SentGenuine` | windows/host/src/network/mod.rs:105-117 | each datagram of a sent frame is received as one of its genuine fragments |
| `Assembly.FrameAssembler.Ingest` | ipad/SidecarDOS/Network/FrameAssembler.swift:20-41 | one fragment: the steps of the source yield the state and answer of `IngestSpec`, which `AssemblyLaws.IngestLaw` and `AssemblyLaws.IngestAnswer` tell from the states before and after |
| `Assembly.FrameAssembler.Expire` | ipad/SidecarDOS/Network/FrameAssembler.swift:42-46 | exactly the assemblies older than 40 ms are discarded, in whatever order they are visited |
| `Assembly.FrameAssembler.DiscardFrame` | ipad/SidecarDOS/Network/FrameAssembler.swift:47-52 | a discarded assembly is counted and a keyframe required; the subtraction does not underflow |
| `Assembly.FrameAssembler.Next` | ipad/SidecarDOS/Network/FrameAssembler.swift:53-69 | the search for the next frame: waiting, discarding, or handing out; each age the search takes must not be negative |
| `Assembly.DiscardAny` | ipad/SidecarDOS/Network/FrameAssembler.swift:42-46 | the order of discarding does not matter |
| `Assembly.ExpiredExactly` | ipad/SidecarDOS/Network/FrameAssembler.swift:42-52 | expiry gives up exactly the assemblies older than 40 ms, counts each as lost, and asks for a keyframe exactly if there was one |
| `Assembly.PartsBounded` | ipad/SidecarDOS/Network/FrameAssembler.swift:12 | an assembly with as many parts as its count has every index |
| `Assembly.IngestKeeps` | ipad/SidecarDOS/Network/FrameAssembler.swift:20-41 | ingesting anything keeps at most two assemblies, all newer than the last frame, with byte counts exact and within the total |
| `Assembly.NextKeeps` | ipad/SidecarDOS/Network/FrameAssembler.swift:53-69 | polling keeps the same invariant |
| `Assembly.ExpiredKeeps` | ipad/SidecarDOS/Network/FrameAssembler.swift:42-46 | expiry keeps the same invariant |
| `Assembly.NextShrinks` | ipad/SidecarDOS/App/SessionModel.swift:173-175 | a poll that hands out a frame leaves fewer assemblies, so draining ends |
| `AssemblyLaws.RefusedUntouched` | ipad/SidecarDOS/Network/FrameAssembler.swift:21-25 | a fragment out of range, or of a frame handed out or older, changes nothing; any other is counted as received |
| `AssemblyLaws.IngestLaw` | ipad/SidecarDOS/Network/FrameAssembler.swift:24-30 | which assemblies a fragment leaves: the late ones go, and if its frame is new and two others are under way exactly one more, older than any that stays; each is a loss with its absent fragments and calls for a keyframe |
| `AssemblyLaws.IngestAnswer` | ipad/SidecarDOS/Network/FrameAssembler.swift:31-40 | when a fragment is taken, malformed or oversized, told from its frame's assembly, and that only a fragment taken changes it, by its own part |
| `AssemblyLaws.NextLaw` | ipad/SidecarDOS/Network/FrameAssembler.swift:53-69 | a poll hands out a frame exactly when the first complete one at which it stops is a keyframe or the next in line; otherwise it waits; what it passes is given up, what is older than the frame dropped, the rest kept |
| `Delivery.PartsFit` | ipad/SidecarDOS/Network/FrameAssembler.swift:36-38 | any selection of a frame's chunks is at most the frame's size |
| `Delivery.JoinChunks` | ipad/SidecarDOS/Network/FrameAssembler.swift:59-60 | all chunks joined in order are the frame's bytes |
| `Delivery.GenuineIngest` | ipad/SidecarDOS/Network/FrameAssembler.swift:20-41 | a genuine fragment never makes `ingest` throw and keeps the assembler faithful to what was sent |
| `Delivery.NextOverFaithful` | ipad/SidecarDOS/Network/FrameAssembler.swift:53-69 | a poll returns nothing, or a sent frame newer than any before |
| `Delivery.EndToEnd` | ipad/SidecarDOS/Network/FrameAssembler.swift:20-69 | over every run of deliveries, duplicates, losses, expiries and polls, nothing throws and every frame returned is a sent one with its own bytes and data, in increasing order |
| `Delivery.AlwaysInvariant` | ipad/SidecarDOS/Network/FrameAssembler.swift:20-69 | the assembler's invariant holds after every run, whatever arrives |
| `Delivery.AlwaysAccounted` | ipad/SidecarDOS/Network/FrameAssembler.swift:20-69 | after every run: at most two assemblies, newer than the last frame, within 4 MiB; openings are emissions, losses, superseded and held, modulo 2^32 |
| `Delivery.SupersededBehindKeyframe` | ipad/SidecarDOS/Network/FrameAssembler.swift:61-63 | frames vanish uncounted only behind a keyframe just handed out |
| `Reordering.CompleteIffFull` | ipad/SidecarDOS/Network/FrameAssembler.swift:12 | an assembly counts as complete exactly when every fragment of its frame has arrived |
| `Reordering.NoneStale` | ipad/SidecarDOS/Network/FrameAssembler.swift:42-46 | inside the window nothing expires |
| `Reordering.PollEmits` | ipad/SidecarDOS/Network/FrameAssembler.swift:53-69 | when the next frame is complete a poll hands out it and only it |
| `Reordering.PollStops` | ipad/SidecarDOS/Network/FrameAssembler.swift:54-56 | while the next frame is missing a poll waits and changes nothing |
| `Reordering.ReorderingWindow` | ipad/SidecarDOS/Network/FrameAssembler.swift:20-69 | if at most two consecutive frames are under way and each completes in time, exactly the frames up to the first incomplete one are handed out, in order and unchanged, no loss is recorded, and the window goes on |
| `Reordering.StartCaughtUp` | ipad/SidecarDOS/Network/FrameAssembler.swift:63 | the window may start at a frame handed out with nothing under way |
| `Reordering.StartsBehind` | ipad/SidecarDOS/Network/FrameAssembler.swift:53-69 | the window may start at any frame a poll hands out, with newer frames under way, the next one not being complete |
| `Decoding.H264Decoder.Decode` | ipad/SidecarDOS/Decoder/H264Decoder.swift:50-103 | the gate in front of the hardware decoder, with every outcome of the native calls |
| `Decoding.H264Decoder.Reset` | ipad/SidecarDOS/Decoder/H264Decoder.swift:45-49 | a reset forgets sets and session and waits for an IDR |
| `Decoding.H264Decoder.Completed` | ipad/SidecarDOS/Decoder/H264Decoder.swift:129-137 | a job of an old epoch is ignored; a failed one makes the decoder wait and ask for a keyframe |
| `Decoding.DecodeKeeps` | ipad/SidecarDOS/Decoder/H264Decoder.swift:50-103 | a decoder that does not wait has a session, and a session has both sets |
| `Decoding.InFlightExact` | ipad/SidecarDOS/Decoder/H264Decoder.swift:91-137 | over every run of decoding, completions and resets the in-flight counter is the number of outstanding jobs of its epoch, at most two |
| `Decoding.SkipWithoutWaiting` | ipad/SidecarDOS/Decoder/H264Decoder.swift:61-65 | a unit is dropped without waiting for an IDR exactly on a changed set without an IDR in mid-stream |
| `Decoding.ScanExactly` | ipad/SidecarDOS/Decoder/H264Decoder.swift:54-59 | a scan leaves the sets last seen and tells exactly whether any differed from those stored |
| `Decoding.KeyframeAsked` | ipad/SidecarDOS/Decoder/H264Decoder.swift:50-103 | for which units the decoder asks for a keyframe, and which it submits |
| `Decoding.SessionStaysCurrent` | ipad/SidecarDOS/Decoder/H264Decoder.swift:55-65 | the session stays the one of the sets last seen exactly when sets do not change without an IDR |
| `Decoding.KeyframeRestarts` | ipad/SidecarDOS/Decoder/H264Decoder.swift:60-64 | every repeatable keyframe the host prepares lets a freshly reset decoder start and submit |
| `VideoPath.PreparedKeepsPromise` | windows/host/src/encoder/h264.rs:40-78 | prepared frames flag keyframes truly and bring both sets with each IDR, the sets in force being those the host stores, if the encoder changes sets on IDR units only; an IDR may be the first of a new encoder |
| `VideoPath.NextFollows` | ipad/SidecarDOS/Network/FrameAssembler.swift:56-58 | a delta handed out directly follows the last frame |
| `VideoPath.ChainStep` | ipad/SidecarDOS/Decoder/H264Decoder.swift:50-103 | for each unit handed out the chain goes on from it exactly when the decoder does not skip it silently |
| `VideoPath.SkipBreaks` | ipad/SidecarDOS/Decoder/H264Decoder.swift:63 | after any silent skip the next plain delta is submitted and the chain is broken |
| `VideoPath.SubmitLinks` | ipad/SidecarDOS/Decoder/H264Decoder.swift:50-103 | decoding a frame handed out keeps the chain, and a decoder that does not wait goes by the sets in force |
| `VideoPath.AlwaysDecodable` | ipad/SidecarDOS/App/SessionModel.swift:136-177 | over every run, with generations, job failures and restarts, each unit submitted is an IDR or directly follows, in its generation, the one submitted before, if the sets in force change on IDR units only |
| `BrokenChain.ChainBreaks` | ipad/SidecarDOS/Decoder/H264Decoder.swift:63 | a run of the client, from configuration on, in which three frames in a row come and the middle one, with a changed set, breaks the chain |
| `HostStream.FrameKeepsPromise` | windows/host/src/encoder/mf.rs:140-157 | each frame of the host's stream keeps what decoding relies on, also the first of a new encoder, which has no sets stored |
| `HostStream.StreamDecodable` | windows/host/src/app/runtime.rs:277-282 | from the encoders' units, prepared, numbered on across encoders and cut, to the hardware decoder: over every run each unit submitted is an IDR or directly follows the one before |
| `VideoPath.NeverTraps` | ipad/SidecarDOS/Network/FrameAssembler.swift:56 | over every run with a clock that does not go back, no subtraction of times underflows at any poll |
| `VideoPath.VideoReceiver.HandleDatagram` | ipad/SidecarDOS/App/SessionModel.swift:163-172 | one datagram's bytes: passed over, ending the session, or handled as the fragment they carry, with the keyframe requests of each case |
| `VideoPath.VideoReceiver.HandleFragment` | ipad/SidecarDOS/App/SessionModel.swift:168-177 | one fragment: of another generation it changes nothing; when ingesting throws the session is over and the decoder idle; otherwise the session goes on, and a keyframe is asked for exactly if the assembler then needs one or the decoder asked |
| `VideoPath.VideoReceiver.PollFrames` | ipad/SidecarDOS/App/SessionModel.swift:173-177 | expiry, then every frame that is ready goes to the decoder, then whether a keyframe is wanted, by the assembler or the decoder |
| `VideoLaws.ConsumeLaw` | ipad/SidecarDOS/App/SessionModel.swift:173-177 | a poll feeds the decoder every frame handed out, in order, until none is ready, passes its wish for a keyframe on, and leaves no late assembly |
| `VideoPath.VideoReceiver.HandleConfig` | ipad/SidecarDOS/App/SessionModel.swift:136-146 | a configuration is taken exactly within its limits; taken, it starts a new assembler and streaming, refused it ends the session; either way the decoder is idle |
| `Handshake.SessionModel.Receive` | ipad/SidecarDOS/App/SessionModel.swift:90-162 | the client's packet handler: sequence, session, kind and phase checks, and its answers |
| `Handshake.SessionModel.Pair` | ipad/SidecarDOS/App/SessionModel.swift:104-129 | the client's three pairing phases |
| `Handshake.Control.Send` | windows/host/src/network/mod.rs:50-56 | the host's packets before the session are numbered from 1 |
| `Handshake.Control.Receive` | windows/host/src/network/mod.rs:57-62 | sequence before session, and the guard moves on even if the session is wrong |
| `Handshake.Identity.Trust` | windows/host/src/pairing/mod.rs:98-102 | a record is made in memory, then on disk, unless there are 64 |
| `Handshake.Identity.ForgetAll` | windows/host/src/pairing/mod.rs:103-106 | all records go |
| `HandshakeLaws.HostTakes` | windows/host/src/app/runtime.rs:354-421 | which packet the host takes where it waits, whoever sent it, and the error for each other |
| `HandshakeLaws.HostGoesOn` | windows/host/src/app/runtime.rs:354-533 | what a packet taken changes; only a ping is answered |
| `HandshakeLaws.HostAsks` | windows/host/src/app/runtime.rs:374-394 | a code is drawn for a new client, the recorded secret used for a known one; the challenge carries the nonce drawn |
| `HandshakeLaws.HostRecordsSecret` | windows/host/src/pairing/mod.rs:98-102 | a new client's secret is on record before it is told, or the pairing fails; a known one's stays |
| `HandshakeLaws.HostStarts` | windows/host/src/app/runtime.rs:454-473 | the session starts under the token drawn with the pipeline connected |
| `HandshakeLaws.AlwaysGuarded` | windows/host/src/app/runtime.rs:354-533 | after any packets at all, whoever sent them, the host has taken only a greeting, the answer to its own challenge, capabilities and then packets of the session, in increasing order, and has sent only its own packets in order, its proof and the session only behind the client's proof |
| `HandshakeLaws.ClientTakes` | ipad/SidecarDOS/App/SessionModel.swift:90-162 | which packet the client takes, whoever sent it; one refused changes neither secret nor session |
| `HandshakeLaws.ClientGoesOn` | ipad/SidecarDOS/App/SessionModel.swift:90-162 | what a packet taken changes and what is answered |
| `Sessions.StepKeeps` | windows/host/src/app/runtime.rs:354-421 | one step of either end, a cut, a restart or a forgotten host keeps the exchange in order |
| `Sessions.AlwaysFine` | windows/host/src/app/runtime.rs:354-533 | so it is after every run, in every interleaving |
| `Sessions.NeverRejected` | windows/host/src/app/runtime.rs:354-533 | but for a second proof, no end ever refuses the other's sequence number, session, kind, phase or proof, on the control and the input stream, whatever number of times the code is entered; the host's two counters give one increasing stream |
| `Sessions.InputTaken` | windows/host/src/app/runtime.rs:519-525 | which packets of the input stream are taken, and the error for each other |
| `Sessions.SecondProofDecides` | ipad/SidecarDOS/App/SessionModel.swift:81-89 | in every run the host refuses a kind exactly when it has read a second proof, then no session ever starts, and on its third packet it goes on to the session exactly when that is not one |
| `Sessions.MutualProof` | windows/host/src/app/runtime.rs:403-421 | capabilities are sent only after the host's proof was verified, and the pipeline is connected only after the client's was, both with one key and nonce |
| `Progress.SessionReached` | windows/host/src/app/runtime.rs:354-473 | from every reachable state in which neither end has given up, the code was not entered twice and there is room for the record, at most 18 more steps lead to the session |
| `Sessions.PairingPersists` | ipad/SidecarDOS/App/SessionModel.swift:116-127 | wherever connections are cut, a secret the client has saved is the one the host has in memory and on disk |
| `Sessions.FreshPairing` | windows/host/src/pairing/mod.rs:98-102 | a fresh pairing, also after a cut one, makes both secrets equal exactly when the host has fewer than 64 records |
| `Sessions.LimitReached` | windows/host/src/pairing/mod.rs:98-102 | after 64 first pairings, each cut, a client that is on record cannot pair again |
| `Slots.Newest` | windows/host/src/app/runtime.rs:286-292 | the slot chosen holds the highest number among those not yet taken |
| `Slots.StepKeeps` | windows/host/src/app/runtime.rs:286-304 | every single step of driver or host keeps keys, holders, pixels and published numbers in agreement |
| `Slots.AlwaysOk` | windows/driver/Driver.cpp:302-356 | so they are in agreement after every interleaving |
| `Slots.SubmittedExactly` | windows/host/native/gpu.cpp:328-383 | in every interleaving the number submitted with a texture is that of its pixels, and the numbers strictly increase |
| `Slots.TakingNeverFails` | windows/host/native/gpu.cpp:332-339 | a texture unread in the snapshot is never busy: taking it does not time out |
| `Slots.EveryFrameOnce` | windows/driver/Driver.cpp:302-356 | each captured frame is in exactly one place: dropped, discarded, skipped, submitted, in a texture or with the worker |
| `SlotLaws.DroppedBusy` | windows/driver/Driver.cpp:343-356 | in every interleaving a frame is dropped only after each of the three textures was busy when the worker tried it for that frame |
| `SlotLaws.HostDecides` | windows/host/src/app/runtime.rs:286-304 | in every interleaving what the host takes is discarded exactly if its snapshot held a newer frame not taken, skipped exactly if not and there is no room, and else submitted under its number |
| `SlotLaws.LeavesOnlyThere` | windows/host/native/gpu.cpp:328-344 | frames leave the handoff in no other way |
| `Slots.HostEach` | windows/host/native/gpu.cpp:62-71 | the host's steps on one texture keep its key protocol |
| `Slots.DriverEach` | windows/driver/Driver.cpp:343-356 | the driver's steps on one texture keep its key protocol |
| `Injection.Injector.HandleEvent` | windows/host/src/input/win.rs:30-41 | one event: flags checked, then by kind; a rejected one sends and changes nothing |
| `Injection.Injector.HandleTouch` | windows/host/src/input/win.rs:42-95 | one touch event and the batch it sends |
| `Injection.Injector.HandleMouse` | windows/host/src/input/win.rs:133-177 | one mouse event: movement, changed buttons, wheels |
| `Injection.Injector.HandleKey` | windows/host/src/input/win.rs:197-234 | one key event: modifiers brought in line, then the key, as `InjectionLaws.KeyLaw` tells |
| `Injection.Injector.ReleaseEverything` | windows/host/src/input/win.rs:235-255 | everything held is let go |
| `Injection.TouchBatch` | windows/host/src/input/win.rs:83-110 | a batch lists exactly the contacts down and at most a new one, and only the event's own contact goes down or up |
| `Injection.TouchAgrees` | windows/host/src/input/win.rs:42-95 | after a touch the system holds exactly the injector's contacts |
| `Injection.MouseAgrees` | windows/host/src/input/win.rs:133-177 | after a mouse event the system's buttons are the injector's |
| `Injection.KeyboardAgrees` | windows/host/src/input/win.rs:197-234 | after a key event the system's keys are the injector's |
| `Injection.ScanCodes` | windows/host/src/input/mod.rs:6-66 | only the eight modifier usages map to a modifier's code |
| `Injection.ModifiersFollowMask` | windows/host/src/input/win.rs:201-221 | after a key event each modifier but the key's own is held exactly when the event says so |
| `Injection.ReleasedAll` | windows/host/src/input/win.rs:235-255 | releasing leaves nothing held down |
| `Injection.AlwaysAgrees` | windows/host/src/input/win.rs:30-255 | after every run of accepted and rejected events and releases the injector's account is what the system holds |
| `InjectionLaws.EventLaw` | windows/host/src/input/win.rs:30-41 | flags out of range and unknown kinds are refused; a key without a scan code does nothing |
| `InjectionLaws.KeyLaw` | windows/host/src/input/win.rs:197-234 | after a key event the system holds the key exactly if it is pressed, the modifiers as the mask says, every other key as before, and the key's own packet came last |
| `InjectionLaws.TouchLaw` | windows/host/src/input/win.rs:42-95 | the four refusals of a touch event exactly, and where each contact of the batch and each one left is: only the event's own has moved |
| `InjectionLaws.MouseLaw` | windows/host/src/input/win.rs:133-177 | the refusals of a mouse event exactly, and what is sent: the move, the buttons that differ, the wheels, in this order; the event's buttons are taken |
| `Touches.FreeFrom` | ipad/SidecarDOS/Input/DisplaySurface.swift:51-52 | the id given is the lowest free one below ten |
| `Touches.InputView.Touch` | ipad/SidecarDOS/Input/DisplaySurface.swift:37-59 | one touch: contact id taken, used or given back, and the event sent, if the picture is not empty |
| `Touches.TouchSeenLaw` | ipad/SidecarDOS/Input/DisplaySurface.swift:48-59 | which touches take an id, the lowest free one, which tell of themselves and how, and which give their id back |
| `Touches.StepKeeps` | ipad/SidecarDOS/Input/DisplaySurface.swift:37-95 | one act of the user keeps view and injector in agreement; letting go takes the contacts in any order |
| `Touches.TouchesAccepted` | windows/host/src/input/win.rs:52-62 | for every legal history of touches, ids stay distinct and below ten, are the injector's contacts, and no touch event is refused |
| `Touches.EndOnPicture` | ipad/SidecarDOS/Input/DisplaySurface.swift:55-57 | a touch that ends gives its contact back exactly if the picture is not empty |
| `Edid.Monitor.MakeEdid` | windows/driver/Driver.cpp:121-162 | the buffer filled byte by byte is the description of the modes |
| `Edid.Parse` | windows/driver/Driver.cpp:425-444 | the reading of a description, four timings at most, with its errors |
| `Edid.NoOverflow` | windows/driver/Driver.cpp:163-176 | no 32-bit product overflows for an accepted mode, and its clock is nonzero and fits 16 bits |
| `Edid.RateExact` | windows/driver/Driver.cpp:441 | the truncated clock is off by less than 0.06 Hz, so rounding restores the rate |
| `Edid.RoundTrip` | windows/driver/Driver.cpp:121-176 | every accepted list of modes is read back exactly, rates and order included |
| `Edid.ChecksumZero` | windows/driver/Driver.cpp:158-161 | all 128 bytes add up to 0 modulo 256 (VESA E-EDID, section 3.11) |
| `Edid.DescriptionLayout` | windows/driver/Driver.cpp:121-162 | the description byte by byte: header, identity, version, and the fixed bytes of each timing |
| `Edid.ParseExactly` | windows/driver/Driver.cpp:425-444 | which descriptions are read, and that the modes are those of the timings in use, in order, each with the nearest whole rate |
| `Pipeline.PipelineThread.RunTurn` | windows/host/src/app/runtime.rs:76-322 | one turn of the loop, errors handled |
| `Pipeline.PipelineThread.HandleConnect` | windows/host/src/app/runtime.rs:88-116 | a connection: whether it is accepted, and whether a monitor is started |
| `Pipeline.PipelineThread.HandleDisconnect` | windows/host/src/app/runtime.rs:117-132 | a disconnection: at once, or into grace, as `PipelineLaws.DisconnectLaw` tells |
| `Pipeline.PipelineThread.HandleMode` | windows/host/src/app/runtime.rs:138-171 | a mode change: which restart the monitor |
| `Pipeline.PipelineThread.Encode` | windows/host/src/app/runtime.rs:224-285 | encoder creation and the numbering of frames |
| `Pipeline.TurnSound` | windows/host/src/app/runtime.rs:76-322 | every turn, failed or not, keeps the life cycle's invariant |
| `Pipeline.AlwaysSound` | windows/host/src/app/runtime.rs:76-329 | after every run of turns there is a monitor exactly when the state is not idle; encoder implies input implies streaming implies an open driver; frames are numbered without a gap |
| `Pipeline.NoMonitorAtEnd` | windows/host/src/app/runtime.rs:324-328 | whatever ends the thread, no monitor is left |
| `Pipeline.StartsForOwner` | windows/host/src/app/mod.rs:13-19 | while a device has the session, no monitor is started for another |
| `Pipeline.OtherDeviceRefused` | windows/host/src/app/mod.rs:13-30 | a connection of another device during grace starts no monitor for it and ends the reservation |
| `Pipeline.SameDeviceKeepsMonitor` | windows/host/src/app/runtime.rs:93-101 | the same device with the same modes during grace issues no START and no STOP |
| `Pipeline.ModesCurrent` | windows/host/src/app/runtime.rs:153-166 | the monitor shows the modes the pipeline goes by exactly unless a mode change with a new rate is taken during grace |
| `Pipeline.AlwaysCurrent` | windows/host/src/app/runtime.rs:76-329 | so it does over every run without such a turn |
| `Pipeline.StaleMonitor` | windows/host/src/app/runtime.rs:88-166 | a run in which a device comes back with the modes the pipeline goes by and keeps a monitor that has others |
| `PipelineLaws.QuietLaw` | windows/host/src/app/runtime.rs:173-322 | a turn without a command: grace that is over ends the session with one STOP, and streaming goes on, encodes at most four frames, or gives up, each exactly when |
| `PipelineLaws.InputLaw` | windows/host/src/app/runtime.rs:133-137 | input goes on unless the injector fails |
| `PipelineLaws.ShutdownLaw` | windows/host/src/app/runtime.rs:324-328 | the end of the thread stops and closes the driver |
| `PipelineLaws.DisconnectLaw` | windows/host/src/app/runtime.rs:117-132 | an immediate disconnection ends the session with one STOP; one that is not keeps the monitor, asks nothing, and reserves it for the device until the grace given is over |
| `PipelineLaws.ConnectLaw` | windows/host/src/app/runtime.rs:88-116 | when a connection is taken, when a START is asked for and with which modes, and what is given up if it is not taken |
| `PipelineLaws.ModeLaw` | windows/host/src/app/runtime.rs:138-171 | which mode changes end the session, change nothing, or set every mode's rate, and when the monitor is restarted with them |
| `Topology.Reconciler.Changed` | windows/host/src/topology/mod.rs:65-75 | a reported change, ignored within 750 ms of a failure |
| `Topology.Reconciler.Ready` | windows/host/src/topology/mod.rs:76-78 | when an attempt is due |
| `Topology.Reconciler.Result` | windows/host/src/topology/mod.rs:79-86 | the outcome of an attempt |
| `Topology.AttemptExactly` | windows/host/src/topology/mod.rs:64-87 | in every run, told from what happened before: when a look makes an attempt (200 ms after a change, 750 ms after a failure, fewer than three failures) and when a change is accepted |
| `Topology.AlwaysSpaced` | windows/host/src/topology/mod.rs:64-87 | over every run, the retry counter is the number of failures since the last accepted change and failures are spaced |
| `Topology.WindowBounded` | windows/host/src/topology/mod.rs:79-86 | failures 750 ms apart are at most T / 750 + 1 in a window of T ms |
| `Topology.RetryRate` | windows/host/src/topology/mod.rs:64-87 | an attempt after a failure comes at least 750 ms later; at most three fail between accepted changes; a window of T ms holds at most T / 750 + 1 failures |

## Left out

- QUIC, TLS, multicast discovery, sockets, DPAPI, the keychain and file writes: they appear as ordered or lossy channels and as persistent maps whose writes may fail.
- HMAC-SHA256 and the certificate in it: proofs are equal only if made from equal keys, clients, nonces and roles; the certificate is the connection's own on both ends.
- Identity lengths, client names, protocol major versions other than 1, and the range checks on display sizes in `SessionStart` and `VideoConfig`: the exchange is modelled for honest ends, whose values are in range.
- Timeouts of the handshake and of writes: a timeout is a cut, and a cut may happen at any step.
- `--forget-devices`: `Identity.ForgetAll` is verified, but runs of `Sessions` do not use it, since it removes the host's half of a pairing.
- Direct3D, Media Foundation, IddCx, VideoToolbox and Metal: only their effect on keys, textures, jobs in flight and sessions; a failing copy, blit or `ReleaseSync` ends the model's run.
- Refresh-rate commits, resizing in place and reconnecting while a worker lives: they can leave stale slot numbers, and `Slots` starts with cleared slots and one registration of the textures.
- `SendInput` or pointer injection that fails part-way, and replacing the injector during a touch: `Injection` is about injection that succeeds.
- Mapping of normalized positions to pixels and of pixels to the virtual desktop: positions come with the event, already mapped.
- Hover, scrolling and trackpad touches of the client: they are events of another kind in `Touches`, which the injector accepts or refuses without touching contacts.
- Rounding of IEEE arithmetic in the refresh rate: the quotient is taken over the reals, and the margin of 0.44 is far above the error of a double.
- Mode selection, adaptive bitrate, clock offset, statistics, configuration and the tray: easy members or floating point.
- The choice of display placement itself: `Topology` is about when it is tried, `Pipeline` takes its outcome as given.
- The clock's 64-bit overflow and the session counters' 64-bit overflow.
- Assembly.FrameAssembler.Next: requires that the clock is no earlier than the arrival of a complete delta behind a gap, where the source's unsigned subtraction would trap; `VideoPath.NeverTraps` proves it over runs.
- VideoPath.AlwaysDecodable: assumes that the encoder changes parameter sets on IDR units only, which `VideoPath.SkipBreaks` shows to be needed; that each IDR brings both sets is proved of the host's stream in `HostStream`, which takes of an encoder that it starts with an IDR and that its repeated sets are scanned back.
- VideoPath.VideoReceiver.PollFrames: the limit of one keyframe request per 200 ms and the counters behind the statistics.
- Sessions.NeverRejected: assumes that a code entered is the one displayed, and that a fresh session token is not all zeros.
- HandshakeLaws.HostTakes: the in-session request for another display mode, which the shipped client never sends; `Pipeline.PipelineThread.HandleMode` is what becomes of it.
- Handshake.SessionModel.Receive: the exact sizes of identities, nonces and secrets, the ranges in `SessionStart` and `EncoderCapabilities`, and the host's error message, which ends the session like any other refusal.
- Handshake.SessionModel.Pair: the sizes of nonce and secret, which are always 32 bytes between honest ends.
- Handshake.Control.Send: the size limit, which no message of the exchange reaches, and the write timeout, which is a cut.
- Touches.TouchesAccepted: assumes that the picture is not empty; on an empty one a touch that ends keeps its contact (`Touches.EndOnPicture`).
- Edid.Parse: the conversion of modes to the operating system's records, the output counts and the buffer-size answers.
- Pipeline.PipelineThread.RunTurn: the slot scan is `Slots`, the retries are `Topology`; keyframe and rate flags and the encoder's outputs are answers given with the turn.
- Pipeline.PipelineThread.HandleMode: the mode request to the placement code, the report to the reconciler and the keyframe flag.
- Datagrams.SendFrame: what becomes of a queued datagram is left to the channel of `Delivery`.
