# Droppix, verified

Droppix turns a tablet, a phone or a browser into a monitor. This project models the parts of it
that hold real logic and proves what they are for. Each module stands for one component:

- **Framing** (`MessageParser`, `KotlinParser`, `Hello`): the length-prefixed messages of the
  native protocol, the two incremental parsers and the three HELLO codecs.
- **WebSocket tunnel** (`WsFrames`, `WsStream`, `WsChannel`, `WsTunnel`, `WebPin`): the byte
  channel carried in WebSocket frames over TLS, and web pairing, which reads part of the stream
  with a parser of its own and then hands the channel over.
- **Input** (`MtSlots`, `Evdev`, `TouchReplay`, `TapGesture`, `InputInjector`): contacts turned
  into kernel events. `Evdev` is the other side: strict machines for a multi-touch panel (Linux
  multi-touch protocol, type B) and a pen tablet that refuse events out of order.
- **Video** (`SendBacklog`, `StreamLoop`, `VideoPipeline`, `AnnexB`, `Fmp4`, `MsePipeline`): the
  host's frame loop, the browser's decoder pipeline, and the media-segment muxer with a box
  reader (ISO/IEC 14496-12) that takes its output apart again.
- **Audio** (`AudioStreamer`, `PcmPlayer`): the bounded queue at the host and the ring buffer in
  the browser.
- **Displays and sessions** (`Cvt`, `Edid`, `AutoConnect`, `AoaPresence`, `Spacedesk`): mode
  timings and the EDID block that advertises them, which tablets to connect and when one is gone,
  and the spacedesk protocol.

Objects that change state in place are classes whose methods are proved against functions; the
properties are then lemmas about those functions, or methods that run a whole schedule of
operations on the real object. Everything the outside world decides (how bytes arrive, what a
decoder does, when a link breaks) is a parameter, so a theorem about a run is about every run.

## Where the code falls short of its description

For each point the first member named states exactly when the description holds; the others are
inputs on which it does not.

- A WebSocket header field that straddles two TLS records is a short read, and the frame is lost
  with everything after it (`WsTunnel.TunnelIsIdentity`, `WsTunnel.SplitHeader`).
- Messages are encoded without an upper bound, while the parsers cap them at 64 MiB
  (`Framing.MessageRoundTrip`) and the web channel at 16 MiB (`WsStream.SplitEncoded`,
  `WsTunnel.TooLongRefused`).
- The HELLO encoders are described as byte-identical. The browser's writes the host's bytes from
  version 5 on (`HelloCodec.WebMatchesHost`, `HelloCodec.WebHelloV4`), the Android one for
  versions below 2^31 (`HelloCodec.KotlinMatchesHost`, `HelloCodec.KotlinHelloNegative`).
- The right click of a tap is placed on the monitor, except that the far end of the range is one
  pixel beyond it unless the desktop ends there (`Injector.ClickOnMonitor`).
- An unplugged serial is described as reported at most once; if it stays tracked it is reported
  again after every further run of misses of the same length (`AoaPresence.Presence.Update`,
  `AoaPresence.ReportedTwice`).
- Media segments are described as gapless; they overlap wherever a frame is not later than the
  one before it (`MsePipelines.Gapless`, `MsePipelines.SameTimeOverlaps`). Playback waits for a
  keyframe, but the first frame played is one only if the keyframe carries more than parameter
  sets (`MsePipelines.FirstIsKeyframe`, `MsePipelines.DeltaFirst`).
- The spacedesk client drops everything it has buffered at an oversize length, so what it then
  sees depends on how the stream was cut (`Spacedesk.ChunkIndependence`, `Spacedesk.TwoCuts`).
- An odd number of samples in an audio chunk makes the browser's frame counter lag by half a
  frame for good, so later prebuffers are longer (`PcmPlayers.PcmPlayer.Process`,
  `PcmPlayers.OddChunkWaits`).
- Auto-connect is described as preferring the cable, but it counts keys that start with
  `usb-adb:` as network keys, so it stops a working adb session of a tablet that is also listed
  as an accessory (`AutoConnect.CableSessionsStay`, `AutoConnect.AdbSessionStopped`).

## Model

| member | source | states |
|---|---|---|
| `Framing.MessageParser.Feed` | host/src/protocol.cpp:41-43 | fed bytes are appended to what is still undecided, and nothing else changes |
| `Framing.MessageParser.Next` | host/src/protocol.cpp:45-62 | one call skips malformed length words and delivers or waits exactly as the specification of one step says; compaction is invisible, and after a delivery at most 64 KiB of consumed prefix is kept |
| `Framing.AdvanceParse` | host/src/protocol.cpp:45-62 | what one call delivers is the first message of the one-shot parse of the buffer, what it leaves parses to the others |
| `Framing.ParseAppend` | host/src/protocol.cpp:41-62 | bytes that arrive late extend the parse and never change what was decided, malformed lengths included |
| `Framing.RunSchedule` | host/src/protocol.cpp:41-62 | for every interleaving of feed and next, each call delivers what the step specification says, and what was delivered and what is buffered mean exactly the one-shot parse of everything fed |
| `Framing.Drain` | host/src/transport_server.cpp:154-155 | draining until nothing comes delivers the whole parse and keeps its undecided tail |
| `Framing.ParseRestIsDone` | host/src/protocol.cpp:48-54 | the undecided tail holds no further message |
| `Framing.ParsedFits` | host/src/protocol.cpp:46-50 | no delivered message is over the 64 MiB cap |
| `Framing.MessageRoundTrip` | host/src/protocol.cpp:31-39 | an encoded message followed by any bytes reads back as that message exactly when type and body fit the cap |
| `Framing.StreamRoundTrip` | host/src/protocol.cpp:31-62 | a list of encoded messages followed by any bytes reads back as the list, then the rest |
| `Framing.OnWire` | host/src/protocol.cpp:31-39 | on the wire a message is its length in four bytes, most significant first, type included, then type and body |
| `Framing.BadWordSkipped` | host/src/protocol.cpp:48-54 | a length of 0 or over 67108864 costs its four bytes and nothing else; any other waits for its whole message |
| `KotlinFraming.KotlinParser.Next` | android/app/src/main/java/com/droppix/app/protocol/Protocol.kt:158-174 | with signed lengths, one call skips malformed words and unknown types exactly as the host's step plus a type filter |
| `KotlinFraming.AdvanceKnownParse` | android/app/src/main/java/com/droppix/app/protocol/Protocol.kt:158-174 | what one call delivers is the first known message of the host's parse |
| `KotlinFraming.RunKnownSchedule` | android/app/src/main/java/com/droppix/app/protocol/Protocol.kt:149-175 | for every interleaving of feed and next, each call delivers what its step specification says, and what was delivered and what is buffered mean exactly the host's parse of everything fed, without the types outside 1..17 |
| `KotlinFraming.RunBoth` | android/app/src/main/java/com/droppix/app/protocol/Protocol.kt:149-175 | fed the same chunks, the Android parser delivers the host parser's messages without the types outside 1..17 and holds the same undecided bytes |
| `KotlinFraming.KnownKinds` | android/app/src/main/java/com/droppix/app/protocol/Protocol.kt:3-16 | the types kept are 1 to 17 and no others |
| `WsFrames.MaskTwice` | host/src/ws_channel.cpp:100-102 | unmasking with the same key undoes masking, for every payload and key (RFC 6455 section 5.3) |
| `WsFrames.XorIsBitwise` | host/src/ws_channel.cpp:100-102 | the operation is exclusive or: every bit of the result is the sum of the two bits modulo 2 |
| `WsFrames.MaskIsBitwise` | host/src/ws_channel.cpp:100-102 | bit k of masked byte i is that bit of byte i combined with that bit of key byte i modulo 4 (RFC 6455 section 5.3) |
| `WsTunnel.MaskedOnWire` | host/src/ws_channel.cpp:71-102 | a short masked frame, byte by byte: flags and opcode, 128 plus the length, the key, then every payload byte combined with its key byte |
| `WsTunnel.LongOnWire` | host/src/ws_channel.cpp:34-47 | the header of a long binary frame, byte by byte: 126 and two length bytes up to 65535, 127 and eight above |
| `WsFrames.ReadBack` | host/src/ws_channel.cpp:71-129 | the reader recovers a frame, masked or not, exactly when no header field is split between two TLS records; otherwise it fails in the middle of the frame |
| `WsFrames.LengthIsMinimal` | host/src/ws_channel.cpp:34-44 | no header announcing the same payload length is shorter than the one written (RFC 6455 section 5.2) |
| `WsStream.TunnelOfFrames` | host/src/ws_channel.cpp:71-184 | for any list of data frames, pings and pongs, masked or not: the reader stays in step to the end exactly when no header is split between records, and then delivers exactly the encoded messages the frames carry |
| `WsStream.PullCarries` | host/src/ws_channel.cpp:149-173 | reading on until application data comes skips nothing but control frames: what the stream brings is what was read and what comes after it |
| `WsStream.SplitAppend` | host/src/ws_channel.cpp:49-69 | where the outgoing bytes are cut between calls makes no difference to the frames |
| `WsStream.SplitEncoded` | host/src/ws_channel.cpp:49-69 | an encoded message stream is cut into exactly its payloads, none refused, exactly when every message fits a frame |
| `WsChannels.WsChannel.SslWriteAll` | host/src/ws_channel.cpp:17-25 | everything handed over reaches the link up to its capacity, and the result says whether all of it did |
| `WsChannels.WsChannel.SendBinary` | host/src/ws_channel.cpp:27-47 | header and payload go out as one frame, the serialization of an unmasked binary frame |
| `WsChannels.WsChannel.SendAll` | host/src/ws_channel.cpp:49-69 | every complete payload of the accumulator goes out as one frame and the rest is kept; a refused length or a failed write closes the channel, and a closed channel sends nothing |
| `WsChannels.WsChannel.ReadFrame` | host/src/ws_channel.cpp:71-129 | one frame is read exactly as the specification says: pings are answered, data is buffered behind its length prefix, a close frame closes |
| `WsTunnel.ReadOne` | host/src/ws_channel.cpp:71-129 | on a real channel, by opcode: 8 closes, buffers nothing and sends nothing; 9 with up to 125 bytes sends those bytes back under opcode 10; a fragment is refused; an unfragmented 0 or 2 buffers its payload behind its length, if there is one; all others do nothing, and whatever it is the whole frame is consumed |
| `WsTunnel.PongIsFrame` | host/src/ws_channel.cpp:107-114 | the pong is the serialization of an unmasked frame of opcode 10 with the payload of the ping |
| `WsChannels.WsChannel.WaitReadable` | host/src/ws_channel.cpp:131-158 | says yes exactly when reading on brings application data, and stands exactly where the specification says; a yes, and any wait in step, loses and adds nothing of what is to come |
| `WsTunnel.RecordByRecord` | host/src/ws_channel.cpp:131-158 | between records nothing is read without a wake-up; a wake-up by a control frame alone in its record ends right behind it, with no data |
| `WsChannels.WsChannel.Recv` | host/src/ws_channel.cpp:160-184 | hands over a non-empty prefix, no longer than asked, of the bytes to come and leaves exactly the rest, whatever the peer sends later |
| `WsTunnel.SendInChunks` | host/src/ws_channel.cpp:49-69 | for every list of messages and every split of its encoding into calls, one frame per message goes out, in order, and nothing is left over |
| `WsTunnel.ReceiveAll` | host/src/ws_channel.cpp:131-184 | waiting and reading until the stream ends or is closed delivers all of it, for all sizes asked for and any control frames and wake-ups |
| `WsTunnel.ReceiveSome` | host/src/ws_channel.cpp:131-184 | any run of waits and reads of any sizes delivers the incoming stream from its start and leaves exactly the rest; while something is left, every turn delivers a byte or reads on past control frames |
| `WsTunnel.TunnelIsIdentity` | host/src/ws_channel.cpp:27-184 | what the channel writes for a list of messages reads back as their encoding, and the message parser recovers the list, exactly when the division into TLS records splits no frame header |
| `WsTunnel.ThereAndBack` | host/src/ws_channel.cpp:27-184 | on real channels and a real parser: the messages delivered are those sent, for every chunking of the sends, every division into records that splits no header, and all receive sizes |
| `WsTunnel.FromClient` | host/src/ws_channel.cpp:71-184 | the frames of a client, masked or not, with pings and pongs among them, deliver exactly the messages they carry |
| `WsTunnel.CloseEnds` | host/src/ws_channel.cpp:103-106 | the stream ends at a close frame, in step: the frames before it are delivered, nothing after it is |
| `WsTunnel.UntilClose` | host/src/ws_channel.cpp:71-184 | on a real channel with a real parser: the messages of the frames before a close frame are delivered, all of them and no others, whatever follows it and for all receive sizes |
| `WsTunnel.BrowserSees` | web/src/protocol.ts:79-83 | a browser, which sees frames and not records, gets one payload per message sent and reads exactly that message from it |
| `WsTunnel.SplitHeader` | host/src/ws_channel.cpp:72-73 | a record that ends between the two bytes of the first header: everything is lost |
| `WsTunnel.TooLongRefused` | host/src/ws_channel.cpp:56-59 | a message of one byte over 16 MiB, type byte included, is refused |
| `WsTunnel.LongestSent` | host/src/ws_channel.cpp:53-65 | a message of exactly 16777216 bytes, type included, is still sent as one payload; an empty one is refused |
| `WsTunnel.TooLongUnread` | host/src/ws_channel.cpp:84-87 | a frame that announces 16777217 bytes is refused after its header |
| `WebPairing.PinMatches` | host/src/web_pin.h:31-37 | the difference accumulated over all characters is zero exactly for equal codes |
| `WebPairing.OrIsBitwise` | host/src/web_pin.h:34-36 | what the comparison accumulates with is inclusive or, bit by bit |
| `WebPairing.TakeMessage` | host/src/web_frontend.cpp:199-200 | a message taken from the private parser empties parser and channel buffer together |
| `WebPairing.Receive` | host/src/web_frontend.cpp:213-216 | receiving moves bytes from the channel to the parser and changes nothing else; it fails exactly when the channel brings no application data |
| `WebPairing.VerifyWebPin` | host/src/web_frontend.cpp:193-219 | whatever the peer sends: success only on one of the first five codes; each code gets its reply, [0, tries left] or [1, 0], and nothing else is sent; on success parser and channel stand empty at a frame boundary right after the accepted code; it gives up only on the flag, a closed channel, the fifth wrong code, the end of what can be read, or a wait that brought at most control frames |
| `WebPairing.RepliesInBytes` | host/src/web_frontend.cpp:204-216 | the reply to try i is the frame 82 03 15 followed by 01 00 for the right code, and 00 and 4 - i for a wrong one; only messages of type 20 are tries |
| `WebPairing.SettingsInBytes` | host/src/web_frontend.cpp:316-332 | a blob of 1 to 8192 bytes is sent as it is under type 22, any other as the two bytes {} |
| `WebPairing.SendSettings` | host/src/web_frontend.cpp:316-332 | the settings frame carries the stored blob, or {} when there is none or it is too large |
| `WebPairing.ReadHello` | host/src/transport_server.cpp:104-122 | the first HELLO of the stream is returned, everything before it skipped, everything after it kept; without one, the channel closed, all there was to read has been read, or a wait brought at most control frames and nothing is lost |
| `WebPairing.Session` | host/src/web_frontend.cpp:304-335 | pairing, settings and HELLO on one connection: the HELLO that starts the session is the first after the accepted code, although another parser read the code; each code got its reply and the accepted one the settings, and nothing else was sent; without a HELLO one of the named reasons holds |
| `HelloCodec.HelloRoundTrip` | host/src/protocol.cpp:64-116 | decoding inverts encoding for every version, later fields reading as 0, exactly when both strings are shorter than 65536 bytes |
| `HelloCodec.TruncatedHello` | host/src/protocol.cpp:83-116 | every truncation that keeps 16 bytes decodes to exactly the fields that are whole in it, by byte position, and the sentinels of the others |
| `HelloCodec.KotlinMatchesHost` | android/app/src/main/java/com/droppix/app/protocol/Protocol.kt:26-65 | the Android encoder writes the host's bytes exactly for versions that are not negative as a signed Int |
| `HelloCodec.KotlinHelloNegative` | android/app/src/main/java/com/droppix/app/protocol/Protocol.kt:50-60 | version 0x80000000: the two encoders differ |
| `HelloCodec.WebMatchesHost` | web/src/protocol.ts:85-120 | the browser's encoder writes the host's bytes exactly from version 5 on |
| `HelloCodec.WebHelloV4` | web/src/protocol.ts:102-118 | a version 4 HELLO of the browser: the host reads neither name nor id |
| `TouchSlots.MtSlots.Update` | host/src/mt_slots.cpp:6-37 | slots of vanished ids are released, every other contact keeps its slot or gets the lowest free one, or is dropped |
| `TouchSlots.PlaceKeeps` | host/src/mt_slots.cpp:25-35 | placing never moves an id that has a slot, gives slots only to ids of the contacts, and passes one over only when all slots are taken |
| `TouchSlots.SlotsPerId` | host/src/mt_slots.cpp:18-19 | distinct ids sit in distinct slots |
| `TouchSlots.HeldContacts` | host/src/mt_slots.cpp:6-37 | as many ids are held as are down, up to the budget, so none is dropped while they fit; surviving ids keep their slot |
| `TouchReplay.ReplayOne` | host/src/input_injector.cpp:116-122 | the events of one contact, replayed on the kernel's slot machine, are in order and leave its slot holding exactly this contact |
| `TouchReplay.ReplayUpdate` | host/src/input_injector.cpp:107-132 | the delta events of one update, replayed, leave one active slot per accepted id with that id's last report, the touch button down exactly when there are contacts, and the first contact as the single-touch pointer |
| `TouchReplay.OneReport` | host/src/input_injector.cpp:107-132 | an update carries exactly one report event, and it comes last |
| `Evdev.PanelRefuses` | host/src/input_injector.cpp:107-132 | the panel the events are replayed on refuses exactly: a contact begun where one is, ended or moved where none is, a touch button that does not change, and events of other devices |
| `Evdev.TabletRefuses` | host/src/input_injector.cpp:219-236 | the tablet refuses exactly a tool that enters where one is, a tool that leaves and is not the one there, and events of other devices |
| `TapGesture.TwoFingerTap.Update` | host/src/tap_gesture.cpp:6-45 | an all-up update is a right click exactly when the history specification says so; no other update is one |
| `TapGesture.TwoFingerTap.TrackMovement` | host/src/tap_gesture.cpp:19-27 | straying is noticed exactly when some report of an id is over 2500 away, on either axis, from that id's first report |
| `TapGesture.RunIsMaximal` | host/src/tap_gesture.cpp:9-16 | the run judged is the maximal run of non-empty updates that ends the history |
| `TapGesture.Peak` | host/src/tap_gesture.cpp:17 | the peak is the largest number of contacts ever down together in the run |
| `TapGesture.LastPairMeaning` | host/src/tap_gesture.cpp:29-33 | the pair that places the click is that of the last update with exactly two contacts |
| `TapGesture.VerdictMeaning` | host/src/tap_gesture.cpp:29-45 | a right click is: a run that peaked at two contacts, strayed nowhere and lasted at most 400 ms; its place is the midpoint of the last two contacts seen together, rounded down |
| `TapGesture.NearMeaning` | host/src/tap_gesture.cpp:23-25 | staying put is at most 2500 either way on each axis |
| `Injector.InputInjector.Inject` | host/src/input_injector.cpp:107-137 | after every update the kernel's panel shows exactly the contacts held, each at its last report, and a click is logged exactly for a finished two-finger tap |
| `Injector.InputInjector.EventsOf` | host/src/input_injector.cpp:112-132 | the emission loops write the events of the update, in order |
| `Injector.InputInjector.RightClickAt` | host/src/input_injector.cpp:184-193 | a pointer fed the log has been clicked once more, at the place of the tap, with the button up before and after, if the pointer device and a monitor exist, and not otherwise |
| `Injector.ReplayTap` | host/src/input_injector.cpp:184-193 | replayed on a pointer at rest, the events of a tap press and release once, at the place of the tap |
| `Injector.ClickReports` | host/src/input_injector.cpp:184-193 | the move, the press and the release of a click are three separate reports, in this order |
| `Injector.ScaleOrder` | host/src/input_injector.cpp:175-182 | a click is always on the desktop, and further along the monitor is further along the desktop |
| `Injector.Clicks` | host/src/input_injector.cpp:175-193 | there is a click exactly for a tap with a pointer device and a monitor of some size; each of its coordinates is placed along its own axis, by that axis's offset, size and desktop |
| `Injector.ScalePlaces` | host/src/input_injector.cpp:175-182 | the place along an axis is the largest p with (p - offset) * 65535 at most v * size, moved onto the desktop, and there is only one such place |
| `Injector.MiddleOfSecondMonitor` | host/src/input_injector.cpp:175-193 | the middle of the right one of two 1920x1080 monitors is at 2880, 540 |
| `Injector.ClickOnMonitor` | host/src/input_injector.cpp:175-182 | for a monitor inside the desktop, 0 is its first pixel, and a click is on the monitor exactly unless it is at 65535 on a monitor with desktop beyond it |
| `Injector.InputInjector.StylusSample` | host/src/input_injector.cpp:219-236 | the tool enters on the down edge and the same tool leaves on the up edge; the tablet shows the sample |
| `Injector.ReplaySample` | host/src/input_injector.cpp:219-236 | replayed on a tablet in step, the events of one sample are in order whatever the eraser flag does in mid-stroke |
| `Injector.PenReports` | host/src/input_injector.cpp:219-236 | a sample ends in a report event, and a tool that leaves does so after it, in a report of its own |
| `Injector.EraserIsRubber` | host/src/input_injector.cpp:219-236 | the eraser flag brings in the rubber, its absence the pen |
| `Injector.InputInjector.Destroy` | host/src/input_injector.cpp:238-274 | whatever is still held is released: no finger, no button, no tool |
| `Injector.RunInput` | host/src/input_injector.cpp:107-274 | over every session of touches, stylus samples and moves, ended at any point: every touch update and every sample is shown when it comes, clicks are those of the taps at the geometry then known, the kernel never sees a protocol violation and nothing is left held |
| `AnnexB.ParseAnnexB` | web/src/fmp4.ts:62-83 | the loops split a buffer exactly as the specification does |
| `AnnexB.AnnexBRoundTrip` | web/src/fmp4.ts:62-83 | units without inner start codes and trailing zeros, joined by any mix of three- and four-byte start codes, come back exactly (ITU-T H.264 Annex B) |
| `AnnexB.StartCodes` | web/src/fmp4.ts:62-83 | start codes are 00 00 01 and 00 00 00 01; what comes before the first is dropped |
| `AnnexB.AnnexBToAvcc` | web/src/fmp4.ts:98-107 | the sample is the length-prefixed list of the units other than types 7, 8 and 9 |
| `AnnexB.AvccRoundTrip` | web/src/fmp4.ts:98-107 | the sample reads back as those units exactly when each length fits 32 bits |
| `AnnexB.InSampleTypes` | web/src/fmp4.ts:98-107 | a unit is left out exactly if the low five bits of its first byte are 7, 8 or 9; the length prefix has four bytes, most significant first |
| `AnnexB.AvcCodecString` | web/src/avc-codec.ts:12-30 | the codec string is spelled from the first SPS header the scan finds, or refused |
| `AnnexB.CodecSpelling` | web/src/avc-codec.ts:19-25 | eleven characters: avc1. and the three bytes in two hexadecimal digits each, read back as those bytes |
| `AnnexB.CodecMatchesFirstSps` | web/src/avc-codec.ts:12-30 | the two readers of Annex B agree on every buffer: no SPS unit, no codec string; otherwise it spells bytes 1 to 3 of the first one, if that has at least four bytes |
| `Fmp4.BuildSegment` | web/src/fmp4.ts:245-290 | building the moof with an empty data offset and patching it afterwards gives the segment with the offset in place |
| `Fmp4.TimeBack` | web/src/fmp4.ts:24-29 | the two words of a 64-bit time read back as the time modulo 2^64, negative times included |
| `Fmp4.ReadBoxBack` | web/src/fmp4.ts:46-49 | a printed box is read back with its payload and the bytes after it as long as its size fits 32 bits |
| `Fmp4.SegmentRoundTrip` | web/src/fmp4.ts:245-290 | a box reader consumes every byte of a segment and recovers sequence number, time, duration, flags and, through the data offset, the sample, exactly when the sample fits a 32-bit box |
| `Fmp4.SegmentBytes` | web/src/fmp4.ts:241-290 | the whole segment, field by field in bytes: box sizes and names, sequence number, base time, and the run with its data offset, flags, duration and size |
| `Fmp4.FlagsRead` | web/src/fmp4.ts:241-242 | in what a reader gets, the non-sync bit is set exactly for frames that are not keyframes, and the dependency field is 2 for keyframes and 1 for others (ISO/IEC 14496-12 section 8.8.3.1) |
| `Fmp4.BoxNames` | web/src/fmp4.ts:245-290 | the seven box types are spelled as in ISO/IEC 14496-12 |
| `MsePipelines.MseVideoPipeline.Submit` | web/src/mse-decoder.ts:129-172 | after any history of submissions, the segments queued are those of all frames but the last, each lasting until the next |
| `MsePipelines.MseVideoPipeline.Hold` | web/src/mse-decoder.ts:165-172 | one frame is held back until the next fixes its duration, never less than 1 |
| `MsePipelines.SegmentRead` | web/src/mse-decoder.ts:174-185 | a player reads every segment as its own frame, numbered from 1, numbers modulo their width, exactly when the sample fits a box |
| `MsePipelines.StartedMeaning` | web/src/mse-decoder.ts:149-159 | playback has started exactly when some keyframe came with, or after, both an SPS and a PPS |
| `MsePipelines.FieldsFit` | web/src/fmp4.ts:245-290 | a segment comes back with its own numbers, and not their remainders, exactly when each fits its field |
| `MsePipelines.Timeline` | web/src/mse-decoder.ts:166-185 | where the numbers fit their fields, a segment ends where the next begins exactly when the next frame is later, and overlaps it otherwise |
| `MsePipelines.Gapless` | web/src/mse-decoder.ts:166-170 | the segments together last as long as the frames took exactly when every frame is later than the one before |
| `MsePipelines.SameTimeOverlaps` | web/src/mse-decoder.ts:168 | two frames of one time: the first segment lasts 1 all the same |
| `MsePipelines.FirstIsKeyframe` | web/src/mse-decoder.ts:155-164 | whatever is submitted later, the first frame is a keyframe, exactly when the unit that starts playback has anything in it but parameter sets and delimiters |
| `MsePipelines.OriginIsStart` | web/src/mse-decoder.ts:155-161 | times count from the unit that starts playback, for ever after |
| `MsePipelines.DeltaFirst` | web/src/mse-decoder.ts:155-164 | a keyframe of parameter sets only, then a delta: the delta is the first frame |
| `SendBacklog.HysteresisMeaning` | host/src/send_backlog.h:28-33 | over whole runs, captures are being dropped exactly when some sample exceeded its limit and every later one exceeded half of its own |
| `SendBacklog.BacklogLimit` | host/src/send_backlog.h:23-26 | the limit is what the bitrate carries in a quarter of a second, rounded down, or 64 KiB if that is more |
| `SendBacklog.BacklogBounded` | host/src/send_backlog.h:28-33 | with any draining, queued video never exceeds the limit at some capture that was encoded plus what that capture queued |
| `StreamLoop.RunPaced` | host/src/stream_daemon.cpp:343-420 | the frame loop itself, over a link that drains as it likes and is filled by its own packets: every turn samples what is queued against the limit of the bitrate in force, and what is queued never exceeds the limit at some capture it encoded plus the packets of that capture |
| `StreamLoop.StreamDaemon.Step` | host/src/stream_daemon.cpp:333-449 | a capture is skipped before the encoder or encoded and sent; each capture takes one sample; the requests are taken exactly when one is encoded; packets that exist are not discarded while the link is up |
| `StreamLoop.StreamDaemon.PollControl` | host/src/transport_server.cpp:148-217 | the messages up to the first Bye are heard, and no others; at every moment the latches hold the newest complete request and whether a keyframe was asked for since the last taking; the link survives unless it broke, a pong failed or the client said Bye |
| `StreamLoop.LastParamsMeaning` | host/src/transport_server.cpp:165-172 | the newest request is one with no complete request after it |
| `StreamLoop.ParamsRead` | host/src/protocol.cpp:300-309 | a request is a message of type 17 with at least nine bytes: frame rate, bitrate, audio |
| `StreamLoop.WantedMeaning` | host/src/stream_daemon.cpp:366-384 | after one request, each of frame rate and bitrate is the one asked for, or the old one if a zero was asked for or the encoder did not reopen |
| `StreamLoop.PollBreaksMeaning` | host/src/transport_server.cpp:148-217 | reading control messages ends the connection exactly when a Bye is among them, or a Ping whose pong fails |
| `StreamLoop.StreamDaemon.TakeRequests` | host/src/stream_daemon.cpp:366-404 | over a whole run, every message is in one taking, and the parameters in force are those of each taking's newest request in turn, read as signed words; a zero or a failed reopen keeps the old ones, and the backlog limit moves with the bitrate |
| `StreamLoop.StreamDaemon.SendPackets` | host/src/stream_daemon.cpp:411-415 | the packets sent are a prefix of those encoded, all of them while the link is up |
| `StreamLoop.RunUntil` | host/src/stream_daemon.cpp:333-450 | the loop runs up to the first turn that breaks the link; what was encoded is the output of exactly the captures the backlog samples let through, and the flush if the link held; what was sent is all of it short of what followed the first failed write |
| `StreamLoop.KeptMeaning` | host/src/stream_daemon.cpp:350-357 | a turn encodes exactly when it has a capture and the backlog samples so far do not say to drop |
| `StreamLoop.UnansweredPing` | host/src/transport_server.cpp:163-164 | a ping whose pong fails ends the connection; a message of a kind the host does not know does not |
| `VideoPipelines.ChoosePaintIndex` | web/src/paint-policy.ts:35-52 | the loop finds the index the specification names |
| `VideoPipelines.PaintIndexMeaning` | web/src/paint-policy.ts:43-47 | the newest frame at or behind the clock is chosen, and none only if all are ahead |
| `VideoPipelines.PaintIndexRule` | web/src/paint-policy.ts:35-52 | with no clock every frame is due; if none is, the newest is chosen when even the oldest is more than 25 ms ahead, and otherwise none |
| `VideoPipelines.VideoPipeline.Submit` | web/src/decoder.ts:85-158 | a keyframe goes to the decoder unless it refuses; a delta goes only to a decoder in step; a delta refused asks for one keyframe; the reference chain is kept, and so is the rule that a callback is scheduled while frames wait |
| `VideoPipelines.VideoPipeline.OnError` | web/src/decoder.ts:104-114 | after an asynchronous error no decoder is in use and the chain stays intact |
| `VideoPipelines.VideoPipeline.OnDecoded` | web/src/decoder.ts:166-178 | the pending frames are the newest three of what was pending and the new one; older ones are closed in order, and a callback is scheduled |
| `VideoPipelines.VideoPipeline.PaintDue` | web/src/decoder.ts:188-205 | frames older than the chosen one are closed unpainted, the chosen one is drawn and closed; another frame callback is scheduled exactly if nothing was due or something is left; once the newest frame is due nothing stays behind |
| `VideoPipelines.VideoPipeline.Close` | web/src/decoder.ts:260-285 | everything pending is closed and the decoder given up |
| `VideoPipelines.EndToEnd` | web/src/decoder.ts:85-285 | host and browser together, over any number of connections closed at any point, each stream being what the frame loop makes of its connection: what a decoder gets was sent; no delta is ever decoded by an instance that did not get the packet just before it; every keyframe a decoder is willing to take it gets, and all of an undisturbed stream; every frame put out is closed exactly once; painted frames appear in decode order; and a frame callback for which the newest decoded frame is due, or without a clock, leaves that frame painted |
| `AudioStreaming.AudioStreamer.Read` | host/src/audio_streamer.cpp:42-62 | within the budget nothing is dropped; an overflow leaves between 15104 and 19200 bytes, the newest chunk among them, and no chunk more than needed goes |
| `AudioStreaming.AudioStreamer.DropOldest` | host/src/audio_streamer.cpp:51-61 | whole chunks go, oldest first, enough and no more than needed: with the last of them put back too little would be gone; the queue stays the latest part of what was captured |
| `AudioStreaming.AudioStreamer.Drain` | host/src/audio_streamer.cpp:65-72 | everything queued is handed over, in order, once |
| `AudioStreaming.Run` | host/src/audio_streamer.cpp:39-72 | in every interleaving, each drain hands over what was queued then; drained, queued and dropped add up to everything read; the queue is its latest part, at most 38400 bytes |
| `PcmPlayers.PcmPlayer.Receive` | web/src/audio-worklet.ts:16-27 | a chunk's frames are queued behind all others; the frame counter lags by half a frame for every odd chunk |
| `PcmPlayers.FrameAt` | web/src/audio-worklet.ts:16-27 | frame i of a chunk is its samples 2i and 2i+1, left and right, the last of an odd chunk filled with silence |
| `PcmPlayers.PcmPlayer.Process` | web/src/audio-worklet.ts:30-63 | nothing is played until the prebuffer is full; then frames come in order, and an underrun silences the rest of the block and starts prebuffering over |
| `PcmPlayers.OddChunkWaits` | web/src/audio-worklet.ts:16-38 | a chunk of 5759 samples: a whole prebuffer is queued and nothing is played |
| `PcmPlayers.EvenChunkPlays` | web/src/audio-worklet.ts:16-63 | a chunk of 5760 samples fills the prebuffer: its first frame is played at once |
| `PcmPlayers.Run` | web/src/audio-worklet.ts:16-63 | over any run between clears every block asked for is filled; the output is the received stream in order, with only silence in between, and what was not heard is still queued |
| `AutoConnect.DevicesToConnect` | host/gui/auto_connect.cpp:11-50 | the loops compute the plan of the specification for every candidate list and session list |
| `AutoConnect.NoDeviceTwice` | host/gui/auto_connect.cpp:32-48 | a pass acts on a device id at most once |
| `AutoConnect.PlanEmpty` | host/gui/auto_connect.cpp:32-50 | the plan is empty exactly when no candidate wants anything |
| `AutoConnect.ConnectedRightly` | host/gui/auto_connect.cpp:28-48 | a key connected belongs to an eligible candidate whose device has no session, and has neither of the two cable prefixes only if no eligible candidate of the device has one |
| `AutoConnect.StoppedRightly` | host/gui/auto_connect.cpp:38-44 | the sessions stopped are exactly those with neither cable prefix, of devices with an eligible candidate that has one |
| `AutoConnect.CableSessionsStay` | host/gui/auto_connect.cpp:6-8 | no session over a cable, adb included, is stopped, exactly when no adb session's device is an eligible candidate with one of the two prefixes |
| `AutoConnect.UsbKeys` | host/gui/auto_connect.cpp:6-8 | the cable keys are those that start with usb-aoa: or usb: |
| `AutoConnect.AdbSessionStopped` | host/gui/main_window.cpp:667-690 | a tablet streaming over adb that is also listed as an accessory under its serial: its session is stopped |
| `AutoConnect.Sessions.Stop` | host/gui/session_manager.cpp:38-42 | the session of a key is removed, the others keep their order |
| `AutoConnect.Sessions.ConnectDevice` | host/gui/main_window.cpp:715-744 | a device with a session, by key or by id, is not connected again |
| `AutoConnect.Sessions.EvaluateAutoConnect` | host/gui/main_window.cpp:746-780 | one evaluation leaves the sessions the specification names |
| `AutoConnect.EvaluateMeaning` | host/gui/main_window.cpp:761-780 | an evaluation loses only the sessions stopped, adds only those asked for, and keeps one session per device |
| `AutoConnect.CableTakenAfter` | host/gui/main_window.cpp:746-780 | after any evaluation no tablet streams over a key with neither cable prefix while an eligible candidate of it has one |
| `AutoConnect.Converges` | host/gui/main_window.cpp:746-780 | from any consistent start the third plan is empty, and already the second if the first stops nothing |
| `AutoConnect.Sessions.Settle` | host/gui/main_window.cpp:765-767 | re-arming the timer only after a plan that stops something is enough: at most two evaluations, then nothing more to do |
| `AoaPresence.Presence.Update` | host/gui/aoa_presence.h:31-44 | a serial is reported exactly at every limit-th consecutive scan that tracks and misses it |
| `AoaPresence.StreakIsMaximal` | host/gui/aoa_presence.h:37-42 | the misses counted are the maximal run at the end of the history |
| `AoaPresence.ReportedTwice` | host/gui/aoa_presence.h:37-42 | with the limit at 2, a serial tracked and missed four times is reported on the second and the fourth scan |
| `Cvt.FewestLines` | host/src/cvt.cpp:23-27 | the blanking lines are the fewest that fill the minimum at the estimated line time and hold the porches |
| `Cvt.ClockBounds` | host/src/cvt.cpp:30-31 | the clock is the largest multiple of 250 kHz within the pixel rate |
| `Cvt.ModeSound` | host/src/cvt.cpp:20-45 | over exact reals, for refresh rates up to 2173: back porches are positive, blanking lasts at least 460 us, and the actual refresh is in (refresh - 250000 / (h_total * v_total), refresh]; the clock is positive exactly for modes of at least one clock step |
| `Cvt.VSyncByAspect` | host/src/cvt.cpp:11-18 | the sync width by aspect ratio, to within 0.02: 4 for 4:3, 5 for 16:9, 6 for 16:10, 7 for 5:4 and 15:9, else 10 |
| `Cvt.SizesInFigures` | host/src/cvt.cpp:20-45 | whole cells of 8 pixels, none missing; the size in millimetres at 96 dots an inch, to the nearest; the preset for 1920x1080 at exactly 60 Hz |
| `Edid.DtdRoundTrip` | host/src/edid.cpp:14-41 | decoding the descriptor recovers the timing exactly when its fields fit (VESA E-EDID Release A section 3.10.2) |
| `Edid.BuildEdid` | host/src/edid.cpp:43-108 | the array filled index by index is the block of the specification, checksum included |
| `Edid.BlockMeaning` | host/src/edid.cpp:43-108 | every block sums to 0 modulo 256, gives its serial back, and gives its timing back exactly when the fields fit |
| `Edid.BlockInFigures` | host/src/edid.cpp:43-77 | the first 38 bytes: header, maker, product, year, size in whole centimetres, chromaticity and no established timings |
| `Edid.DescriptorsInFigures` | host/src/edid.cpp:78-108 | after the timing: the name descriptor spells droppix, two dummies follow, and there is no extension |
| `Edid.DistinctSerials` | host/src/edid.cpp:55-61 | blocks with different serials differ, whatever their timings |
| `Edid.ModeSurvives` | host/src/cvt.cpp:20-45 | a mode of up to 4095 pixels either way and up to 120 Hz survives the block exactly when its clock is below 655.36 MHz |
| `Spacedesk.EachRowOnce` | host/src/spacedesk_protocol.h:175-179 | every row of the screen lies in exactly one of the four stripes, and no other row in any |
| `Spacedesk.NoEmptyStripe` | host/src/spacedesk_protocol.h:175-179 | no stripe is empty exactly for screens of four rows and more |
| `Spacedesk.ScreenRecovered` | host/src/spacedesk_server.cpp:275-287 | a viewer that has all four stripes has every row, in one stripe only |
| `Spacedesk.WordAt` | host/src/spacedesk_protocol.h:38-48 | every little-endian header word reads back at its place |
| `Spacedesk.EncodedStep` | host/src/spacedesk_client.cpp:7-34 | a message is read back exactly when its payload is within 64 MiB |
| `Spacedesk.ClientParser.Feed` | host/src/spacedesk_client.cpp:7-34 | a feed emits and keeps exactly what the specification makes of everything buffered |
| `Spacedesk.ChunkIndependence` | host/src/spacedesk_client.cpp:7-34 | where and how often a stream is cut makes no difference exactly when no length before its last byte is over the limit |
| `Spacedesk.TwoCuts` | host/src/spacedesk_client.cpp:13-18 | a header one byte over the limit and one byte more: fed together both are dropped, fed apart the byte is kept |
| `Spacedesk.Serve` | host/src/spacedesk_server.cpp:231-287 | a session sends the opening sequence, then a heartbeat or the stripes of a picture for each event, in order |
| `Spacedesk.StripeServer.SendPicture` | host/src/spacedesk_server.cpp:275-287 | one frame message per stripe that encodes to something, top to bottom, with its bounds |
| `Spacedesk.FrameInFigures` | host/src/spacedesk_protocol.h:139-163 | a stripe on the wire, every field by its byte offset |
| `Spacedesk.OpeningInFigures` | host/src/spacedesk_protocol.h:111-132 | control messages by byte offset; the opening is ack, two displays and two heartbeats, the keepalive a heartbeat of 15, 1 |
| `Spacedesk.StripesInFigures` | host/src/spacedesk_protocol.h:175-179 | the first three stripes have a quarter of the rows, rounded down, the last one the remainder too |
| `Spacedesk.SessionBack` | host/src/spacedesk_client.cpp:7-34 | a session of messages within the limit is read back whole, with nothing left over |
| `Spacedesk.View` | host/src/spacedesk_client.cpp:7-34 | delivered in any pieces, the server's stream gives the viewer exactly its messages, stripes with their bounds and bytes |
| `Spacedesk.HelloBack` | host/src/spacedesk_client.cpp:38-74 | the server reads the size the client declared, if neither side is zero, and exactly the payload length sent; the 128 bytes of the header decide, and fewer never do |
| `Spacedesk.HelloInFigures` | host/src/spacedesk_client.cpp:38-74 | the viewer's hello, field by byte offset |

## Left out

- Sockets, TLS, uinput, evdi, hardware encoders, WebCodecs, Media Source Extensions and Qt: byte sequences, event logs or parameters stand for them. TLS is a byte string cut into records; a read never returns bytes of two records.
- Locks and threads: each locked operation is one step; the audio reader and the stream loop are any interleaving of such steps.
- WsChannels.WsChannel.WaitReadable: the timeout is one answer of poll; after a read that failed without closing the channel the reader stands inside a frame, and nothing is promised about what it makes of the bytes there.
- WebPairing.Session: takes the streaming server's parser to be fresh; the code keeps one parser across connections and never resets it.
- StreamLoop.StreamDaemon.Step: audio, overlay, statistics and orientation restarts are not in the loop; a keyframe request is latched and taken but has no effect on the encoder, whose automatic form ignores it; control messages other than Bye, Ping, StreamParams and KeyframeRequest change nothing here.
- SendBacklog.BacklogBounded: speaks of video only, with the drain of the link arbitrary; audio sent from the same loop is not counted.
- VideoPipelines.EndToEnd: packets arrive as the host sent them, or not at all after a break, and each new connection follows a close, as the client sees to. A browser without WebCodecs is not modelled.
- Injector.RunInput: scroll, mouse buttons and keys are not in the trace; they hold what the client last said and nothing releases them at the end. Devices that fail to open are not modelled, except the pointer device.
- Injector.ScaleOrder: a desktop of no width is left out; clamping to an empty range has no meaning in the source language, and `Clamp` picks a value.
- TapGesture.TwoFingerTap.Update: the clock is an argument.
- MsePipelines.MseVideoPipeline.Submit: stands for the queue of segments; appending them to a source buffer, quota errors, trimming and the live-edge chase are not modelled, and times are integers, not doubles.
- PcmPlayers.PcmPlayer.Process: stereo output only, samples as integers.
- Cvt.ModeSound: exact real arithmetic in place of doubles, integers in place of 32-bit ones.
- AutoConnect.Converges: takes each device to have one id whatever its list entries and sessions, enough ports, and a session that is told to stop to be gone by the next evaluation; a cable here is a key with one of the two prefixes the code knows.
- Spacedesk.View: the viewer gets the whole stream; discovery, the keepalive and the frame source are not modelled, and a picture is its four encoded stripes.
- The init segment (ftyp, moov, avcC) of the muxer: constants around the parameter sets, with no step that could interact with the segments.
- The remaining message codecs (touch, config, video, input, wake, single fields): each a fixed layout with nothing across messages.
- The browser's connection state machine, port allocation, orientation swap and the luma table: easy, or without a property that spans calls.
- HTTP, certificates, hashing, settings storage, themes, logs and shell commands.
