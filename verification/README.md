# Remote draw, links and updates of MFoES, modelled in Dafny

This project models the parts of the MFoES firmware and libraries that move bytes and have to get them right, and proves what they are for.

The centre is the remote-draw stack. A recorder (`DrawReplay`) turns drawing calls into a self-delimiting blob; the device daemon (`usbd`) pushes blobs through a ring and two ping-pong buffers into MUBD frames; on the far side `FrameParser`, `Session` and `StreamAssembler` rebuild the blobs from arbitrary bulk reads, and `DRRender` replays them. `EndToEnd.dfy` puts the pieces together.

Around it stand the smaller cores: the broker that shares one device among clients, the publisher with its one-deep slot, the OTA packet stream and session with MD5, the libgfx line, spans and NC5874 present, the northbridge's CRC-protected frames, and the rotary encoder.

| file | models |
|---|---|
| Bytes.dfy | bytes, fixed-width integers, little-endian layout, concatenation |
| Framing.dfy | MUBD frames, pattern search, `FrameParser` against a buffer-free scanner |
| Records.dfy, Cutting.dfy | `StreamAssembler` against a record specification, and where it differs; what cutting finds |
| DrawCalls.dfy, Layout.dfy, DrawReplay.dfy, Decoding.dfy | the command codec and its wire form, the decoder and when it fails |
| Render.dfy, Blob.dfy | whole bodies, whole blobs |
| Replayer.dfy, Recorder.dfy, TextMirror.dfy | `DRRender`, the recording overloads, the recorder's own text state |
| Session.dfy, EndToEnd.dfy | channel routing, and the whole stack |
| Ring.dfy, UsbdTx.dfy | usbd's byte ring and its TX thread over all interleavings |
| Broker.dfy, DrLink.dfy | per-client queues and injection; the publisher and sender threads |
| Surface.dfy, Line.dfy, LineRange.dfy | pixels, spans, dirty-rectangle present; Bresenham in 16 bits and which lines fit them |
| Md5.dfy, Md5Suite.dfy | streaming MD5 (RFC 1321), and one digest of its test suite |
| Ota.dfy, OtaPackets.dfy, OtaSession.dfy | packets, session and host; which bytes are packets; a session told by its packets |
| LockStep.dfy, UploadRun.dfy, UploadEnds.dfy | both directions of an upload together; a whole upload against the daemon's session, and that it can be finished |
| Crc.dfy, Northbridge.dfy, Encoder.dfy | CRC-16, SPI frames, quadrature decoding |

Stateful code is modelled as classes whose ghost fields hold the abstract byte or call history; each method is proved against a function of that history. Threads are modelled by their atomic steps. I/O, clocks and sockets are parameters or nondeterministic choices. A `hide` statement in a proof only keeps a definition out of the solver's sight.

## Where the code and its promises part

Each of these is stated and proved as a lemma or as the exact condition of one.

- `writeLine` stays within 16 bits on every line with extents up to 10923 and on no larger square of extents (`Line.BoundIsSharp`); which longer lines still fit is decided by the extents and their greatest common divisor (`LineRange.FitsWhenNarrow`).
- `StreamAssembler` can step back into a record it has delivered. Records ending in a prefix of the magic are then delivered twice; records with the end marker never are (`Records.UnsafeRecordBreaks`, `Blob.EndsSafely`).
- `DRExport` writes a 32-bit body length, so the round trip holds exactly below 2^32 bytes (`Blob.RoundTrip`).
- usbd's TX thread can end with bytes in the ring (`UsbdTx.BytesStayBehind`). Where it stands when the channel goes down decides: it makes at most one more read, and loses exactly what that read leaves (`UsbdTx.EverythingSentIff`).
- The northbridge checksum is stored low byte first, so bursts of sixteen bits across bytes 61 and 62 can go unseen: exactly twelve changes do, and every other burst is refused (`Northbridge.BurstAccepted`, `Northbridge.StraddleUnseen`).
- Filling a rectangle, or a column pixel by pixel, counts rows in 16 bits against an end that need not fit them: unless the colour is transparent, the loop ends if and only if the end is below 32768 (`Surface.RowsEnd`, `Surface.TallRowsNeverEnd`, `Surface.Overlay.WriteFillRect`, `Surface.Overlay.VLineByPixels`). The replayer passes a received rectangle on as it is, so its own loop ends but the target's call need not return.
- usbd's app reader sends its close frame ahead of bytes still queued (`UsbdTx.CloseOvertakes`); the session then cuts the stream there (`Session.CloseCuts`), which loses nothing if no blob was unfinished (`EndToEnd.CloseDelivers`).
- A call that sets text state drifts exactly when it is not recorded as made (`TextMirror.SetterInStep`).
- A span whose end leaves 16 bits is clipped wrongly (`Surface.SpanClipExact`), and clearing to black stores transparent pixels (`Surface.Overlay.ClearBuffer`).
- The encoder task sets the decoder's state when it starts; if the lines moved before that, the phase relation is off by that jump from then on (`Encoder.Decoder.PositionTracksPhase`, `Encoder.StartKeepsPhase`).
- An upload whose chunk size exceeds the daemon's receive buffer is abandoned (`Ota.UploadArrives`, `Ota.WhenPartsFit`), and the announced total size is only compared with zero unless a chunk packet too short to cover it comes first and takes it for its size or digest (`Ota.TotalMatters`, `Ota.ShortChunkReadsTotal`).
- The upload tool takes every device message for one whole reply. That holds when each packet is answered once (`LockStep.OneAtATime`); a BEGIN that is acknowledged and then refused is answered twice, and the two can arrive as one message (`LockStep.TwoRepliesMerge`).

## Model

| member | source | states |
|---|---|---|
| EndToEnd.Receive | libs/usbproto/usbproto_session.cpp:80-125 | For any blobs with garbage between them, any re-chunking of the channel's stream into data frames, any interleaving with other channels' frames and any cut of the wire into bulk reads, the record handler gets exactly the blobs, in order, as long as no frame closes the channel. |
| EndToEnd.DeviceDelivers | services/usbd.cpp:324-418 | Seen from the device: at every point of every interleaving of usbd's threads, however much of the stream has been accepted so far (a blob cut anywhere included), what the frames sent so far deliver on the host is a prefix of the blobs the app writes, and all of them once the whole stream is accepted and ping-pong buffers and ring are empty. |
| EndToEnd.CloseDelivers | libs/usbproto/usbproto_session.cpp:94-101 | With a close on the way, whatever payload it carries, what was delivered before it is a prefix of the blobs, and all are delivered if the close finds none unfinished. |
| EndToEnd.DeliveredBlobsRender | libs/libgfx/DrawReplay.cpp:336-650 | Every delivered blob renders without error as exactly the calls recorded into it. |
| EndToEnd.StreamDelivers | libs/libgfx/DrawReplay.cpp:302-329 | A stream of exported blobs and garbage is cut, by the specification, into exactly the blobs, and each of them is safe against the assembler's step back. |
| Framing.FindPattern | libs/usbproto/usbproto.cpp:48-57 | Finds the first occurrence at or after a position, or says there is none. |
| Framing.EncodeHeader | libs/usbproto/usbproto.cpp:65-72 | The twelve header bytes read back as magic, channel, flags and length. |
| Framing.FrameReadsBack | libs/usbproto/usbproto.cpp:84-92 | An encoded frame, with anything behind it, is read as that frame and nothing more. |
| Framing.ScanSplits | libs/usbproto/usbproto.cpp:132-159 | The byte-at-a-time scanner can be stopped anywhere and resumed from its unconsumed rest: frames, rest and cleanness compose. |
| Framing.ScanOfWire | libs/usbproto/usbproto.cpp:132-159 | Frames laid end to end are scanned into exactly those frames with nothing dropped. |
| Framing.ScanFinds | libs/usbproto/usbproto.cpp:132-159 | On any bytes: every frame the scanner gives stands in them whole (magic, channel, flags, a length of at most MAX_FRAME_SIZE, payload), frames do not overlap, no frame that stands outside them was missed, and what is left is less than a header or the beginning of a frame; nothing was dropped if and only if frames and rest are all there is. |
| Framing.JumpYieldsNothing | libs/usbproto/usbproto.cpp:116-130 | Jumping to the next magic (or keeping three bytes) skips only positions at which no frame could start, whatever bytes come later. |
| Framing.FrameParser.Resync | libs/usbproto/usbproto.cpp:116-130 | A resync drops only bytes the scanner would drop, keeps at least three, and always shortens what is pending. |
| Framing.FrameParser.Compact | libs/usbproto/usbproto.cpp:103-114 | Compaction changes the buffer but not the pending bytes, and leaves fewer than USB_BUF_SIZE consumed ones. |
| Framing.FrameParser.Feed | libs/usbproto/usbproto.cpp:132-159 | After any run of feeds the frames handed out are those the scanner finds in all bytes fed, corrupted streams included; the resync counter is zero exactly when nothing had to be dropped; the buffer stays under USB_BUF_SIZE + HEADER_SIZE + MAX_FRAME_SIZE bytes. |
| Records.CutSplits | libs/usbproto/usbproto.cpp:205-236 | The record specification composes over any split of the stream, for every sizer whose answers do not change as bytes arrive. |
| Cutting.CutFinds | libs/usbproto/usbproto.cpp:205-236 | On any bytes and for any sizer: every record cut stands there with the size the sizer gives and within the limit, records do not overlap, none that stands outside them was missed, and what is left waits for more. |
| Cutting.StandsAreBlobs | libs/libgfx/DrawReplay.cpp:302-329 | For recordings that means: the magic, a known version, and a length of twenty bytes plus the body length field, at most MAX_FRAME_SIZE. |
| Records.StreamAssembler.Feed | libs/usbproto/usbproto.cpp:205-236 | Each feed is the value model's step exactly, step back included; and as long as every record ends safely, the records handed out are those of the specification for all bytes fed. |
| Records.StreamAssembler.Resync | libs/usbproto/usbproto.cpp:191-203 | A resync moves the read position as the code does, also backwards when fewer than magicLen-1 bytes are left. |
| Records.ChunksDoNotMatter | libs/usbproto/usbproto.cpp:205-236 | Safe records: any two ways of cutting the same stream into feeds hand out the same records. |
| Records.UnsafeRecordBreaks | libs/usbproto/usbproto.cpp:191-203 | Records ending in the first k bytes of the magic, 1 <= k < magicLen-1: there is a stream holding the record once and a cut of it that hands the record out twice. This covers magics whose bytes from k on, the last left out, contradict the magic's beginning, so every magic without a repeated byte. |
| Records.RecordBeginsWithMagic | libs/usbproto/usbproto.cpp:205-236 | Whatever the sizer accepts as a record begins with the magic. |
| Blob.Peek | libs/libgfx/DrawReplay.cpp:270-292 | Peeking succeeds if and only if the header is whole, its magic right, its version known and the declared body inside the buffer; which error comes otherwise is said by the bytes as well. |
| Blob.ExportPeeks | libs/libgfx/DrawReplay.cpp:219-238 | An exported blob peeks as its width, height, command count and body length, each cut to its field. |
| Blob.RoundTrip | libs/libgfx/DrawReplay.cpp:336-650 | Recording, exporting and rendering gives back exactly the recorded calls if and only if the body is shorter than 2^32 bytes; otherwise it ends in an error after a prefix of them. |
| Blob.SizerMeasures | libs/libgfx/DrawReplay.cpp:302-329 | The record sizer never changes its mind as more bytes arrive, rejects at the first contradicting magic byte, and asks for more until the header is there. |
| Blob.ExportIsRecord | libs/libgfx/DrawReplay.cpp:302-329 | Every exported blob within MAX_FRAME_SIZE is one whole record for the sizer, and safe. |
| Blob.EndsSafely | libs/libgfx/DrawReplay.cpp:219-238 | The trailing end marker makes the assembler's step back harmless. |
| Blob.UnsafeBlobBreaks | libs/usbproto/usbproto.cpp:191-203 | Without it, a short record whose last bytes are 'D' or "DR" is delivered twice by some chunking. |
| Blob.CutsBlob | libs/libgfx/DrawReplay.cpp:302-329 | Garbage that meets the magic only at its end is skipped whole and the blob behind it is the next record. |
| DrawReplay.ReadsBack | libs/libgfx/DrawReplay.cpp:354-650 | For every opcode: what the recorder writes for a call is decoded, anywhere in a stream, as that call, ending where the next one starts. |
| Layout.GeometryLaid | libs/libgfx/DrawReplay.h:106-116 | The frozen wire form of the first drawing commands: opcode byte, then coordinates and colour at their offsets, low bytes first. |
| Layout.CurvesLaid | libs/libgfx/DrawReplay.h:117-123 | The same for curves, rounded rectangles and triangles. |
| Layout.StateLaid | libs/libgfx/DrawReplay.h:125-136 | The same for style, frame and text state. |
| Layout.TextLaid | libs/libgfx/DrawReplay.h:137-140 | The same for text, which stands behind its 16-bit count, and single characters. |
| Layout.BitmapLaid | libs/libgfx/DrawReplay.h:142-150 | The same for bitmaps: the extent, colours if any, then pixels, then the mask. |
| DrawReplay.DecodeAt | libs/libgfx/DrawReplay.cpp:354-650 | Decoding any bytes either stops, fails, or moves strictly forward without passing the end of the body. |
| DrawReplay.CStr | libs/libgfx/DrawReplay.cpp:508-541 | Text is cut at its first NUL, and at nothing else. |
| Decoding.FixedDecodes | libs/libgfx/DrawReplay.cpp:365-524 | An opcode with operands of one size decodes, and takes exactly those bytes, if and only if they are there; otherwise the body is truncated. |
| Decoding.TextDecodes | libs/libgfx/DrawReplay.cpp:508-541 | A counted text decodes, over exactly its count, if and only if count and text are there. |
| Decoding.BitmapDecodes | libs/libgfx/DrawReplay.cpp:543-636 | A bitmap decodes, over exactly its header and the bytes of its extent, one-bit rows in whole bytes, if and only if the extent is positive and all bytes are there; a short header is truncation, anything else a bad payload. |
| Decoding.OthersFail | libs/libgfx/DrawReplay.cpp:354-650 | Zero ends the body, its end without one is truncation, and every other opcode is unknown. |
| DrawCalls.TimesIsProduct | libs/libgfx/DrawReplay.cpp:85-100 | The extent arithmetic of bitmap commands is the plain product. |
| Decoding.RowBytes | libs/libgfx/DrawReplay.cpp:84-87 | A row of a one-bit plane takes the least number of whole bytes that holds it. |
| Render.PrefixMonotone | libs/libgfx/DrawReplay.cpp:354-650 | Calls issued for a body are a prefix of the calls issued for it with any bytes behind it. |
| Render.CutShort | libs/libgfx/DrawReplay.cpp:354-650 | A recording cut anywhere issues exactly the commands that lie wholly before the cut, and does not report Ok. |
| Render.ReplaysItself | libs/libgfx/DrawReplay.cpp:354-650 | The commands of a recording with its end marker replay as themselves, with Ok. |
| Replayer.FontTable.Bind | libs/libgfx/DrawReplay.cpp:124-133 | Binding an id changes the lookup of that id and no other; the built-in id cannot be bound. |
| Replayer.Reader.Need | libs/libgfx/DrawReplay.cpp:28-31 | A read that does not fit latches the reader. |
| Replayer.Reader.TakeText | libs/libgfx/DrawReplay.cpp:508-516 | Text is taken whole, by its own length field, or the reader latches. |
| Replayer.RenderCommand | libs/libgfx/DrawReplay.cpp:357-648 | One turn of the decode loop issues the command that stands there with its font looked up, or latches, or stops with the decoder's error. |
| Replayer.DRRender | libs/libgfx/DrawReplay.cpp:336-650 | On arbitrary bytes the decode loop ends, never reads outside the declared body, and issues exactly the specified calls with the specified error, each call of the target returning. |
| Recorder.DrawRecorder.RegisterFont | libs/libgfx/DrawReplay.cpp:656-665 | Registering a font changes the id of that font only; the null font keeps the built-in id. |
| Recorder.IdOf | libs/libgfx/DrawReplay.cpp:667-673 | The null font, and any font never registered, has the built-in id. |
| Recorder.DrawRecorder.Allow | libs/libgfx/DrawReplay.cpp:209-217 | The mask and the inline-size limit decide together, and only a refusal counts as skipped. |
| Recorder.DrawRecorder.Emit | libs/libgfx/DrawReplay.cpp:165-203 | A command is its opcode and its fields in wire order, appended to the stream, and one more in the count. |
| Recorder.DrawRecorder.Record | libs/libgfx/DrawReplay.cpp:691-1107 | Any overload appends the one command its call becomes under the mask, the size limit and suppression, or nothing; the stream is always the encoding of the commands and the count their number. |
| Recorder.GeometryRecorded | libs/libgfx/DrawReplay.cpp:691-783 | Under any mask: a drawing primitive is recorded if and only if its feature bit is set and, for the four that a text call's own drawing can reach, no such call is running. |
| Recorder.StyleRecorded | libs/libgfx/DrawReplay.cpp:1052-1107 | Style, rotation, inversion and frame commands are recorded if and only if their bit is set. |
| Recorder.TextRecorded | libs/libgfx/DrawReplay.cpp:923-1033 | Text commands are recorded if and only if the text bit is set and a run of text is not empty; a text longer than its 16-bit count is cut to 65535 bytes. |
| Recorder.OneBitRecorded | libs/libgfx/DrawReplay.cpp:788-905 | One-bit bitmaps are recorded if and only if their bit is set, they have data and a positive extent, and the data is within the inline limit; Recorder.GrayRecorded, ColourRecorded and PackedRecorded say the same of the others, masks counting as data. |
| Recorder.LeftOut | libs/libgfx/DrawReplay.cpp:691-1107 | With everything recorded every call becomes one command, except an empty text and a bitmap without data or without extent. |
| Recorder.RunReplaysIff | libs/libgfx/DrawReplay.cpp:336-650 | A run recorded whole, exported and rendered reaches the target as it was made if and only if every call in it can: text of 1 to 65535 bytes, bitmaps with all their data and an extent, fonts both sides know by the same id. |
| Recorder.DrawRecorder.DRExport | libs/libgfx/DrawReplay.cpp:219-238 | Appends header, stream and end marker to what the caller already had. |
| Recorder.DrawRecorder.DRFlush | libs/libgfx/DrawReplay.cpp:246-250 | Empties the recording and keeps fonts, mask and limit. |
| Recorder.CallSurvives | libs/libgfx/DrawReplay.cpp:691-1107 | With everything recorded, the call that reaches the far target is the call that was made if and only if it draws something, its text is at most 65535 bytes and both sides agree on its font. |
| Recorder.RecordedRunReplays | libs/libgfx/DrawReplay.cpp:336-650 | A whole run of such calls, recorded, exported and rendered, reaches the target as exactly that run. |
| TextMirror.MirroredRecorder.BaseWriteText | libs/libgfx/GFX.cpp:1641-1658 | The base class's text loop moves cursor and line exactly as TextMirror.CharacterGoes says, character by character, while its pixels, caught by the recorder's hook, add no command. |
| TextMirror.CharacterGoes | libs/libgfx/GFX.cpp:1641-1658 | A newline goes to the start column and one line height down, a return does nothing, any other character advances from where the cursor stands, unless lines wrap and it would pass the right edge: then it stands at the start of the next line. |
| TextMirror.UnwrappedText | libs/libgfx/GFX.cpp:1641-1658 | Without wrapping a text moves down by one line height per newline and along by the widths behind the last newline, in 16 bits, and changes nothing else. |
| TextMirror.LinesBegun | libs/libgfx/GFX.cpp:1641-1658 | With or without wrapping it moves down by one line height for each line it begins. |
| TextMirror.SettersSet | libs/libgfx/GFX.cpp:1762-1778 | Each text setter sets what it names and nothing else; a size of zero counts as one. |
| TextMirror.SetTextGoes | libs/libgfx/GFX.cpp:1746-1760 | The all-in-one call without wrapping, in its own fields: where it leaves the cursor, and what it sets. |
| TextMirror.TurnsSwap | libs/libgfx/GFX.cpp:1781-1784 | An odd quarter turn exchanges width and height, an even one keeps them, and no other call touches them. |
| TextMirror.MirroredRecorder.Make | libs/libgfx/DrawReplay.cpp:923-1046 | Any call: the commands added are those of the overload alone, and the recorder's own text state moves as a surface's would. |
| TextMirror.MirroredRecorder.BaseSetText | libs/libgfx/GFX.cpp:1746-1760 | The all-in-one call sets cursor, colours, sizes, font and rotation and then runs the text, with lines returning to the start column when rotated. |
| TextMirror.MirroredRecorder.BaseSetRotation | libs/libgfx/GFX.cpp:1781-1784 | A quarter turn swaps the extent that wrapping and the blob header use. |
| TextMirror.TextStaysInStep | libs/libgfx/DrawReplay.cpp:912-1046 | Any run under any mask: if the calls that move text state are recorded as made, replaying the recording moves a target's text state exactly as the run moves the recorder's. |
| TextMirror.RenderedTextInStep | libs/libgfx/DrawReplay.cpp:912-1046 | The same through export and rendering. |
| TextMirror.SetterInStep | libs/libgfx/DrawReplay.cpp:912-1046 | A call that sets text state leaves recorder and target with the same state, whatever it was before, if and only if it is recorded as made: let through by mask and size limit, and with a font both sides know by the same id. |
| TextMirror.MaskedTextDrifts | libs/libgfx/DrawReplay.cpp:923-929 | With text masked out the recorder's cursor and the target's differ. |
| Session.Channel.Take | libs/usbproto/usbproto_session.cpp:94-121 | One frame moves a channel as specified: close drops the unfinished record, data goes to the handler or through the assembler, everything else does nothing. |
| Session.HostSession.Pump | libs/usbproto/usbproto_session.cpp:80-125 | After any bulk read every channel has seen exactly the frames the scanner finds in all bytes read, in order, and nothing of other channels. |
| Session.SendData | libs/usbproto/usbproto_session.cpp:35-55 | Outbound data is cut into non-empty frames of at most USB_MAX_PAYLOAD bytes. It succeeds exactly for a known channel and non-empty data that the transport takes before it fails, and the frames then carry exactly the data; when a send fails part of the way, the frames already out carry exactly the data before it; an unknown channel or empty data sends nothing. |
| Session.RunWithoutClose | libs/usbproto/usbproto_session.cpp:94-121 | Without a close, a reassembled channel has seen the data bytes of its own frames end to end. |
| Session.RunPlain | libs/usbproto/usbproto_session.cpp:103-113 | A plain handler is called with exactly the non-empty data payloads of its channel, in order, closes or not; without a handler nothing is delivered. |
| Session.CloseCuts | libs/usbproto/usbproto_session.cpp:94-101 | A close, whatever payload it carries, parts the stream: what comes before and after it is cut into records separately. |
| Session.PayloadAppends | libs/usbproto/usbproto_session.cpp:94-121 | The bytes a channel carries compose over frame sequences. |
| Ring.OffsetSurvivesWrap | services/usbd.cpp:54-75 | Taking a free-running 32-bit counter modulo the capacity survives the counter's wrap if and only if the capacity divides 2^32. |
| Ring.RingBuffer.Write | services/usbd.cpp:78-95 | Appends exactly the longest prefix that fits, in one or two copies, across the wrap of the 32-bit counters. |
| Ring.RingBuffer.ReadExact | services/usbd.cpp:98-129 | Waits, wake by wake, while the writer adds bytes; takes exactly the oldest bytes as soon as a wake finds enough, and gives up with nothing taken at the first wake that says the time is up, even if that wake brought the bytes. |
| Ring.RingBuffer.Used | services/usbd.cpp:74-75 | Head minus tail in 32-bit arithmetic is the number of bytes in the ring, for ever. |
| UsbdTx.Conservation | services/usbd.cpp:324-418 | Over all interleavings: payloads on the wire, the ping-pong buffers and the ring together are the bytes accepted from the app, in order; every data frame holds 1 to USB_MAX_PAYLOAD bytes; at thread exit nothing in a buffer is lost or sent twice. |
| UsbdTx.Drains | services/usbd.cpp:343-418 | From any reachable state with the channel up, the TX thread by itself comes to put everything accepted on the wire. |
| UsbdTx.WaitingMeansSent | services/usbd.cpp:361-385 | With the channel up the TX thread waits only when everything accepted is on the wire. |
| UsbdTx.EverythingSentIff | services/usbd.cpp:343-418 | From any reachable state in which the channel is down and no write to the ring is under way, every run to the TX thread's end leaves exactly the ring's bytes beyond the one read the thread is still on its way to; everything accepted is on the wire at the end if and only if that read takes the whole ring. |
| UsbdTx.OneFrameIsSent | services/usbd.cpp:343-418 | If the channel goes down before the TX thread has looked at the ring, exactly the bytes beyond one frame's payload are lost. |
| UsbdTx.BytesStayBehind | services/usbd.cpp:343-418 | There is a run that ends with a byte left in the ring. |
| UsbdTx.CloseOvertakes | services/usbd.cpp:514-518 | There is a run in which the close frame goes out ahead of a byte accepted before it. |
| Broker.Pushed | libs/usbproto/usbproto_broker.cpp:95-104 | Sending through a socket, however it takes bytes, keeps what was sent and what is pending together unchanged, never takes back a sent byte and never grows the rest. |
| Broker.PushedExactly | libs/usbproto/usbproto_broker.cpp:95-104 | Of what is pending exactly as much goes as the socket has room for, 64 KiB at most a call, and the client lives unless bytes are left and the socket died. |
| Broker.Flush | libs/usbproto/usbproto_broker.cpp:95-118 | The queue is sent exactly as far as the socket goes, in pieces of at most 64 KiB, wherever the consumed prefix lies; a live client keeps at most one MiB of it. |
| Broker.Offer | libs/usbproto/usbproto_broker.cpp:275-276 | A frame is queued behind everything pending and then sent as far as the socket goes. |
| Broker.OfferedKeeps | libs/usbproto/usbproto_broker.cpp:266-280 | Queueing a broadcast keeps what a client was sent and is owed equal to every broadcast since it joined. |
| Broker.Hub.Broadcast | libs/usbproto/usbproto_broker.cpp:261-283 | Exactly the clients with room and a live socket stay, in order, each owed exactly the broadcasts since it joined with at most the queue limit pending; exactly the clients without room count as dropped. |
| Broker.CastOne | libs/usbproto/usbproto_broker.cpp:261-283 | In a broadcast a client stays if and only if the frame fits its limit with what is pending and its socket takes all of it or is not dead; what it was then sent is what the socket has room for. |
| Broker.CastSplits | libs/usbproto/usbproto_broker.cpp:261-283 | A broadcast to a list of clients is a broadcast to each, in order. |
| Broker.Hub.Serve | libs/usbproto/usbproto_broker.cpp:221-258 | A client's turn sends what its socket takes, reads exactly the bytes that arrived before its socket ran dry or closed, and keeps the client exactly if both directions survived. |
| Broker.Hub.ServeAll | libs/usbproto/usbproto_broker.cpp:221-258 | A poll's turns leave exactly the surviving clients, in order, and feed each client's parser exactly its own bytes. |
| Broker.ServedOne | libs/usbproto/usbproto_broker.cpp:221-258 | In a poll a client stays if and only if its socket did not die with bytes pending and was not closed by the far end; it is sent what the socket has room for if writable, and heard only if readable and still alive. |
| Broker.ServedAllSplits | libs/usbproto/usbproto_broker.cpp:221-258 | A poll of a list of clients is a poll of each, in order. |
| Broker.ReceivedExactly | libs/usbproto/usbproto_broker.cpp:230-250 | A socket's chunks are heard whole and in order up to the first answer that brings none; only a closed socket ends the client. |
| Broker.Hub.Read | libs/usbproto/usbproto_broker.cpp:230-250 | A client's bytes add that client's frames, whole and re-encoded, behind whatever the device was sent before. |
| Broker.Hub.Poll | libs/usbproto/usbproto_broker.cpp:183-259 | One poll, with any newcomers: the clients that remain, in order, with what each was sent and is still owed, are what the turns make of the old clients followed by the newcomers; each client's parser is fed exactly the bytes its socket yielded. |
| Broker.Hub.Accept | libs/usbproto/usbproto_broker.cpp:206-217 | A newcomer is owed nothing sent before it joined. |
| Broker.Hub.SetClientQueueLimit | libs/usbproto/usbproto_broker.cpp:290-292 | A zero limit is ignored. |
| Broker.Hub.ClientOrder | libs/usbproto/usbproto_broker.cpp:230-250 | What the device got from a client, in order, is what a scan of that client's bytes gives, whatever other clients did and also after it left. |
| Broker.Hub.DeviceStreamIsWhole | libs/usbproto/usbproto_broker.cpp:234-244 | The device-bound bytes scan cleanly as exactly the injected frames. |
| DrLink.App.Decide | src/drawreplay_link.cpp:75-98 | A frame is stored if anything forces it, if it differs from the last one, or if a keyframe is due: at least keyframeMs, unless zero, since the last frame stored, on a 32-bit clock that wraps. Otherwise it is skipped. The force flag is consumed. |
| DrLink.App.Store | src/drawreplay_link.cpp:107-115 | The slot takes the newest frame; one still waiting is counted as dropped. |
| DrLink.App.Take | src/drawreplay_link.cpp:225-235 | The sender takes what waits and leaves the slot empty. |
| DrLink.App.Send | src/drawreplay_link.cpp:237-240 | A send that fails ends the sender's loop; the link flag stays up until the channel is closed. |
| DrLink.App.Close | src/drawreplay_link.cpp:243-244 | Leaving the loop, for whatever reason, takes the link flag down. |
| DrLink.App.Open | src/drawreplay_link.cpp:199-209 | A new channel starts from a blank far end and forces the next frame, before the link is announced. |
| DrLink.App.Announce | src/drawreplay_link.cpp:210-210 | The link flag goes up in a step of its own; the render thread may have taken the force flag by then. |
| DrLink.App.RequestFullFrame | src/drawreplay_link.cpp:146-155 | A viewer's request forces the next frame. |
| DrLink.App.Conserved | src/drawreplay_link.cpp:75-116 | In every interleaving: frames accepted = sent + dropped + waiting + on their way + failed, and frames published = skipped + accepted (+ one being stored). |
| DrLink.App.NeverStranded | src/drawreplay_link.cpp:193-250 | In every interleaving, failures and reconnects included: while the sender is in its loop and nothing is waiting, on its way or forced, the viewer was last sent the last frame published. |
| Surface.BlendARGB | libs/libgfx/GFX.h:446-455 | Opaque replaces, transparent keeps, anything between gives an opaque pixel. |
| Surface.BlendedChannels | libs/libgfx/GFX.h:446-455 | Each channel of a blended pixel is the mean of that channel of the two pixels, weighted by alpha and 255 - alpha, rounded down. |
| Surface.InkedChannels | libs/libgfx/GFX.cpp:1040-1049 | So is each channel of what a write leaves; a transparent write leaves the pixel and an opaque one its colour. |
| Surface.ColourIs | libs/libgfx/GFX.h:446-455 | A colour is its alpha, red, green and blue bytes, from the top. |
| Surface.MixedLiesBetween | libs/libgfx/GFX.h:446-455 | Each blended channel lies between the two channels it mixes. |
| Surface.Nc5874Px | libs/libgfx/GFX.cpp:233-237 | A converted pixel is transparent exactly below half alpha, and is never the overlay's colour key. |
| Surface.PixelShows | libs/libgfx/GFX.cpp:233-237 | Field by field: the opaque bit, five high bits each of red, green and blue in this order from the top, blue one less where the three would spell the colour key, and zero below half alpha. |
| Surface.SpanClipExact | libs/libgfx/GFX.cpp:1059-1061 | The span fast paths clip to exactly the span's pixels on the surface if and only if the span's end fits 16 bits or the clip is empty anyway. |
| Surface.Overlay.SetPixel | libs/libgfx/GFX.cpp:652-658 | One pixel changes, the rest do not, and the dirty rectangle covers it. |
| Surface.Overlay.WritePixel | libs/libgfx/GFX.cpp:1040-1049 | One write inks one pixel by its colour's alpha. |
| Surface.Overlay.WriteFastHLine | libs/libgfx/GFX.cpp:1077-1097 | The row fast path inks each pixel of the clipped span once and nothing else, and keeps the dirty rectangle honest. |
| Surface.Overlay.HLineByPixels | libs/libgfx/GFX.cpp:1096-1096 | The same effect by single writes. |
| Surface.Overlay.WriteFastVLine | libs/libgfx/GFX.cpp:1055-1075 | The column fast path inks each pixel of the clipped span once and nothing else. |
| Surface.RowsEnd | libs/libgfx/GFX.cpp:667-667 | A loop over a 16-bit row counter up to row y + h, compared as a plain integer, ends if and only if that row fits 16 bits. |
| Surface.TallRowsNeverEnd | libs/libgfx/GFX.cpp:667-667 | A rectangle from row 100 with height 32767 is one for which it never does; the same rows come again after 65536 turns. |
| Surface.Overlay.VLineByPixels | libs/libgfx/GFX.cpp:1056-1074 | The column by single writes, for as many turns of its loop as are waited for: it ends if and only if the colour is transparent or the column's end fits 16 bits, with the fast path's effect; until then its rows are inked again and again. |
| Surface.Overlay.WriteFillRect | libs/libgfx/GFX.cpp:665-668 | For as many turns of the row loop as are waited for: it ends if and only if the colour is transparent or y + h fits 16 bits, and then every pixel of the clipped rectangle was inked exactly once and no other touched; until then its rows are inked again and again. |
| Surface.Overlay.ClearBuffer | libs/libgfx/GFX.cpp:994-1007 | Clearing fills the surface, black as transparent zero, and marks everything dirty. |
| Surface.Overlay.StorePair | libs/libgfx/GFX.cpp:263-265 | One aligned 32-bit store writes two pixels, left in the low half. |
| Surface.Overlay.PresentRow | libs/libgfx/GFX.cpp:255-269 | A row of the rectangle is converted whole for either alignment of its first pixel, and nothing outside it is written. |
| Surface.Overlay.Present | libs/libgfx/GFX.cpp:239-270 | After a dirty-rectangle or full present every pixel of the plane shows its surface pixel, field by field as Surface.PixelShows says. |
| Line.WriteLine | libs/libgfx/GFX.cpp:1099-1110 | On every line none of whose intermediate values leaves 16 bits, the loop ends at the end point after max(dx, dy) + 1 pixels. Pixel k is k steps on along the longer axis and k * minor / major on the shorter one, rounded to the nearest, halves down; so each is a neighbour of the one before and within half a pixel of the ideal line. |
| LineRange.FitsWhenNarrow | libs/libgfx/GFX.cpp:1100-1108 | The exact lines that are: no value of the loop leaves 16 bits if and only if the two extents satisfy two inequalities in them and their greatest common divisor. |
| LineRange.Bounded | libs/libgfx/GFX.cpp:1106-1108 | The deviation from the ideal line never goes further than the largest multiple of the extents' divisor within half a pixel. |
| LineRange.FarReached | libs/libgfx/GFX.cpp:1106-1108 | And some turn of the loop goes that far. |
| Line.Turns | libs/libgfx/GFX.cpp:1106-1108 | One turn of the loop keeps the error balance and moves the longer side. |
| Line.BoundIsSharp | libs/libgfx/GFX.cpp:1099-1110 | Every line with extents of at most N stays within 16 bits if and only if N is at most 10923. |
| Md5.CodeIndexIsOrder | services/otad.cpp:112-126 | The code's index formulas read the message words in the order tabulated in section 3.4 of RFC 1321. |
| Md5.CodeAuxIsAux | services/otad.cpp:112-126 | The code's forms of F, G, H and I are the standard's. |
| Md5.Transform | services/otad.cpp:103-137 | One block is compressed as section 3.4 of RFC 1321 says. |
| Md5.CountAdds | services/otad.cpp:142-145 | Two words with a carry found by comparison count bits modulo 2^64. |
| Md5.LengthIsNumber | services/otad.cpp:160-178 | The length field, read as one number, is eight times the message length modulo 2^64. |
| Md5.Context.Update | services/otad.cpp:139-158 | After any run of updates the context is that of the joined message: whole blocks processed, the tail buffered, 8 times the length counted modulo 2^64. |
| Md5.Context.Final | services/otad.cpp:160-178 | The digest is that of the padded message per sections 3.1 to 3.5 of RFC 1321. |
| Md5.Md5OfPieces | services/otad.cpp:139-178 | For every split of a message into updates the digest is the digest of the message. |
| Md5.Md5OfBuf | services/otad.cpp:342-347 | One update gives the digest of the buffer. |
| Md5.Md5OfFile | services/otad.cpp:349-361 | Reading a file in 4096-byte pieces gives the digest of its contents; a file that cannot be opened gives none. |
| Md5Suite.AlphabetDigest | services/otad.cpp:65-178 | The digest of the alphabet is the one in the test suite of RFC 1321, worked out operation by operation: every table entry, rotation and starting word is used. |
| Ota.XorChecksum | services/otad.cpp:188-192 | The loop computes the exclusive or of all bytes. |
| OtaPackets.ChecksumIsParity | services/otad.cpp:188-192 | A bit of the checksum is set if and only if an odd number of bytes have it set. |
| Ota.PacketReadsBack | services/otad.cpp:195-208 | A packet reads back, whatever follows, if and only if its payload fits the receive buffer. |
| OtaPackets.ParsesIff | services/otad.cpp:279-323 | A packet is read off a stream if and only if it fits the buffer and the stream begins with its encoding; what follows is left. |
| OtaPackets.OpensIff | services/otad.cpp:514-575 | A session is opened if and only if the first packet is a BEGIN of at least 29 bytes that announces a part and a byte, and directory, acknowledgement and file are in order; which reply comes otherwise. |
| Ota.OtaStream.ReadExact | services/otad.cpp:266-273 | Exactly the next bytes of the joined messages, or failure exactly when they never come. |
| Ota.OtaStream.RecvPacket | services/otad.cpp:279-323 | One packet off the byte stream however it is cut into messages, or refusal for a bad magic, size, checksum or end. |
| Ota.RunOtaSession | services/otad.cpp:514-662 | A session's outcome and replies depend only on the bytes received, not on how they were cut into messages. |
| OtaSession.SessionIsTold | services/otad.cpp:589-662 | An open session is told by the packets of its stream: it acknowledges and stages the chunks before the first packet that is an ABORT, an END, or a chunk with a wrong size or digest, or before the link's end, and that one decides the outcome and the last reply. |
| OtaSession.AppliedWithoutAbort | services/otad.cpp:514-662 | In a stream that gets an update applied no ABORT stands among the packets before the first END, the link's end or the turn limit, and every chunk up to there has the size and the digest it names and was acknowledged in order. |
| OtaSession.AbortAbandons | services/otad.cpp:592-597 | An ABORT that finds the session open abandons it, with nothing applied and no reply of its own. |
| Ota.AppliedMeans | services/otad.cpp:514-662 | Any stream that gets an update applied began with BEGIN; the staged file is the accepted chunks end to end, their number is the announced one modulo 2^32, and the file has the announced MD5. |
| Ota.SplitZip | tools/ota_usb_upload.py:138-161 | The parts are the file cut into full chunks and a remainder, none empty. |
| Ota.UploadArrives | tools/ota_usb_upload.py:163-192 | The host's upload, in any fragmentation, is staged whole and acknowledged packet by packet if every part fits the daemon's buffer, and is abandoned if one does not. |
| Ota.WhenPartsFit | tools/ota_usb_upload.py:138-161 | Every part fits if and only if a whole chunk, or all of a smaller file, fits. |
| Ota.HostReadsBack | tools/ota_usb_upload.py:60-93 | The host's one-message reading of a packet gives the packet. |
| LockStep.OneAtATime | tools/ota_usb_upload.py:60-93 | Under any timing, any cutting and any interleaving of usbd's TX side: whenever the daemon can read a packet it is the last one the host sent, with nothing behind it; and every data frame the host takes for a message is exactly one reply, whole, in the order given, when each packet is answered at most once. |
| LockStep.TwoRepliesMerge | services/otad.cpp:573-585 | Two replies to one packet can reach the host as one message, which it rejects. |
| Ota.OneReplyEach | services/otad.cpp:514-662 | A packet gets at most one reply, except a BEGIN acknowledged before the staging file turns out not to open. |
| UploadRun.UploadInLockStep | tools/ota_usb_upload.py:163-192 | The host's packets against the daemon's own session, in any run: every message the host gets is the acknowledgement it waits for, and when it has the last one the daemon has staged the file. |
| UploadEnds.UploadCompletes | tools/ota_usb_upload.py:163-192 | Every file whose parts fit can be uploaded: there is a run of host, daemon and usbd in which the host hears of every packet and the daemon stages the file. |
| UploadEnds.PacketAnswered | tools/ota_usb_upload.py:163-192 | From any point at which nothing is under way the next packet can be sent, read, acknowledged and heard of, with nothing under way after it. |
| UploadRun.StationIs | services/otad.cpp:514-662 | The daemon in a run is the session that has read the host's packets handled so far, one by one. |
| UploadRun.RunReadsAll | services/otad.cpp:514-662 | Reading packets one by one is running the session over their bytes. |
| Ota.TotalMatters | services/otad.cpp:545-617 | Two nonzero announced totals, all else equal, can lead to different outcomes or replies if and only if the session is accepted and the first packet to overwrite the total, to end the session or to be a chunk is a chunk shorter than the total's place whose other bytes leave the decision to it. |
| Ota.TotalIsIgnored | services/otad.cpp:545-562 | In every other case outcome and replies are the same for any two nonzero totals. |
| Ota.TotalIsRead | services/otad.cpp:606-617 | In that case there are two that part the session: by a size past or inside the buffer, or by completing the chunk's digest or not. |
| Ota.ShortChunkReadsTotal | services/otad.cpp:606-617 | A chunk packet without payload takes the low word of the announced total for its size, and ends undefined if and only if that runs past the receive buffer. |
| Crc.Crc16 | libs/hwinterface/northbridge.cpp:492-502 | The byte-wise register loop computes the bit-serial checksum of the message. |
| Crc.CheckValue | libs/hwinterface/northbridge.cpp:492-502 | The checksum of "123456789" is 0x29B1, the check value of CRC-16/CCITT-FALSE. |
| Crc.StepLinear | libs/hwinterface/northbridge.cpp:496-499 | The register step is linear over exclusive or. |
| Crc.StepOneToOne | libs/hwinterface/northbridge.cpp:496-499 | The register step loses nothing. |
| Crc.OverLinear | libs/hwinterface/northbridge.cpp:492-502 | So is the whole checksum: registers of two messages differ by the register of their difference. |
| Crc.Burst | libs/hwinterface/northbridge.cpp:492-502 | Two messages that differ only inside sixteen consecutive bits never share a checksum. |
| Northbridge.BuildFrame | libs/hwinterface/northbridge.cpp:250-261 | A frame is built in place: header, payload, zero padding and checksum; both ends build it so. |
| Northbridge.FrameArrives | libs/hwinterface/northbridge.cpp:359-399 | Every frame either end builds is accepted with its type, length, flags and padded payload, or as idle. |
| Northbridge.AcceptedByBytes | libs/hwinterface/northbridge.cpp:359-399 | A frame is accepted if and only if its first byte is 0xA5, its length at most 58 and its last two bytes, low first, the checksum of the rest; type, length, flags and payload are read from their places. |
| Northbridge.BurstRefused | libs/hwinterface/northbridge.cpp:359-384 | Every accepted frame altered inside sixteen consecutive bits, in the checked bytes or in the checksum field, is refused. |
| Northbridge.SealedByDifference | libs/hwinterface/northbridge.cpp:359-384 | Whether an altered copy of a sealed frame is sealed depends on the alteration alone: the change of the body, run from the zero register, must be the change of the checksum field. |
| Northbridge.BurstAccepted | libs/hwinterface/northbridge.cpp:359-384 | An accepted frame altered inside any sixteen consecutive bits is still accepted if and only if the change is one of twelve to its last four bytes, all of them across the boundary of bytes 61 and 62. |
| Northbridge.StraddleUnseen | libs/hwinterface/northbridge.cpp:258-260 | Each of the twelve goes unseen in every accepted frame, because the checksum is stored low byte first. |
| Northbridge.UnseenIsBurst | libs/hwinterface/northbridge.cpp:258-260 | Each of the twelve is a change inside sixteen consecutive bits that start in byte 60 or 61. |
| Northbridge.Host.Parse | libs/hwinterface/northbridge.cpp:359-425 | Every frame carrying something goes exactly one way, to the request waiting for that type or to the callback; refused frames are counted as blank or corrupt. |
| Northbridge.Host.Collect | libs/hwinterface/northbridge.cpp:196-232 | A request that is answered gets the latest reply of its own type, received since the request was made. |
| Northbridge.Peripheral.Landed | Firmware/northbridge/src/dspi.cpp:159-190 | The firmware accepts exactly the frames the host accepts, and every transfer is counted once. |
| Encoder.DecodedIsPhase | Firmware/northbridge/src/encoder.cpp:27-32 | Along any run of line readings the steps decoded equal the phase turned through modulo 4, each skipped state standing for half a turn. |
| Encoder.BounceNetsOut | Firmware/northbridge/src/encoder.cpp:24-32 | Bounce between two neighbouring states comes to the plain difference of first and last. |
| Encoder.DirByLines | Firmware/northbridge/src/encoder.cpp:24-32 | A step counts up when A changes to differ from B or B changes to agree with A, down in the two opposite cases, and not at all otherwise. |
| Encoder.Decoder.Interrupt | Firmware/northbridge/src/encoder.cpp:67-90 | One interrupt keeps every account: fewer than four steps pending, four times position plus pending equal to the steps decoded, skipped states counted, the phase relation; the position moves only when the pending steps come to a whole detent and start again from zero. |
| Encoder.Decoder.TakeDelta | Firmware/northbridge/src/encoder.cpp:192-198 | Everything the poller was ever given sums to the position. |
| Encoder.Decoder.TaskWake | Firmware/northbridge/src/encoder.cpp:102-142 | Everything the task ever took sums to the position; it reports at most two events, a turn with the delta clamped to a byte and the level before, then the button with its new level if it moved, each with that position. |
| Encoder.Decoder.ButtonReportsAlternate | Firmware/northbridge/src/encoder.cpp:132-142 | Over any run of wakes the levels of the button reports alternate, the first against the level the task started with, and the last is the button's level. |
| Encoder.Decoder.TaskStart | Firmware/northbridge/src/encoder.cpp:111-113 | Starting the task sets the state without decoding, keeps all counts, and moves the drift by the phase it jumps. |
| Encoder.Decoder.PositionTracksPhase | Firmware/northbridge/src/encoder.cpp:67-90 | After any run of interrupts, starts and readings: steps counted and errors name the phase turned through since power-on, modulo 4, if and only if the starts' jumps come to whole turns. |
| Encoder.StartKeepsPhase | Firmware/northbridge/src/encoder.cpp:111-113 | A start jumps by a whole number of turns if and only if it finds the lines as the decoder last saw them. |

## Left out

- DrawReplay's text arguments are never null pointers here, `setFontId` and the convenience overloads that only forward (`print`, `println`, `writeTextF`, `setTextColor` with one argument, the non-const bitmap overloads) are not modelled.
- Floats travel as their 32 bits; angles of arcs are not interpreted.
- Two-dimensional arrays stand for the row-major surface and overlay memory (the NC5874 mode has no row padding), so addresses matter only for store alignment.
- Multi-buffering, rotation, `drawRGB565Bitmap`, `setPanelEffects`, styled, anti-aliased and thick drawing, glyph bitmaps.
- Line.WriteLine: requires a line on which no value leaves 16 bits, which LineRange.FitsWhenNarrow decides from the extents; what the loop draws after an overflow is not modelled; the clip of writes to the surface is that of `writePixel`.
- Records.ChunksDoNotMatter: requires safe records, because the assembler's step back breaks it for the others, as Records.UnsafeRecordBreaks shows.
- EndToEnd.Receive: requires that no frame closes the channel; one close is EndToEnd.CloseDelivers.
- usbd: USB write failures, channel slot reuse, the receive direction and its ring overflow.
- Ring.RingBuffer.ReadExact: a wait without timeout that is never satisfied ends like one that is given up.
- UploadRun.UploadInLockStep: requires parts that fit the daemon's buffer, which Ota.WhenPartsFit decides, and a staging directory and file that open.
- LockStep.OneAtATime: requires at most one reply to a packet; Ota.OneReplyEach says when the daemon gives two, and LockStep.TwoRepliesMerge what becomes of them.
- Resync counters are related to the specification only as zero or not.
- Callbacks do not re-enter the parsers, and the broker's client-frame callback is always installed.
- Broker: a socket appears as the list of answers it gives, and has no room and no bytes after that; start and stop are left out.
- Frame dump files, touch input records and clamping in the draw link.
- Ota: the texts of NAK reasons, the version string, the progress bar, file system faults after opening, unpacking and installing; a chunk whose declared size runs past the receive buffer ends the model as undefined.
- Ota.UploadArrives: requires the link to stay up for as many packets as the upload has, at most 2^32 - 2 parts and chunks below 2^32 - 24 bytes, which the host's packed fields need.
- Encoder: detent counters are unbounded integers rather than 32-bit ones, and the event queue's overflow is left out.
- Northbridge: the exchange loop, retries, timeouts, interrupt line and DMA staging are left out; a payload pointer is never null with a length.
- Padding and length of an MD5 message are those of whole bytes.
- Widgets, UI layout, system information, the camera tool, the font converter, GPIO, I2C, PWM and the southbridge audio ring: no hard property, or a copy of one proved here.
