# The RFB proxy: framing, forwarding and the audio session

A proxy sits between a VNC server, reached over TCP, and a browser, reached over a WebSocket. It cuts the
server's bytes into RFB messages and sends each one as a WebSocket message; it cuts the client's bytes into
RFB messages, takes out two audio commands and forwards the rest; and it merges audio messages of its own
into the stream to the client. This project models that engine in Dafny and proves what it promises:

- **The parsers** (`Bytes`, `Io`, `ServerParser`, `ServerStability`, `ServerGrammar`, `ClientParser`,
  `ClientGrammar`). Methods over a mutable cursor, proved equal to functions of the buffer; those functions are then
  proved to accept exactly a grammar written as a printer of fields (rectangles, Tight data, color maps, pixel
  formats, audio commands and so on, with numbers and sizes of its own), to be stable when more bytes arrive, and to
  be independent of the debug log's fallible peeks.
- **Framing and the two halves** (`Framing`, `ServerHalf`, `ClientHalf`, `ClientSession`, `Connection`). A general
  theory of cutting a stream with a parser that may ask for more; the two halves are classes. The server half keeps
  "the messages out so far are whole: each is what the parser reads after the one before it, at the pixel size then
  in force"; the client half keeps "the messages out so far, then those still in the buffer, are the messages of the
  whole stream", and so does the server half without a change of pixel size or on pixel-free input. The loops of
  `handle_connection` run over every schedule of reads, cancellations, injected messages, stores of another pixel
  size, and sends that fail or never end.
- **The audio session** (`AudioSession`, `AudioStop`, `AudioWire`, `AudioStream`, `AudioTrace`). A state machine with one
  transition for every point at which the client half, the audio tasks and the receiving loop can interleave, with
  an invariant over every run and the exact condition of the promise that no frame follows an acknowledged
  disable; the capture loop of one task as a class, with its timestamps and its wire format; and the two related,
  so that the frames of a task in any interleaving are the messages of that loop.
- **The WebM muxer** (`Ebml`, `Webm`, `WebmFields`) and **the credential reader** (`Auth`), each with a reader or a printer it
  is proved to be the inverse of.

Choices that hold throughout. Bytes are the integers below 256; shifts and masks of the source are written as
division, remainder and sums (`Io.CompactBits` justifies the one that joins fields). `Error.Other` drops its
text. Sizes are unbounded integers: `ServerStability.SizesBound` and `ServerStability.RectBound` show that those
computed from a rectangle's geometry, skipped or only compared, stay below 2^38, so 64-bit `usize` arithmetic agrees. What the environment decides (bytes read, cancellation, a failed
send, whether a stream opens, an encoded packet, a random identifier, UTF-8 validity) is a parameter or a
nondeterministic choice. `BytesMut::reserve`, the order of the channel, the closing of a one-shot channel and
the cancel safety of `read_buf` (a dropped read has taken no byte) are taken as contracts.

Where the code differs from its documentation or from the obvious claim, the model follows the code:

- An extended cut text of one to three bytes needs twelve bytes in view although it is nine to eleven bytes
  long, so it does not parse back from its own bytes (`ServerStability.ServerOwnBytes` gives the exact condition,
  `ServerStability.ShortExtendedExample` a case).
- Negating the least 32-bit integer as a cut-text length is modelled with its release outcome, the length error.
- FrameRequest is forwarded to the server like any other message; README.md:121-140 has the proxy answer it.
- StartContinuousUpdates is submessage 2 in the code and in README.md:92, and 1 in README.md:154-158.
- A frame can follow the acknowledgement of a disable, against README.md:170-175: at most one per task
  (`AudioSession.TaskHistory`). `AudioSession.FrameAfterAcknowledgement` is a run where one does;
  `AudioStop.AcknowledgementKept` says exactly when none can: when no task is between the check at the head of its
  loop and the end of that round.
- A StartEncoder that fails to open a stream leaves the previous encoder in place.
- Each audio vector carries four zero bytes beyond its declared length (`AudioStream.VectorSplits`).
- The SeekHead says that the first Cluster is at 165; it is at 166 (`Webm.SeekPositions`).
- A read error from the client leaves the client-to-server loop without the shutdown that drops the stop channel.
  The latest task has then not been told to stop if and only if it was granted and no disable followed
  (`Connection.ClientToServer`, outcome `Aborted`); `Connection.TaskLeftRunning` is an input where it has not.

## Model

| member | source | states |
|---|---|---|
| Io.CompactAt | src/messages/io.rs:63-76 | a compact length takes one to three bytes and is below 2^22 |
| Io.CompactExplained | src/messages/io.rs:63-76 | every compact length read is the reading of one of the three byte forms |
| Io.CanonicalCompactRoundTrip | src/messages/io.rs:63-76 | the shortest encoding of every value below 2^22 reads back as it, whatever follows |
| Io.CompactExample | src/messages/io.rs:111-117 | 10000 in two bytes, and a length in three |
| Io.CompactBits | src/messages/io.rs:65-72 | on the three disjoint bit groups bitwise or is addition |
| Io.Cursor.GetCompact | src/messages/io.rs:63-76 | the accumulating reader advances the cursor by exactly what it read, or reports incomplete |
| Io.ParseCutText | src/messages/server.rs:196-217 | both forms of cut text, with the length check before the end is looked for, and the flag bytes required of the extended form |
| ServerParser.ParseFiltered | src/messages/server.rs:97-139 | the cursor after the copy and palette filters, with or without the debug peek; other filters are an error |
| ServerParser.ParseTight | src/messages/server.rs:81-141 | the cursor after the five forms of a Tight rectangle, with or without the debug peek |
| ServerParser.ParseRectangle | src/messages/server.rs:67-176 | one round of the rectangle loop: the end of the rectangle, the break of LastRect, or the error |
| ServerParser.ParseUpdate | src/messages/server.rs:63-182 | the loop and the rewind return exactly the bytes up to the end of the rectangle list |
| ServerParser.Parse | src/messages/server.rs:58-236 | the outcome is a function of the buffer and the pixel size alone: evaluating the debug log's peeks changes nothing |
| ServerStability.ServerStable | src/messages/server.rs:58-236 | a message or a hard error is the same in every extension of the buffer |
| ServerStability.ServerPrefixIncomplete | src/messages/server.rs:58-236 | every strict prefix of an accepted message is incomplete |
| ServerStability.ServerOwnBytes | src/messages/server.rs:196-217 | a message parses back from its own bytes if and only if it is not an extended cut text of under four bytes |
| ServerStability.ShortExtendedExample | src/messages/server.rs:209-216 | a nine-byte message that is accepted in a twelve-byte buffer and incomplete by itself |
| ServerStability.SizesBound | src/messages/server.rs:77-166 | every size computed from a rectangle's geometry, the uncompressed sizes of Tight data included, is below 2^38 |
| ServerStability.RectBound | src/messages/server.rs:66-176 | no rectangle extends over 2^38 bytes, or is waited for beyond them, when pixels have at most 31 |
| ServerStability.ServerNeverStalls | src/messages/server.rs:63-182 | no buffer of 2^54 bytes is still incomplete |
| ServerStability.PixelFormatImmune | src/messages/server.rs:75-175 | a parse that meets no Raw, Cursor or VMware type-0 rectangle with pixels has the same outcome for every pixel size |
| ServerStability.PixelSizeMatters | src/messages/server.rs:77 | bytes that are one update at one byte per pixel and a longer one at two |
| ServerStability.PixelFreeMessagePrefix | src/messages/server.rs:75-175 | a buffer that begins a pixel-free one is pixel-free, so waiting for more does not hide a pixel-sized rectangle already met |
| ServerGrammar.ServerAccepts | src/messages/server.rs:58-236 | completeness: every printed message, followed by any bytes, is framed as exactly itself, given twelve bytes in view when it is an extended cut text |
| ServerGrammar.ServerExplains | src/messages/server.rs:58-236 | soundness: every accepted payload is the print of a valid message, for an update a list of rectangles of the declared length or a shorter one ended by LastRect |
| ServerGrammar.RectsAccepted | src/messages/server.rs:66-177 | the rectangle loop ends exactly where a printed rectangle list ends |
| ServerGrammar.RectsExplained | src/messages/server.rs:66-177 | whatever the rectangle loop runs over is a printed rectangle list |
| ServerGrammar.TightAccepted | src/messages/server.rs:81-141 | the five Tight forms are each measured exactly |
| ServerGrammar.TightExplained | src/messages/server.rs:81-141 | every Tight rectangle measured is one of the five forms |
| ServerGrammar.ServerGrammar | src/messages/server.rs:58-236 | the parser returns a message if and only if a valid print of it starts the buffer, and of the kind that is printed |
| ServerGrammar.ServerUnambiguous | src/messages/server.rs:58-236 | no printed message is the beginning of a different one |
| ServerGrammar.PixelsAre | src/messages/server.rs:77 | the area the parser computes is width times height times the bytes of a pixel |
| ServerGrammar.RowsAre | src/messages/server.rs:153-154 | the rows of a cursor mask take the least number of whole bytes that hold their bits |
| ServerGrammar.PaletteAre | src/messages/server.rs:117-119 | indices into a palette take one bit each, in whole bytes a row, for at most two colors and one byte each otherwise |
| ClientParser.Parse | src/messages/client.rs:99-260 | the branches over the cursor compute the message at the front of the buffer |
| ClientParser.ParseAudio | src/messages/client.rs:150-216 | the three audio submessages, their only length, and the two errors |
| ClientParser.ClientGrammar | src/messages/client.rs:99-260 | a message is returned if and only if a payload that is well-formed on its own starts the buffer |
| ClientGrammar.ClientAccepts | src/messages/client.rs:99-260 | completeness: every printed command, followed by any bytes, is parsed as the message with its fields; StartEncoder with its flag, channels, codec and bit rate |
| ClientGrammar.WellFormedPrinted | src/messages/client.rs:99-260 | soundness: every message is the print of such fields |
| ClientGrammar.ClientGrammar | src/messages/client.rs:99-260 | the parser returns a message if and only if it is that of a command printed at the front of the buffer |
| ClientParser.ClientStable | src/messages/client.rs:99-260 | a message or a hard error is the same in every extension of the buffer |
| ClientParser.ClientPrefixIncomplete | src/messages/client.rs:99-260 | every strict prefix of an accepted message is incomplete |
| ClientParser.ClientOwnBytes | src/messages/client.rs:124-145 | a message parses back from its own bytes if and only if it is not an extended cut text of under four bytes |
| ClientParser.ShortExtendedExample | src/messages/client.rs:137-144 | a nine-byte message that is accepted in a twelve-byte buffer and incomplete by itself |
| Framing.Framer.CutConserves | src/rfb.rs:112-175 | the messages cut from a stream and the rest are the stream |
| Framing.Framer.CutAppend | src/rfb.rs:112-175 | cutting a longer stream goes on where cutting the shorter one stopped |
| Framing.Framer.ChunkingIrrelevant | src/rfb.rs:112-175 | any division of a stream into reads gives the messages and the rest that parsing the whole stream repeatedly gives |
| Framing.Framer.InStepDetermined | src/rfb.rs:112-175 | two readers of the same bytes that both wait have emitted the same messages |
| ServerHalf.ServerFramerLawful | src/messages/server.rs:58-236 | the server parser meets the laws that framing needs, in every pixel format |
| ServerHalf.FramedEmit | src/rfb.rs:116-142 | the message parsed at the front of the buffer, at whatever pixel size, is the next whole message of the bytes read |
| ServerHalf.FramedRead | src/rfb.rs:157 | bytes read later change none of the messages emitted |
| ServerHalf.FramedInStep | src/rfb.rs:112-175 | messages framed with one pixel size, or from a pixel-free stream with any, are those the whole stream is cut into |
| ServerHalf.CutImmune | src/rfb.rs:117-120 | a stream without pixel-sized rectangles is cut in the same way in every pixel format |
| ServerHalf.PixelFreePrefix | src/rfb.rs:112-175 | every beginning of a pixel-free stream is pixel-free |
| ServerHalf.ReadHalf.PixelFreeInStep | src/rfb.rs:117-120 | a reader of a pixel-free stream is in step with it at every pixel size, whatever sizes it has parsed with |
| ServerHalf.ReadHalf.FixedInStep | src/rfb.rs:117-120 | a reader that has parsed with one pixel size only is in step with the whole stream |
| ServerHalf.ReadHalf.AwaitSocket | src/rfb.rs:157-173 | a read, an error, the two ends of stream and a cancellation: what each adds to the buffer, that none loses a byte, and the pixel size stored meanwhile |
| ServerHalf.ReadHalf.ReadServerMessage | src/rfb.rs:112-175 | what is returned is the message the parser reads at the front of the old buffer and the bytes that arrived, at the pixel size last stored, and exactly its bytes leave the buffer; every other outcome keeps all bytes and comes from the last await: a cancellation, a read error, or an end of stream, clean if and only if the buffer is empty; the messages emitted since the start are whole and follow one another without a gap, under any changes of pixel size |
| ServerHalf.ReadHalf.WaitingComplete | src/rfb.rs:112-175 | a reader that waits has emitted every message of the bytes read |
| Connection.InterleavesMultiset | src/main.rs:149-168 | an interleaving repeats and loses no message |
| Connection.InterleavesPlaces | src/main.rs:149-168 | in an interleaving each list keeps its order and every message comes from exactly one of them |
| Connection.Select | src/main.rs:151-165 | one round of the select takes one injected message, or one whole server message cut at the pixel size last stored, or none, or ends the loop for a stated cause, and loses no byte |
| Connection.FixedStored | src/rfb.rs:117-120 | when no other pixel size is stored during the run, every message is parsed with the first one |
| Connection.StaysInStep | src/rfb.rs:112-175 | then, or on a pixel-free stream, the reader is in step with the whole stream, and has emitted all its messages when it waits |
| Connection.ServerToClient | src/main.rs:149-172 | over every schedule of the select, every change of pixel size and every outcome of the sends, the WebSocket is handed an order-preserving interleaving of whole server messages and whole injected ones: the server messages are cut one after the other from the bytes read, each at a pixel size that was in force; all but the last message handed over are sent when a send fails or never ends; no byte is lost to a cancelled read; with a fixed pixel size or pixel-free input a loop that waits has handed over every message of the stream |
| Connection.HandledIsExpected | src/rfb.rs:189-373 | the messages handled are the first ones of the stream, and all of them once the parser stops |
| Connection.InputIsFlat | src/main.rs:123-141 | what reaches `write_all` is the payloads of the binary messages, one after the other |
| Connection.ClientToServer | src/main.rs:119-147 | unless a write failed, the server has received exactly the client's messages less the audio commands; a failure is reported if and only if a send or a write failed; how each exit came about; the audio task is told to stop on a close and on a failure of `write_all`; after a read error the stop receiver is still held if and only if a task was granted and not disabled since |
| Connection.TaskLeftRunning | src/main.rs:126-142 | one encoder, one StartContinuousUpdates and a read error leave a task whose stop receiver is held |
| ClientHalf.ClientFramerLawful | src/messages/client.rs:99-260 | the client parser meets the laws that framing needs |
| ClientHalf.Transparency | src/rfb.rs:218-366 | what handling any list of messages writes to the server is those messages verbatim and in order, less the audio commands |
| ClientHalf.WriteHalf.OnStartEncoder | src/rfb.rs:218-273 | the disable, failure and success arms: state and answer; an enabling request asks for exactly one stream, with its parameters, and is answered by the outcome; it fails if and only if the send does |
| ClientHalf.WriteHalf.OnStartUpdates | src/rfb.rs:274-325 | refusal without an encoder; otherwise the answer, then a new stop channel and a task; it fails if and only if the send does |
| ClientHalf.WriteHalf.Confirm | src/rfb.rs:327-352 | one confirmation for each occurrence of the audio pseudo-encoding, and a part of them if and only if a send fails |
| ClientHalf.WriteHalf.ForwardEncodings | src/rfb.rs:326-354 | the confirmations, then the message itself; it fails if and only if a send or the write does |
| ClientHalf.WriteHalf.OnPixelFormat | src/rfb.rs:355-362 | the shared pixel size is stored, and the message forwarded unless the write fails; `ClientSession.LatestFormat` says which size |
| ClientHalf.WriteHalf.Forward | src/rfb.rs:363-366 | every other message, FrameRequest included, is forwarded as it is, unless the write fails |
| ClientHalf.WriteHalf.OnMessage | src/rfb.rs:218-366 | every arm has the effect of `Handle` on values unless a send or a write failed, and then the peers have a prefix of it |
| ClientHalf.WriteHalf.ReadClientMessage | src/rfb.rs:375-403 | a parsed message leaves the front of the buffer; an incomplete or malformed one leaves it untouched |
| ClientHalf.WriteHalf.WriteAll | src/rfb.rs:189-373 | the input joins the stream exactly once; the call ends, normally only when the rest is incomplete, with an I/O error if and only if a send or a write failed; the state is the outcome of handling the stream's messages one by one, with the streams that were asked for |
| ClientHalf.WriteHalf.Shutdown | src/rfb.rs:405-410 | the stop receiver is dropped whether or not the shutdown of the server socket succeeds |
| ClientHalf.WriteHalf.OpenStream | src/audio/mod.rs:71-122 | a stream opens if and only if its codec is known and the environment lets it |
| ClientSession.IdleTransparent | src/rfb.rs:189-373 | between calls, the server has exactly the messages of the bytes received less the audio commands, and the buffer is the unparsed tail |
| ClientSession.WithoutAudioVerbatim | src/rfb.rs:363-366 | without audio commands, server bytes and buffer are the client's bytes |
| ClientSession.EncoderIffArmed | src/rfb.rs:218-290 | an encoder is held if and only if a StartEncoder was acknowledged with 1 since the last disable and the last StartContinuousUpdates; failures in between do not count |
| ClientSession.EncoderIsLatest | src/rfb.rs:243-257 | the encoder held is that of the latest acknowledged request |
| ClientSession.UpdatesAnswered | src/rfb.rs:274-302 | StartContinuousUpdates is answered 1, and spawns one task, exactly when armed |
| ClientSession.TaskConfigured | src/rfb.rs:303-308 | the task granted has the channels, codec and bit rate of the latest acknowledged StartEncoder |
| ClientSession.AnswersPrinted | src/rfb.rs:229-301 | the bytes of the answers to the two commands, and none to other messages |
| ClientSession.InterceptedBytes | src/messages/client.rs:150-206 | the audio commands are the messages that begin with 245, 0 and 245, 2 |
| ClientSession.EncodingsConfirmed | src/rfb.rs:326-352 | a list of encodings is confirmed as many times as it names 0x52706C41 |
| ClientSession.ConfirmationReads | src/rfb.rs:332-347 | the confirmation is an update of one empty rectangle of the audio pseudo-encoding, version 0, with codecs 0 and 1 |
| ClientSession.StopIffRunning | src/rfb.rs:225-228 | a stop receiver is held if and only if a task was granted since the last disable, and it is the latest task's |
| ClientSession.PixelSizeBounded | src/rfb.rs:355-362 | no client message makes the shared pixel size exceed 31 |
| ClientSession.LatestFormat | src/rfb.rs:355-362 | the shared pixel size is the bits per pixel of the latest SetPixelFormat, its first field, in whole bytes |
| ClientSession.FormatUnchanged | src/rfb.rs:355-362 | without a SetPixelFormat the shared pixel size is the first one |
| ClientSession.FormatFields | src/messages/mod.rs:50-66 | every SetPixelFormat parsed is the print of the fields of a pixel format |
| AudioSession.InvStep | src/rfb.rs:218-325 | every step of every participant keeps the session invariant |
| AudioSession.AtMostOneOpenStop | src/rfb.rs:303-306 | in every reachable state a task's stop channel is open if and only if its receiver is the one in `stop_chan` |
| AudioSession.ShutdownStopsAll | src/rfb.rs:405-410 | after a shutdown every task has been told to stop |
| AudioSession.EveryAnswerRight | src/rfb.rs:274-302 | in every run each grant and each refusal agrees with the acknowledgements before it |
| AudioSession.ReceivedInOrder | src/main.rs:112-113 | the client receives a prefix of what was sent, in order; at most two messages are queued |
| AudioSession.TaskHistory | src/audio/mod.rs:179-213 | in every run a task's grant comes once and first, then its frames, then at most one closing notice and no frame after it; a finished task has sent its notice while the channel is open; at most one frame follows the loss of its stop receiver |
| AudioSession.FrameAfterAcknowledgement | src/rfb.rs:225-240 | a run in which a frame follows the acknowledgement of the disable; `AudioStop.AcknowledgementKept` has the exact condition |
| AudioStop.SilentForever | src/audio/mod.rs:186-211 | a task told to stop that stands at its check or beyond the loop, or whose channel is closed, sends no frame in any continuation |
| AudioStop.FrameFollows | src/audio/mod.rs:186-211 | while the channel is open, a task past its check has a continuation in which its frame is the next event of all |
| AudioStop.StoppedTaskSilent | src/audio/mod.rs:186-211 | in every reachable state a task told to stop can still send a frame if and only if the channel is open and the task is past its check and not back at it |
| AudioStop.NoticeFollows | src/rfb.rs:309-322 | on an open channel every unfinished task has a continuation in which its closing notice is the next event of all |
| AudioStop.AcknowledgementKept | src/rfb.rs:225-240 | once the acknowledgement of a disable is sent, no continuation contains a frame of the tasks so far if and only if no task is past its check and not back at it |
| AudioWire.OwnStep | src/rfb.rs:218-325 | each step of the client half moves the session to where serving its requests in order leads |
| AudioWire.OtherStep | src/audio/mod.rs:179-213 | no step of a task or of the receiving loop disturbs that |
| AudioWire.EveryRunServes | src/rfb.rs:218-325 | in every run, encoder, stop channel, tasks and answers are those of serving the requests one after the other |
| AudioWire.MessagesServed | src/rfb.rs:218-354 | handling messages on values is serving the requests they make, confirmations included |
| AudioWire.EveryRunIsSequential | src/rfb.rs:189-373 | refinement: every interleaved run that has handled these messages ends where handling them sequentially ends, with the same bytes sent to the client; after a shutdown, with a part of them |
| AudioWire.ClosingPrinted | src/rfb.rs:309-322 | the closing notice is the five bytes that refuse continuous updates |
| AudioStream.PeakStep | src/audio/mod.rs:130-136 | one more capture moves the closed form by a frame length or to its own time |
| AudioStream.StampIsPeak | src/audio/mod.rs:125-138 | below 2^64 the timestamp is the largest of e_j + L·(k − j) over the captures, from the wrapped start value |
| AudioStream.StampAdvances | src/audio/mod.rs:130-136 | every capture, dropped or not, advances the timestamp by at least a frame length until it wraps |
| AudioStream.VectorSplits | src/audio/mod.rs:141-176 | a vector begins with 245 and 1; a reader driven by the length field gets the frame with its 31-bit timestamp and key flag, then an update of no rectangles, and is back in sync |
| AudioStream.MessageReads | src/audio/mod.rs:141-176 | so it is for the message of every frame: type, length, timestamp, key flag and container are those that went in |
| AudioStream.EmptyUpdate | src/messages/server.rs:63-182 | four zero bytes are a FramebufferUpdate without rectangles |
| AudioStream.OpusEncoder.EncodeFrame | src/audio/opus.rs:57-85 | the first call, and no other, writes the initialization segment; it fails exactly when the encoder fails, the first identifier cannot be drawn, or the output does not fit; nothing outside the output is touched |
| AudioStream.Stream.ReadFrame | src/audio/mod.rs:125-138 | the timestamp follows the recorded capture times |
| AudioStream.Stream.EncodeFrame | src/audio/mod.rs:141-176 | every packet of at most 4000 bytes, with or without the segment, fits the 4512-byte buffer and becomes one audio vector; it fails only with the encoder or the random source |
| AudioStream.Finish | src/audio/mod.rs:155-166 | the fields written and the truncation four bytes late produce exactly the audio vector |
| AudioStream.Stream.Run | src/audio/mod.rs:179-218 | the frames sent are those captured while there was room, in order, each with the timestamp of its capture at 40 ms a frame; however many are dropped, the first sent and no other is the keyframe; why the loop ended |
| AudioTrace.EveryTaskFollows | src/audio/mod.rs:186-211 | in every interleaving, what a task has done is a list of rounds of the capture loop, only the last of which can end it |
| AudioTrace.RunDelivers | src/audio/mod.rs:179-218 | on such rounds the capture loop sends exactly as many messages as rounds deliver |
| AudioTrace.FramesAreSent | src/audio/mod.rs:179-218 | in every run of the session the frames of a task in the log are, while the channel is open, exactly the messages the capture loop sends on the task's rounds, so the first alone is the keyframe; on a channel closed since, at most one more is lost |
| AudioStream.TaskStreamReadsBack | src/audio/opus.rs:131-329 | the containers of a task's frames are one initialization segment and then Clusters that read back as the frames |
| Ebml.BeRoundTrip | src/audio/opus.rs:310-317 | a big-endian number of fixed width reads back |
| Bytes.NetworkOrder | src/messages/io.rs:39-61 | integers are read in network byte order, and negative ones as two's complement |
| Webm.SliceWriter.WriteAll | src/audio/opus.rs:140-144 | writing to a slice appends or fails when full, and touches nothing else |
| Webm.WriteInitializationSegment | src/audio/opus.rs:131-281 | the groups written add up to the 214-byte segment, or the buffer is too small |
| Webm.WriteFrame | src/audio/opus.rs:287-329 | the segment for a keyframe, then the Cluster; it fails exactly when the output does not fit |
| Webm.ReadFirst | src/audio/opus.rs:298-327 | the reader takes one Cluster as its timestamp and packet and goes on with what follows |
| Webm.FramesReadBack | src/audio/opus.rs:298-327 | an EBML reader of any number of Clusters recovers exactly the list of 64-bit timestamps and packets |
| Webm.InitializationReads | src/audio/opus.rs:140-278 | the segment reads as the EBML header, a Segment of unknown size, SeekHead, Info and Tracks, with nothing left over |
| Webm.InfoReads | src/audio/opus.rs:183-206 | Info reads as its three elements, with nothing left over |
| Webm.TracksRead | src/audio/opus.rs:209-278 | Tracks reads as one TrackEntry, that as its seven elements, and the last of them as the two audio settings, with nothing left over |
| WebmFields.SegmentFields | src/audio/opus.rs:140-216 | header, Segment, SeekHead, Info and Tracks under their registered identifiers |
| WebmFields.HeaderFields | src/audio/opus.rs:140-144 | EBML version 1, identifier and size limits 4 and 8, document type webm 4, readable by 2 |
| WebmFields.SeekFields | src/audio/opus.rs:152-180 | the three Seek entries as identifiers and numbers |
| WebmFields.InfoFields | src/audio/opus.rs:183-206 | a timestamp scale of 1000000 and the application name, as text |
| WebmFields.TrackFields | src/audio/opus.rs:209-278 | one audio track, number 1, A_OPUS as text; the codec delay is the pre-skip in whole nanoseconds; the Opus header has channels, pre-skip and rate in little-endian order; the audio settings |
| WebmFields.FrequencyReads | src/audio/opus.rs:269-274 | the sampling frequency is the single-precision number 48000 |
| Webm.SeekHeadReads | src/audio/opus.rs:152-180 | the SeekHead lists Info at 47, Tracks at 95 and Cluster at 165 |
| Webm.SeekPositions | src/audio/opus.rs:152-180 | Info and Tracks are where the SeekHead says and the first Cluster is one byte further |
| Auth.CredentialsGrammar | src/auth.rs:381-391 | a pair is returned if and only if its encoding starts the buffer |
| Auth.CredentialsExample | src/auth.rs:381-391 | the first length is the user name's and the second the password's |
| Auth.CredentialsIncomplete | src/auth.rs:381-391 | the reader waits if and only if no encoding of any pair starts the buffer |
| Auth.ParseClientUsernamePassword | src/auth.rs:381-391 | the cursor reader computes that pair |
| Auth.ClientUsernamePassword | src/auth.rs:341-377 | the loop over WebSocket messages, reparsing from the start of the buffer, gives the outcome of the session and the number of messages taken |
| Auth.CredentialsArrive | src/auth.rs:341-377 | for any division into messages the outcome comes with the first message that completes the encoding: the very pair encoded if both strings are text, and a refusal otherwise |
| Auth.CredentialsAwaited | src/auth.rs:341-377 | on every shorter input the loop keeps waiting |
| Auth.CredentialsReceived | src/auth.rs:341-377 | whatever is returned is the pair the messages taken hold, accepted if and only if both strings are text, and one message fewer would not have sufficed |

## Left out

- Sockets, TLS, HTTP serving, path cleaning and the command line of src/main.rs: plumbing around the loops modelled here.
- WebSocket framing and TCP: a message or a read is given with its payload.
- `RfbConnection::new` (src/rfb.rs:37-81): a relay of the handshake; only the pixel size it starts from is kept.
- Scheduling, fairness and liveness after one side leaves: only what holds in every interleaving is proved.
- PulseAudio, libopus and the random source: a capture gives a time, an encoder any packet of at most 4000 bytes, the identifier is any seven bytes.
- src/audio/mp3.rs: a wrapper over LAME whose output length cannot be seen; `AudioStream` describes the Opus encoder only.
- Tokens, public keys, passthrough authentication and `vnc_des_encrypt` of src/auth.rs: cryptographic libraries and a plain relay.
- UTF-8 validity of credentials: any predicate on bytes, so the results hold for it.
- Log text, error text and `Display`; of the debug log only its fallible peeks are kept.
- AudioSession.TaskHistory: that a task ends at all is not stated, since a blocking capture may never return.
- ServerHalf.ReadHalf.ReadServerMessage: when the pixel size changes, which size cuts a pixel-sized message depends on when the message completes, so that independence of chunking is stated for a fixed size and for pixel-free streams only.
- ClientHalf.WriteHalf.WriteAll: after an I/O error the state is not described further; the connection is given up.
