# libwebsock: a verified model of the WebSocket engine

libwebsock is a server-side WebSocket engine (RFC 6455) without any I/O of its own: bytes are pushed in, callbacks
run, and the bytes to send pile up in `out_data`. This project models that engine in Dafny and proves what it does
over whole streams and whole runs. `dafny verify dfyconfig.toml` checks everything.

## What is modelled

The engine exists twice, and the two are tied together.

* **On the heap**, in the form of the C code. `Frames.Frame` has the fields of `libwebsock_frame`, its buffer is an
  array that the header parser reallocates, and the parser is the resumable fall-through switch over five states.
  `Engine.ClientState` has the flags, `out_data`, `current_frame` and `close_info`; frames form a doubly linked list
  that is walked backwards to size a message, forwards to unmask it, and freed node by node. A ghost set `live`
  holds every frame and frame buffer allocated and not yet freed; the invariant says that it is exactly what the list
  reaches, that the list is acyclic and ends at `current_frame`, and that every frame's fields agree with a one-shot
  parse of the bytes it has received.
* **As values**. `Machine` is the receive loop as a function of one byte at a time, over the raw bytes of every
  fragment; `Session` is the simple form, a decoder that takes whole frames off a stream and knows nothing of
  chunks, buffers or lists. `Protocol` holds what both share: flags, output, the frame builders, the default
  callbacks and a history of what was sent, delivered and reported. Both stop for good in the error state, and where
  the code would call a null pointer.

The chain is: `Engine.ClientState.HandleRecv` computes `Machine.Recv` on every chunk; `Session.RecvDecodes` and
`Session.Streaming` show that `Recv`, over chunks cut in any way, computes the whole-stream decoder; and
`EndToEnd.Feed` puts the two together for the object on the heap. The other theorems are stated on the decoder, or
on lists of frames, and carried back to bytes: exactly which frame sequences are accepted (`Grammar`), transparency
of pings (`Transparency`), sending and receiving (`RoundTrip`), close safety (`Safety`), and how many closes a run
makes (`Closes`).

For an application that neither closes by itself nor returns -1, `Delivery` derives that nothing is lost: every
message that comes in is handed over, whatever the chunks, and `libwebsock_handle_recv` returns what the last frame's
function did. `Conversation` puts both directions together, for several messages with pings between them, and for a
server that sends every message back.

The application is a parameter: `onmessage` is any function from the messages delivered so far to a list of API
calls and a return value. `oncontrol`, `onclose`, `onping` and `onerror` are the default callbacks and `onpong` is
unset, as `libwebsock_client_init` leaves them.

Beside the engine stand the pieces it is made of: the UTF-8 automaton, proved equal to the grammar of RFC 3629
(`Utf8`); the buffer-size rounding (`Growth`); streaming SHA-1 against FIPS 180-1 (`Sha1`); Base64 (`Base64`); and
the accept key built from the last two (`Handshake`).

What is proved against the project's own definitions is also pinned to the standards' printed values: the frames of
section 5.7 of RFC 6455 (`Wire`), the examples of RFC 3629 and RFC 3548 (`Utf8`, `Base64`), the digest of "abc" in
FIPS 180-1 (`KnownAnswers`) and the sample handshake of RFC 6455 from its key to its accept key (`SampleHandshake`).

## Where the code falls short of the obvious claim

Each of these is a fact about the code, proved with the exact condition.

* Chunking is not invisible. A frame function that returns -1 drops the rest of its chunk, so an application that
  turns messages down sees different messages when the same bytes arrive in other pieces
  (`Chunking.ChunkingMatters`). `Chunking.ChunkingIff` gives the exact condition, and `Chunking.AnyRun` says what
  every run does, dropped bytes included.
* Of a 64-bit length only the low word is read. The length is right exactly when the high word is zero
  (`Wire.LengthReadIff`).
* The dispatch table has 512 entries but 31 rows of 16 initialisers; its last sixteen entries are null. A frame with
  a first byte of 0xF0 or more inside a fragmented message, which should fail, makes the receive loop call a null
  pointer. The value model ends the process there (`crashed`): `Session.TableIsRules` says that this is the table's
  only departure from the rules, `Grammar.NullCallIff` exactly when a run gets there, and `Grammar.NullCalled` is
  such an input.
* Text and close reasons are validated up to their first NUL only (`Utf8.VerdictMissesTail`,
  `Utf8.VerdictOnAllDataIff`, `Grammar.NulTextPasses`), and a close reason is echoed up to its first NUL
  (`RoundTrip.EchoIsExact`).
* A close code of 5000 or more, which section 7.4 of RFC 6455 does not allow, passes the code's test and is echoed
  (`Grammar.HighCodePasses`, `Grammar.CloseCodeGap`).
* These three are the whole gap between the rules and the code: `Grammar.PassesIff` for a frame, and
  `Grammar.RulesEnforcedIff` for a run up to its first close.
* The early return of `libwebsock_dispatch_message` after a sent close leaves the finished frame current
  (`Session.StallsIff` says exactly when). Every further byte is then stored behind it and runs a frame function on
  it again; `Safety.StalledByte` says what comes of that.
* More than one close can be sent. An application may close twice in one reply (`Closes.RepliesTwice`). And after an
  application's close the peer's acknowledgement does not set RECEIVED_CLOSE_FRAME, so that a later illegal frame is
  answered with a second close (`Safety.ClosesTwice`). `Closes.CallClosesIff` says when a call makes a close frame,
  `Safety.SecondCloseIff` when a frame makes another one, and `Closes.OneCloseIff` that a whole run makes at most one
  exactly when every reply closes at most once and, after a close, no frame fails before the peer's close was
  received. For an application that never closes, `Safety.CloseSafety` proves more.
* `base64_encode` refuses what does not fit exactly when the target is not empty. For a target of length 0 its
  unsigned `targetlen - 1` wraps, nothing is refused, and the first write is past the end (`Base64.TooSmallIff`,
  `Base64.EmptyTargetPasses`).
* A close reason of more than 123 bytes is cut by `snprintf` but counted uncut: the frame carries the whole reason
  exactly up to 123 bytes, and from 127 bytes on more is read than the 128-byte buffer holds
  (`Protocol.CloseBufferIff`).
* The comment on `base64_decode` promises -1 on failure; the code returns -1 only when the target is too small, and
  on malformed input simply stops (`Base64.Base64Decode`).

## Model

| member | source | states |
|---|---|---|
| Engine.ClientState.HandleRecv | src/websock.c:374-496 | On any admissible chunk the heap client ends in exactly the state, and returns exactly the value, of the byte-at-a-time machine; the list invariant and ownership hold again; NEEDS_MORE_DATA then says whether a frame is under construction; `close_info` is never replaced |
| Engine.ClientState.Turn | src/websock.c:424-487 | One turn of the loop uses up the bytes of one frame, or the rest of the chunk, and leaves the machine on the bytes that remain |
| Engine.ClientState.Gather | src/websock.c:430-477 | Allocating, storing, header reading and the two bulk copies amount to storing the bytes one by one; a full frame is handed on with exactly its own bytes |
| Engine.ClientState.FillFrame | src/websock.c:459-477 | The bulk copy takes exactly the bytes missing from the frame, or all there are, and reports which |
| Engine.ClientState.RunFrameFn | src/websock.c:387-420 | The function found in the dispatch table under the fragment flag and the first byte, if the entry is not null, does what the machine's frame function does, and keeps the list invariant |
| Engine.ClientState.DispatchMessage | src/websock.c:165-245 | The message handed to the application has the first frame's opcode and the in-order unmasked payloads; bad text ends in error 1007; in every case all frames are freed, except that after a sent close nothing happens |
| Engine.ClientState.SumLengths | src/websock.c:191-199 | The backward pass finds the first frame and the number of payload bytes in the list |
| Engine.ClientState.UnmaskAll | src/websock.c:203-211 | The forward pass writes the concatenation of the unmasked payloads, which has exactly the length the backward pass computed |
| Engine.ClientState.HandleControlFrame | src/frames.c:72-85 | The control callback runs on the unmasked frame and, unless it failed, the same frame object is reset for reuse, the fragments before it untouched |
| Engine.ClientState.ControlCallback | src/default_callbacks.c:65-183 | In-place unmasking, the size and close checks and the answers give the link of the value model; on an error no frame is left, otherwise the list is the same but for the current frame's bytes; `close_info` is filled at most once |
| Engine.ClientState.CloseReceived | src/default_callbacks.c:99-156 | A one-byte payload fails, close info is noted once and judged by code and UTF-8, a first close is answered and any other returns -1 |
| Engine.ClientState.NewContinuationFrame | src/frames.c:32-44 | A fresh empty frame is linked behind the current one, and the list is again well formed |
| Engine.ClientState.Error | src/websock.c:145-163 | The error bit is set, one close is queued through onerror, and every frame is freed |
| Engine.ClientState.FailAndCleanup | src/frames.c:26-30 | SHOULD_CLOSE and error 1002; no frame is left |
| Engine.ClientState.FreeAllFrames | src/frames.c:46-70 | Each frame and each buffer is freed once, and nothing stays allocated |
| Engine.ClientState.CleanupFrames | src/frames.c:87-102 | Freeing from the first frame on frees every frame and buffer exactly once |
| Engine.ClientState.MakeFragment | src/websock.c:262-372 | Refused after both closes, before the handshake and beyond 0xfffffff0 bytes; otherwise exactly the encoded frame is appended and its size returned |
| Engine.ClientState.WriteHeader | src/websock.c:354-369 | The header bytes are the head and the length field in its three forms, and nothing before them changes |
| Protocol.CloseBufferIff | src/api.c:78-94 | The frame carries code and whole reason exactly for reasons of at most 123 bytes; from 127 bytes on more is read than the buffer holds |
| Engine.ClientState.MakeCloseFrameWithReason | src/api.c:76-97 | A close frame with the code in network order and the reason, and SENT_CLOSE even when the frame is refused |
| Engine.ClientState.MakeTextDataFrame | src/api.c:99-125 | Refused while a continuous frame is in progress, else one final text frame |
| Engine.ClientState.MakeInitTextContinuationFrame | src/api.c:140-146 | The continuous-frame flag is set and a first fragment made |
| Engine.ClientState.MakeEndContinuationFrame | src/api.c:170-184 | The flag is cleared and a final continuation frame made |
| Engine.ClientState.CleanupOutdata | src/websock.c:247-260 | The output is emptied and what was there counts as flushed |
| Engine.ClientState.OnMessage | src/websock.c:228-239 | The message is recorded and the application's calls take effect in order |
| Engine.ClientState.constructor | src/api.c:186-199 | A new client has no frame, no output, no close info and only its initial flags |
| Engine.ClientState.FinishHandshake | src/websock.c:623-634 | The response becomes the output and CONNECTED the only flag |
| Engine.ClientState.Destroy | src/api.c:201-215 | No frame, buffer, output or close info stays allocated |
| Frames.Frame.ReadHeader | src/websock.c:40-119 | Resumed after any number of bytes it returns 1 exactly when the whole header is there, with every field equal to a one-shot parse, and the received bytes unchanged |
| Frames.Frame.Take | src/websock.c:447-457 | One more byte is stored in bounds and the header read as far as it goes; the frame is again well formed |
| Frames.Frame.LoadMask | src/websock.c:90-114 | The mask and size are those of the frame, and the buffer holds the whole of it |
| Frames.Frame.Grow | src/websock.c:101-113 | The new buffer has the rounded size, below twice the frame, and keeps the bytes received |
| Frames.Frame.Extend | src/websock.c:461-473 | The bulk copy stays within the frame and the buffer |
| Frames.Frame.UnmaskInto | src/websock.c:203-211 | One frame's unmasked payload is written behind what is there |
| Frames.Frame.UnmaskInPlace | src/default_callbacks.c:90-95 | A control payload is unmasked where it stands, the header and the rest untouched |
| Growth.RoundUpIsLeastPower | src/websock.c:103-110 | The shift-and-or cascade gives the least power of two not below the size, for every size up to 2^32 |
| Growth.RoundUpFits | src/websock.c:100-113 | Up to 2^30 every step of the cascade stays below 2^30, and the rounded size is at most 2^30 and below twice the size |
| Machine.BulkCopy | src/websock.c:459-477 | However many payload bytes come at once, storing them together is storing them one by one |
| Machine.FrameTurn | src/websock.c:447-487 | The bytes that complete a frame run its frame function once, on exactly those bytes |
| Machine.PassesAgreeAt | src/websock.c:191-211 | At every frame, bytes written so far and bytes counted from there on add up to the message |
| Machine.PassesAgree | src/websock.c:191-213 | The backward pass computes exactly the number of bytes the forward pass writes |
| Session.TableIsRules | src/websock.c:387-420 | The table is the rule of FIN, RSV and opcode of sections 5.2, 5.4 and 5.5 of RFC 6455 for every byte, except that it is null, where it should fail, exactly for first bytes of 0xF0 or more inside a fragmented message |
| Machine.CrashIsNull | src/websock.c:480-482 | A frame ends the process exactly when its table entry is null |
| Session.ProcessIsAccept | src/websock.c:479-482 | The frame functions on the fragment list do to the message under way what the frame-level decoder does |
| Session.StallsIff | src/websock.c:177-182 | A finished frame stays current exactly when it is a legal final data frame that came after a close was sent |
| Session.RecvDecodes | src/websock.c:424-487 | One chunk, whatever the callbacks return: the frames in it one after the other, up to an error or the first -1, which drops the rest |
| Session.DecodeSplit | src/websock.c:424-477 | Decoding a stream is decoding a part of it and then the rest behind the bytes left over |
| Session.Streaming | src/websock.c:374-496 | Streaming refinement: a smooth stream cut into any chunks ends with the messages, callbacks, output, flags and partial frame of the whole-stream decoder |
| Chunking.AnyRun | src/websock.c:374-496 | What any sequence of chunks does when callbacks may return -1 |
| Chunking.ChunkingIff | src/websock.c:482-486 | Every way of cutting a stream ends like the decoder if and only if no frame function returns -1, short of an error, with bytes still to come |
| Chunking.CutsDiffer | src/websock.c:482-486 | Otherwise the stream in one chunk and the stream with its last byte apart end differently |
| Chunking.LosesTail | src/websock.c:482-486 | What follows a frame that returns -1 is lost with its chunk |
| Chunking.ChunkingMatters | src/websock.c:482-486 | Two empty messages to an application that returns -1: one is delivered from one chunk, two from two |
| EndToEnd.CalmAdmissible | src/websock.c:374-496 | What the receive function asks of a chunk follows from the frames in it: none above 2^30 bytes, none that meets a null entry, none completing data after a sent close |
| EndToEnd.Feed | src/websock.c:374-496 | The client on the heap, fed a stream that calls no null pointer in any chunks, ends as the whole-stream decoder says |
| EndToEnd.Send | src/api.c:99-184 | The calls that send a message in parts add exactly its encoded frames to out_data, and leave a client that may send the next message |
| EndToEnd.Receive | src/websock.c:374-496 | Those bytes, masked frame by frame with any keys and cut into any chunks, reach the receiver's onmessage exactly once and whole, or fail it with 1007 |
| EndToEnd.ReceiveAtOnce | src/websock.c:374-496 | The same in one chunk: and handle_recv returns exactly what onmessage returned for the message, -1 included, or 4, the size of the close frame, for text it fails on |
| Wire.Extend | src/websock.c:45-99 | What a prefix says about its frame does not change as more bytes arrive |
| Wire.PayloadAt | src/websock.c:203-211 | Octet i of the payload is the octet received xor octet i mod 4 of the key (section 5.3 of RFC 6455) |
| Wire.MaskedExamples | src/websock.c:40-119 | The masked text "Hello" of section 5.7 of RFC 6455 and its masked pong, as the very bytes printed there, are read as these frames |
| Wire.LengthReadIff | src/websock.c:74-83 | The length read is the length of section 5.2 of RFC 6455 exactly when the high word is zero |
| Wire.OutputDecodes | src/websock.c:315-371 | An independent reader that insists on minimal lengths recovers exactly the frames made |
| Wire.EncodedExamples | src/websock.c:315-371 | The unmasked examples of section 5.7 of RFC 6455 - "Hello" whole and in two fragments, 256 bytes and 64KiB - as the very bytes printed there |
| Wire.ClientFrameIsMasked | src/websock.c:354-370 | The client's frame is the encoder's bytes with a key inserted at their payload offset and the payload masked |
| Wire.ClientFrameAt | src/default_callbacks.c:90-95 | In the client's frame the key stands right before the payload, and octet i is masked with octet i mod 4 of the key |
| Wire.DecodeClientFrame | src/websock.c:262-372 | What the encoder writes, masked as a client masks it, the decoder reads back, whatever follows |
| Protocol.MakeFragmentKeepsOut | src/websock.c:341-371 | A successful call appends one encoded frame and returns its size; a refused one changes nothing |
| Protocol.RefusedIff | src/websock.c:303-339 | A fragment is refused, and then changes nothing, exactly on a client not connected or closed from both sides and above 0xFFFFFFF0 bytes |
| Protocol.ContinuousIff | src/api.c:99-184 | After any call the continuous-frame flag is set exactly if the call begins a fragmented message, or it was set before and the call does not end one |
| Protocol.CallRefusedIff | src/api.c:99-184 | On a connected client before any close, of the calls whose payload fits exactly text and binary messages are refused, exactly while the flag is set |
| Protocol.CallSends | src/api.c:59-184 | What each call puts on the wire, in terms of FIN, RSV, opcode and payload; the code of a close comes first, high byte first, and is 1000 if none is named |
| Protocol.CodeBytes | src/websock.h:79-86 | The codes the engine sends of itself are the bytes 03 E8, 03 EA and 03 EF |
| Protocol.CallKeepsOut | src/api.c:59-184 | Every builder keeps the output a concatenation of one frame per successful call and changes no earlier byte |
| Protocol.OutDecodes | src/websock.c:247-371 | Between two clean-ups the output can be read back as exactly the list of frames made |
| Runs.DecodeIsAcceptAll | src/websock.c:424-487 | Decoding a stream is taking its frames one after the other |
| Runs.ClientStreamFrames | src/websock.c:40-119 | In a client's stream the decoder finds exactly the frames sent, whatever the keys and MASK bits |
| Runs.MaskStreamIs | src/websock.c:315-371 | Masking the bytes of out_data frame by frame, split by their own headers, gives the client stream of the frames made |
| Runs.StreamRuns | src/websock.c:374-496 | A client's stream in any chunks is the run over its frames and ends at a frame boundary, also inside a fragmented message and after control frames |
| Grammar.CloseCodeGap | src/default_callbacks.c:119-120 | The code's test lets through exactly the codes of section 7.4 of RFC 6455 and those from 5000 on |
| Grammar.CloseJudged | src/default_callbacks.c:109-130 | What is extracted into close info and judged is the code's test on the payload itself: the code, and the reason up to its first NUL |
| Grammar.PassesIff | src/default_callbacks.c:84-130 | A frame passes the code's tests exactly when it is legal by RFC 6455 or overlooked - a close code from 5000 on, or text or a reason ill-formed behind its first NUL - and never both; null entries are met by illegal frames only |
| Grammar.FrameStep | src/websock.c:479-482 | A frame ends the process where the table is null, and otherwise fails its client exactly when it does not pass |
| Grammar.LegalRuns | src/websock.c:215-239 | Along legal frames the message under way is the concatenation of the payloads since the last message began |
| Grammar.ErrorIffIllegal | src/websock.c:387-420 | Until a close came, a run ends in the error state if and only if some frame is illegal where it stands and not overlooked - head, control size, close payload, or assembled text - and the first such frame has a table entry; in a null call if and only if it has none |
| Grammar.RulesEnforcedIff | src/default_callbacks.c:115-130 | The run fails if and only if some frame is illegal by RFC 6455, unless the first bad frame meets a null entry, or none is bad but one is overlooked |
| Grammar.NullCallIff | src/websock.c:479-482 | Any run, closes included, calls a null pointer if and only if a frame it gets as far as has a first byte of 0xF0 or more while a message is open |
| Grammar.ChunksNullCallIff | src/websock.c:374-496 | The same for bytes in any chunks |
| Grammar.NullCalled | src/websock.c:418-419 | A text fragment followed by a frame with first byte 0xFF calls a null pointer |
| Grammar.NulTextPasses | src/util.c:68-73 | Text of a NUL and the byte 0xFF is illegal and does not fail the client |
| Grammar.HighCodePasses | src/default_callbacks.c:119-120 | A close with code 5000 is illegal and does not fail the client |
| Grammar.FirstIllegalDecides | src/default_callbacks.c:84-130 | The first illegal frame that is not overlooked decides: a null call with nothing sent, or the error code and, as the last thing sent, one close frame of the bytes 03 EF for bad text and 03 EA otherwise |
| Grammar.ChunksErrorIffIllegal | src/websock.c:374-496 | The same as ErrorIffIllegal for bytes in any chunks, from any client at a frame boundary outside a message |
| Grammar.ChunksFirstIllegal | src/websock.c:374-496 | The same as FirstIllegalDecides for bytes in any chunks |
| Grammar.HandshakeStartsRun | src/websock.c:623-634 | After the handshake a client is in the state from which these theorems start, with the response as its output and no continuous frame in progress |
| Safety.RecvKeepsInv | src/websock.c:374-496 | One receive call on any bytes, those that run into a stalled frame or end the process included, keeps close safety, and once a close was sent it sends and delivers nothing |
| Safety.CloseSafety | src/websock.c:145-163 | In any run of chunks and clean-ups with an application that does not close by itself, a close frame is the last frame ever made, and nothing is delivered after it |
| Safety.AtMostOneClose | src/default_callbacks.c:132-156 | Two close frames never stand in the output |
| Safety.ErrorIsFinal | src/websock.c:426-429 | The error state holds no frame, no chunk changes anything and each returns 0; nor after the end of the process |
| Safety.SecondCloseIff | src/default_callbacks.c:132-156 | After a close was sent a frame fails the client exactly for a bad close or an illegal head with a table entry, and adds a second close exactly then and if RECEIVED_CLOSE_FRAME is not set; no frame sets it any more; a null entry ends the process and sends nothing |
| Safety.ClosingReturns | src/default_callbacks.c:74-156 | The value of every frame after a close was sent: 4 with a second close, -1 for what fails without one, for a close that does not fail and for a null entry, and 0 otherwise |
| Closes.CallClosesIff | src/api.c:71-97 | A call to close makes a close frame exactly unless one was sent and one received; no other call makes one |
| Closes.FrameMakes | src/websock.c:165-245 | Before any close, a frame whose message is delivered makes as many closes as the reply calls for, any other at most one, which ends the exchange |
| Closes.OneCloseIff | src/websock.c:303-307 | A whole run makes at most one close, whatever the application calls, if and only if every reply to a message closes at most once and, after a close, no frame it gets as far as fails before the peer's close was received |
| Closes.ChunksOneCloseIff | src/websock.c:374-496 | The same for bytes in any chunks |
| Closes.RepliesTwice | src/api.c:71-97 | One empty message and a reply that closes twice: two closes, though no frame fails |
| Safety.StalledByte | src/websock.c:447-482 | A byte that runs into a stalled frame fails the client exactly when the frame ended a fragmented message, and adds a second close exactly if RECEIVED_CLOSE_FRAME is not set |
| Safety.ClosesTwice | src/default_callbacks.c:142-149 | The application closes, the peer acknowledges and then sends an illegal frame in a later chunk: two closes are sent, 88 with 03 E8 and 88 with 03 EA |
| Transparency.PingsTransparent | src/default_callbacks.c:158-174 | A run with its pings and pongs taken out delivers the same messages, fails and closes alike, and sends the same frames but for pongs |
| Transparency.PingsInsertableInStreams | src/frames.c:72-85 | On the wire, in any chunks, inserting pings and pongs at frame boundaries changes no delivery |
| Transparency.OnePongPerPing | src/default_callbacks.c:43-53 | In a run that has sent no close and met no null entry, the pongs sent are the payloads of the pings received, one for one and in order |
| RoundTrip.CallsMakeFrames | src/api.c:99-184 | From any point of a message sent in n parts the calls still to come make the frames still to come, after which no continuous frame is in progress |
| RoundTrip.MessagesMakeFrames | src/api.c:99-184 | Messages sent one after the other, each in any number of parts, make all their frames in order; none is refused because of the one before |
| RoundTrip.RoundTrip | src/websock.c:165-372 | A message sent in any number of frames, masked and received in any chunks, reaches onmessage exactly once with the first opcode and exactly the bytes sent, or fails with 1007 if it is text that is not valid up to its first NUL |
| RoundTrip.CloseEcho | src/default_callbacks.c:132-140 | An accepted close is answered with its code and its reason up to the first NUL, an empty one with the bytes 03 E8, and nothing else is sent |
| RoundTrip.ChunksCloseEcho | src/websock.c:374-496 | For bytes in any chunks, the first close after legal frames is answered so, and nothing is sent or delivered after the answer |
| RoundTrip.EchoPayload | src/websock.c:121-143 | Extracting close info and encoding it again gives that payload |
| RoundTrip.EchoIsExact | src/default_callbacks.c:26-36 | The reply is the payload received exactly when that is not empty and its reason has no NUL |
| Delivery.PassingFrame | src/websock.c:165-245 | What every passing frame but a close does: a message is recorded, the application's calls run in order and its own value is returned; a ping adds one pong and returns its size; anything else changes at most the record of control frames and returns 0 |
| Delivery.CloseReturns | src/default_callbacks.c:132-140 | A passing close returns the size of the reply |
| Delivery.BadFrame | src/frames.c:26-30 | A frame that does not pass returns 4, the size of the close frame, or -1 at a null entry; SHOULD_CLOSE is set exactly for an illegal first byte, a close of one byte and a bad close reason |
| Delivery.NothingLost | src/websock.c:482-486 | For an application that never closes and never returns -1, any bytes whatever with no close before their last frame lose nothing, in any chunks: the smoothness the other theorems ask for holds, and the client ends as the run over the frames |
| Delivery.ChunksDeliver | src/websock.c:374-496 | Of such bytes exactly the messages that end before the first frame that does not pass are delivered, in order, each with the opcode of its first frame and the payloads of its data frames |
| Delivery.RecvValue | src/websock.c:374-496 | The value of handle_recv on any chunk that completes no data after a sent close: -1 from the first frame that returns it, otherwise what the last complete frame returned |
| Delivery.LastFrameReturns | src/websock.c:479-496 | One call on any number of passing frames returns what the last frame's function did; for a message that is what onmessage returned, having been given all messages so far |
| Conversation.MessageReturns | src/websock.c:228-244 | One call on the frames of one message returns exactly what onmessage returned, whatever the application does, or 4 for text that fails with 1007 |
| Conversation.MessagesArrive | src/websock.c:165-372 | Messages sent one after the other, each in any number of parts, with any pings and pongs between the frames, masked with any keys and received in any chunks, are all delivered, whole and in order |
| Conversation.EchoServer | examples/autobahn-echo.c:80-100 | A server that sends every message back, fed passing frames in any chunks, sends exactly one frame with the same kind and payload for each message and one pong for each ping, in the order in which they came |
| Utf8.ValidateUtf8Sequence | src/util.c:63-74 | Accepts a C string if and only if it is a concatenation of the well-formed sequences of section 4 of RFC 3629 |
| Utf8.AutomatonIsGrammar | src/utf.c:10-37 | The automaton ends in ACCEPT exactly on the grammar |
| Utf8.FirstChar | src/utf.c:20-25 | What is accepted begins with one well-formed sequence, after which the automaton is back in ACCEPT |
| Utf8.ScansScalars | src/utf.c:27-37 | On the encoding of any list of scalar values, `codep` holds each of them when the automaton is back in ACCEPT |
| Utf8.AcceptedIsEncoding | src/utf.c:27-37 | Whatever is accepted is the encoding of the scalar values decoded from it |
| Utf8.EncodeIsChar | src/utf.c:10-25 | The encoding of a scalar value is one sequence of the grammar |
| Utf8.Examples | src/utf.c:10-25 | Characters of the examples in section 7 of RFC 3629, of one to four bytes, are encoded as the bytes printed there |
| Utf8.CharIsEncoding | src/utf.c:10-25 | A sequence of the grammar is the encoding of one scalar value |
| Utf8.VerdictOnAllDataIff | src/util.c:68-73 | Stopping at the first NUL gives the right verdict exactly when there is none, or the part before it is bad, or the part after it is good |
| Utf8.VerdictMissesTail | src/util.c:68-73 | An input on which it does not |
| Sha1.SHA1Context.Reset | src/sha1.c:71-85 | The context of the empty message |
| Sha1.SHA1Context.ProcessMessageBlock | src/sha1.c:207-301 | The digest becomes the compression of the old digest and the block, by the functions and constants of FIPS 180-1, which the lemmas below pin down |
| Sha1.SHA1Context.InputByte | src/sha1.c:158-184 | The digest so far hashes exactly the full blocks taken in, and the two length words are the bit length, which wraps at 2^61 bytes |
| Sha1.SHA1Context.Input | src/sha1.c:143-185 | The bytes are appended to the message; the context is corrupted exactly by input after the result or by reaching 2^64 bits |
| Sha1.SHA1Context.PadMessage | src/sha1.c:326-371 | Both padding branches give the digest of the padded message |
| Sha1.SHA1Context.Result | src/sha1.c:104-119 | Unless corrupted, the digest is that of the one-shot definition, however often it is asked for |
| Sha1.HashPieces | src/sha1.c:71-185 | For every way of splitting a message across calls the digest is that of the whole; it fails exactly from 2^61 bytes on |
| Sha1.PaddedLeast | src/sha1.c:326-356 | The padded message is the least whole number of blocks with room for the one bit and the length |
| Sha1.PaddedInjective | src/sha1.c:361-368 | Different messages have different paddings |
| Sha1.ChooseIs | src/sha1.c:243-252 | Bit for bit the first round function takes its second argument where the first is one and its third where it is zero |
| Sha1.MajorityIs | src/sha1.c:264-274 | The third round function gives what two of its arguments agree on, in every order |
| Sha1.RotationIs | src/sha1.c:46-48 | The three rotations used are multiplication by 2^n modulo 2^32 with the top n bits added at the bottom |
| Sha1.KIsRoot | src/sha1.c:209-215 | The four constants are the integer parts of 2^30 times the square roots of 2, 3, 5 and 10 |
| KnownAnswers.AbcDigest | src/sha1.c:207-301 | The digest of "abc" is A9993E36 4706816A BA3E2571 7850C26C 9CD0D89D, as in appendix A of FIPS 180-1 |
| KnownAnswers.AbcDigestBytes | src/websock.c:592-598 | and these are its twenty bytes in the order in which they are encoded |
| Base64.DecodeEncode | src/base64.c:45-216 | Decoding an encoding gives the bytes back for every length; the encoding is 4*ceil(n/3) characters of the alphabet and the pad |
| Base64.AlphabetIs | src/base64.c:11 | The letter of each value is its place in the alphabet of table 1 in RFC 3548 |
| Base64.ValueIsPlace | src/base64.c:86-99 | The value of a letter is its place in that alphabet, and -1 exactly for characters outside it |
| Base64.Examples | src/base64.c:45-78 | The three examples of section 7 of RFC 3548, of six, five and four bytes |
| Base64.DecoderForgives | src/base64.c:176-195 | Skipped characters, and missing or extra pads, do not change what the letters of an encoding decode to |
| Base64.TooSmallIff | src/base64.c:48-49 | The test refuses what does not fit exactly when the target is not empty |
| Base64.EmptyTargetPasses | src/base64.c:48-49 | An empty target is never refused |
| Base64.Base64Encode | src/base64.c:45-78 | A target that is not empty is refused exactly when characters and terminator do not fit, else the encoding and a NUL are written and nothing after them; an empty one is written past |
| Base64.EncodeTriple | src/base64.c:19-34 | The four letters of the 24-bit group, written from the last to the first |
| Base64.DecodeTriple | src/base64.c:108-158 | Nothing for a foreign character before the final pads; else three bytes less one for each final pad, and none from three pads on |
| Base64.NextQuadruple | src/base64.c:187-195 | Starting before the appended pads it never reads past them, and a quadruple that used one of them holds a pad |
| Base64.Base64Decode | src/base64.c:168-216 | Ends on every C string; -1 exactly when the target is too small, else the decoded bytes are written and nothing after them |
| Handshake.WordBytesInverse | src/websock.c:592-598 | The bytes scanned are the big-endian bytes by which SHA-1 reads a word |
| Handshake.HexOfScans | src/websock.c:592-598 | Printing words with %08x and scanning two digits at a time gives their bytes, most significant first |
| Handshake.AcceptKeyLength | src/websock.c:599-600 | The accept key has 28 characters |
| Handshake.ComputeAccept | src/websock.c:585-600 | base64buf is the C string base64(SHA-1(key ++ GUID)) of 28 characters |
| Handshake.AcceptKeyDecodes | src/websock.c:585-600 | A client that decodes the accept key finds the digest of its own key and the GUID |
| SampleHandshake.GuidIsString | src/websock.c:537 | GUID is the string of section 1.3 of RFC 6455 |
| SampleHandshake.SampleAcceptKey | src/websock.c:585-600 | The accept key of dGhlIHNhbXBsZSBub25jZQ== is s3pPLMBiTxaQ9kYGzzhZRbK+xOo=, as in section 1.3 of RFC 6455 |

## Left out

- Sockets, TLS, processes and the example servers: I/O around the engine. Of examples/autobahn-echo.c there is the callback.
- Conversation.EchoServer: for a callback that returns 0; that of examples/autobahn-echo.c falls off its end after a success.
- Delivery.NothingLost: for bytes with no close before the last frame, and an application that never closes or returns -1; `Chunking` covers the rest.
- Logging, `libwebsock_dump_frame` and allocation failure: allocation always succeeds.
- The HTTP request: finding headers, subprotocol selection and formatting of the response. The response is a parameter of `FinishHandshake`; of the handshake only the accept key is computed, for keys without NUL that fit `concat`.
- Engine.ClientState.HandleRecv: asks for frames of at most 2^30 bytes, because the code rounds sizes in a signed int, for no frame that meets a null table entry, as the behaviour of C is then undefined, and for no data frame completed after a close was sent, because the early return of `libwebsock_dispatch_message` (src/websock.c:178-182) leaves the finished frame current and the next byte is then stored behind it, in the end past its buffer.
- Engine.ClientState.MakeFragment: `out_data` and chunk lengths are unbounded; the code keeps them in 32-bit ints.
- Engine.ClientState.RunFrameFn: for entries of the table that are not null.
- EndToEnd.Feed: for streams that call no null pointer, which `Grammar.ChunksNullCallIff` tells from their frames.
- Engine.ClientState.Turn: for the same chunks as HandleRecv.
- Engine.ClientState.Gather: for the same chunks as HandleRecv.
- Frames.Frame.ReadHeader: for frames of at most 2^30 bytes, whose rounded size fits a signed int.
- Frames.Frame.Take: for frames of at most 2^30 bytes, as ReadHeader.
- Frames.Frame.LoadMask: for frames of at most 2^30 bytes, as ReadHeader.
- EndToEnd.Receive: for parts that make frames of at most 2^30 bytes.
- Frames.Frame.Grow: for sizes of at most 2^30, as ReadHeader.
- Safety.RecvKeepsInv: bytes stored behind a stalled frame are taken to fit; past the end of its buffer the behaviour of C is undefined.
- Safety.AtMostOneClose: under the same two conditions as CloseSafety.
- Safety.CloseSafety: bytes behind a stalled frame fit, as for RecvKeepsInv; asks for an application that never sends a close itself; `Closes.OneCloseIff` and `Safety.StalledByte` say what happens otherwise.
- Engine.ClientState.FinishHandshake: only for a client without out_data; with one the code copies as many bytes of the response as the old buffer is long.
- Engine.ClientState.OnMessage: the application decides on its calls from the messages delivered, not from what the calls return.
- Engine.ClientState.MakeCloseFrameWithReason: for reasons of at most 123 bytes without NUL, by their type; `Protocol.CloseBufferIff` says what longer ones do.
- Handshake.ComputeAccept: for keys that fit `concat`; the code does not test the length.
- Grammar.ErrorIffIllegal: looks at runs up to and including the first close frame, after which other rules apply.
- Replaceable callbacks: only onmessage is arbitrary; the others are the defaults, and an onmessage callback acts through the API of src/api.c only.
- The CONNECTING bit, which nothing in the engine tests.
- The client's MASK bit is not checked, as in the code: a key is always read.
- Some variants in src/api.c differ only in how the length is found (`strlen` or a parameter) and are one builder here.
- The dispatch table, its null entries included, and the two UTF-8 tables are functions with the same entries, not arrays.
- The loops of the receive function and of SHA-1 are split into methods; the fields they change are the same.
- The unions of pointer casts for 16- and 32-bit network order are arithmetic on bytes.
- docs/API.txt describes an older interface and was not followed.
