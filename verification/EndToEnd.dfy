// The heap-allocated client driven chunk by chunk, against the whole-stream
// decoder; and a message on its way from one such client to another.

module EndToEnd {
  import opened Bytes
  import opened Wire
  import opened Protocol
  import opened Machine
  import opened Session
  import Engine
  import Runs
  import RoundTrip
  import Conversation

  /** No frame of the stream, the one it breaks off in included, is longer than 2^30 bytes. */
  predicate FramesFit(bytes: seq<byte>)
    decreases |bytes|
  {
    SizeOk(bytes) && (Complete(bytes) ==> FramesFit(bytes[FrameSize(bytes)..]))
  }

  /** Bytes still to come can only be right if those already there are. */
  lemma SizeOkPrefix(a: seq<byte>, b: seq<byte>)
    requires SizeOk(a + b)
    ensures SizeOk(a)
  {
    hide HeaderComplete, FrameSize;
    Extend(a, b);
  }

  lemma FitRest(raw: seq<byte>, rest: seq<byte>)
    requires Complete(raw) && FrameSize(raw) == |raw| && FramesFit(raw + rest)
    ensures FramesFit(rest)
  {
    hide Complete, FrameSize;
    FirstFrame(raw, rest);
  }

  lemma CrashStays(app: App, c: Conn, bytes: seq<byte>)
    requires Ok(c) && c.link.crashed
    ensures DecodeChunk(app, View(c), bytes).0.link.crashed && View(c).link.crashed
  {
  }

  /** A calm chunk of frames that fit and meet no null entry is one the receive loop may be given. */
  lemma {:induction false} CalmAdmissible(app: App, c: Conn, data: seq<byte>)
    requires Ok(c) && !c.Stalled() && Calm(app, View(c), c.Partial() + data)
    requires c.link.Ended() || FramesFit(c.Partial() + data)
    requires !DecodeChunk(app, View(c), c.Partial() + data).0.link.crashed
    ensures Admissible(app, c, data)
    decreases |data|
  {
    hide Complete, Process, Accept, Ok, View, FrameOf, DecodeChunk, Calm, Recv, SizeOk;
    if data != [] && !c.link.Ended() {
      var raw := Push(c, data[0]).Last();
      assert raw == c.Partial() + [data[0]] && c.Partial() + data == raw + data[1..];
      SizeOkPrefix(raw, data[1..]);
      if !Complete(raw) {
        ByteStored(app, c, data, -1);
        CalmAdmissible(app, Push(c, data[0]), data[1..]);
      } else {
        var c2, r := FrameDone(app, c, data, data[1..], -1);
        CompletesExactly(c.Partial(), data[0]);
        FitRest(raw, data[1..]);
        assert c2.Partial() + data[1..] == data[1..];
        if c2.link.crashed { CrashStays(app, c2, data[1..]); }
        if r != -1 { CalmAdmissible(app, c2, data[1..]); }
      }
    }
  }

  /** After some bytes of a stream whose frames fit, the frames still to come fit as well. */
  lemma {:induction false} FitSplit(app: App, s: Session, a: seq<byte>, b: seq<byte>)
    requires FramesFit(a + b)
    ensures FramesFit(a)
    ensures var (s1, left) := Decode(app, s, a);
            s1.link.Ended() || FramesFit(left + b)
    decreases |a|
  {
    hide Accept, Payload, PayloadLen, HeaderComplete, SizeOk;
    SizeOkPrefix(a, b);
    if Complete(a) {
      Extend(a, b);
      var n := FrameSize(a);
      assert a + b == a[..n] + (a[n..] + b) && (a + b)[n..] == a[n..] + b;
      FitSplit(app, if s.link.Ended() then s else Accept(app, s, ParseFrame(a).value).0, a[n..], b);
    }
  }

  /** The client holds no stalled frame; what is still to come is smooth, fits, and does not end the process. */
  ghost predicate Expects(app: App, c: Conn, bytes: seq<byte>)
  {
    && Ok(c) && !c.Stalled() && Smooth(app, View(c), c.Partial() + bytes)
    && (c.link.Ended() || FramesFit(c.Partial() + bytes))
    && !Decode(app, View(c), c.Partial() + bytes).0.link.crashed
  }

  lemma SessionEnds(app: App, s: Session, bytes: seq<byte>)
    ensures s.link.Ended() ==> Decode(app, s, bytes) == (s, [])
  {
  }

  /** One chunk of such a stream may be received, and leaves such a stream. */
  lemma ChunkOfStream(app: App, c: Conn, chunk: seq<byte>, rest: seq<byte>)
    requires Expects(app, c, chunk + rest)
    ensures Admissible(app, c, chunk)
    ensures var c1 := Recv(app, c, chunk, -1).0;
            && Expects(app, c1, rest)
            && Decode(app, View(c), c.Partial() + (chunk + rest)) == Decode(app, View(c1), c1.Partial() + rest)
  {
    hide Complete, Accept, Decode, DecodeChunk, Smooth, Calm, Recv, Ok, Admissible, FramesFit;
    var a := c.Partial() + chunk;
    assert c.Partial() + (chunk + rest) == a + rest;
    assert View(c).link == c.link;
    DecodeSplit(app, View(c), a, rest);
    SmoothChunk(app, View(c), a);
    if !c.link.Ended() { FitSplit(app, View(c), a, rest); }
    SessionEnds(app, Decode(app, View(c), a).0, Decode(app, View(c), a).1 + rest);
    CalmAdmissible(app, c, chunk);
    RecvDecodes(app, c, chunk, -1);
    var c1 := Recv(app, c, chunk, -1).0;
    assert View(c1).link == c1.link;
    if c.link.Ended() { ErrorAbsorbs(app, c, chunk, -1); }
  }

  lemma ExpectsFacts(app: App, c: Conn, bytes: seq<byte>)
    requires Expects(app, c, bytes)
    ensures Ok(c) && !c.Stalled()
  {
  }

  /** Streaming refinement of the heap: a client fed a smooth stream in any chunks ends
      with the messages, callbacks, output and flags of the whole-stream decoder, holding the bytes the
      stream breaks off in. */
  method Feed(state: Engine.ClientState, chunks: seq<seq<byte>>)
    requires state.Valid() && Expects(state.onmessage, state.Abs(), Flatten(chunks))
    modifies state, state.live
    ensures state.Valid() && fresh(state.live - old(state.live))
    ensures (View(state.Abs()), state.Abs().Partial())
         == old(Decode(state.onmessage, View(state.Abs()), state.Abs().Partial() + Flatten(chunks)))
  {
    hide Decode, Expects, View, Ok, Admissible, Recv, Complete, Engine.ClientState.Valid;
    ghost var app := state.onmessage;
    assert chunks[0..] == chunks;
    ExpectsFacts(app, state.Abs(), Flatten(chunks));
    for i := 0 to |chunks|
      invariant state.Valid() && fresh(state.live - old(state.live))
      invariant Ok(state.Abs()) && !state.Abs().Stalled() && Expects(app, state.Abs(), Flatten(chunks[i..]))
      invariant Decode(app, View(state.Abs()), state.Abs().Partial() + Flatten(chunks[i..]))
             == old(Decode(state.onmessage, View(state.Abs()), state.Abs().Partial() + Flatten(chunks)))
    {
      assert chunks[i..][0] == chunks[i] && chunks[i..][1..] == chunks[i + 1..];
      ghost var c := state.Abs();
      ChunkOfStream(app, c, chunks[i], Flatten(chunks[i + 1..]));
      ExpectsFacts(app, Recv(app, c, chunks[i], -1).0, Flatten(chunks[i + 1..]));
      ChunkEnds(app, c, -1);
      var _ := state.HandleRecv(chunks[i]);
    }
    ChunkEnds(app, state.Abs(), -1);
  }

  // ---- A message between two clients ----

  /** The calls that send a message add exactly its encoded frames to the output. */
  lemma SentBytes(l: Link, op: byte, parts: seq<seq<byte>>)
    requires RoundTrip.Sendable(op, parts) && RoundTrip.CanSend(l) && (|parts| == 1 ==> !l.continuous) && OutConsistent(l)
    ensures var l1, fs := RunCalls(l, RoundTrip.SendCalls(op, parts)), RoundTrip.MessageFrames(op, parts);
            && l1.sent == l.sent + fs && Encodable(fs) && l1.out == l.out + EncodeAll(fs) && OutConsistent(l1)
            && RoundTrip.CanSend(l1) && !l1.continuous
  {
    var calls, fs := RoundTrip.SendCalls(op, parts), RoundTrip.MessageFrames(op, parts);
    assert Encodable(fs);
    assert calls[0..] == calls && fs[0..] == fs;
    hide RoundTrip.SendCalls, RoundTrip.MessageFrames, RunCalls, EncodeAll, Encodable, RoundTrip.Sendable;
    RoundTrip.CallsMakeFrames(l, op, parts, 0);
    RunCallsKeepsOut(l, calls);
    MoreFrames(l, RunCalls(l, calls), fs);
  }

  /** Two consistent links, the second with more frames sent. */
  lemma MoreFrames(l: Link, l1: Link, fs: seq<WsFrame>)
    requires OutConsistent(l) && OutConsistent(l1) && Encodable(fs) && l1.sent == l.sent + fs
    requires l1.flushed == l.flushed && l1.prefix == l.prefix
    ensures l1.out == l.out + EncodeAll(fs)
  {
    hide EncodeAll;
    MoreBytes(l.prefix, l.sent, l.flushed, fs);
  }

  lemma MoreBytes(prefix: seq<byte>, sent: seq<WsFrame>, n: nat, fs: seq<WsFrame>)
    requires Encodable(sent) && Encodable(fs) && n <= |sent| && Encodable(sent + fs)
    ensures prefix + EncodeAll((sent + fs)[n..]) == prefix + EncodeAll(sent[n..]) + EncodeAll(fs)
  {
    hide EncodeAll;
    var tail := sent[n..];
    assert (sent + fs)[n..] == tail + fs;
    EncodeAllSplit(tail, fs);
  }

  /** A client sends a message in parts, and may then send another. */
  method Send(sender: Engine.ClientState, op: byte, parts: seq<seq<byte>>)
    requires RoundTrip.Sendable(op, parts) && RoundTrip.CanSend(sender.LinkOf()) && OutConsistent(sender.LinkOf())
    requires |parts| == 1 ==> !sender.flags.continuousFrame
    modifies sender`outData, sender`history, sender`flags
    ensures Encodable(RoundTrip.MessageFrames(op, parts)) && OutConsistent(sender.LinkOf())
    ensures sender.Out() == old(sender.Out()) + EncodeAll(RoundTrip.MessageFrames(op, parts))
    ensures RoundTrip.CanSend(sender.LinkOf()) && !sender.flags.continuousFrame
  {
    ghost var l := sender.LinkOf();
    SentBytes(l, op, parts);
    hide RoundTrip.Sendable, Protocol.Call, OutConsistent, EncodeAll, RoundTrip.CallAt, RoundTrip.MessageFrames;
    var calls := RoundTrip.SendCalls(op, parts);
    hide RoundTrip.SendCalls;
    ghost var all := calls;
    while calls != []
      invariant RunCalls(sender.LinkOf(), calls) == RunCalls(l, all)
      decreases |calls|
    {
      var _ := sender.MakeCall(calls[0]);
      calls := calls[1..];
    }
  }

  /** The frames of a client stream fit if their payloads leave room for the longest header. */
  lemma {:induction false} StreamFits(fs: seq<WsFrame>, ms: seq<Runs.Masking>)
    requires |fs| == |ms| && Runs.Keyed(ms) && Encodable(fs)
    requires forall i | 0 <= i < |fs| :: |fs[i].payload| <= MAX_FRAME - 14
    ensures FramesFit(Runs.ClientStream(fs, ms))
    decreases |fs|
  {
    hide ClientFrame, Complete, FrameSize, HeaderComplete, SizeOk;
    if fs == [] {
      NothingFits();
    } else {
      var first, rest := ClientFrame(fs[0], ms[0].key, ms[0].bit), Runs.ClientStream(fs[1..], ms[1..]);
      DecodeClientFrame(fs[0], ms[0].key, ms[0].bit, rest);
      assert (first + rest)[|first|..] == rest;
      ShortFrame(fs[0], ms[0].key, ms[0].bit, rest);
      StreamFits(fs[1..], ms[1..]);
    }
  }

  lemma NothingFits()
    ensures FramesFit([])
  {
  }

  lemma ShortFrame(f: WsFrame, key: seq<byte>, bit: bool, rest: seq<byte>)
    requires |f.payload| <= MAX_FRAME - 14 && |key| == 4
    ensures SizeOk(ClientFrame(f, key, bit) + rest)
  {
    DecodeClientFrame(f, key, bit, rest);
    hide Complete, FrameSize, HeaderComplete, Unmask;
    assert |ClientFrame(f, key, bit)| <= 14 + |f.payload|;
  }

  /** The round trip on the heap: the bytes Send added to the sender's out_data, masked frame by frame with any
      keys and cut into any chunks, reach the receiver's onmessage exactly once and whole. */
  method Receive(receiver: Engine.ClientState, ghost op: byte, ghost parts: seq<seq<byte>>,
                 ghost ms: seq<Runs.Masking>, chunks: seq<seq<byte>>)
    requires RoundTrip.Sendable(op, parts) && Encodable(RoundTrip.MessageFrames(op, parts))
    requires forall i | 0 <= i < |parts| :: |parts[i]| <= MAX_FRAME - 14
    requires |ms| == |parts| && Runs.Keyed(ms)
    requires Flatten(chunks) == Runs.MaskStream(EncodeAll(RoundTrip.MessageFrames(op, parts)), ms)
    requires receiver.Valid() && receiver.Abs().Partial() == [] && RoundTrip.Idle(View(receiver.Abs()))
    modifies receiver, receiver.live
    ensures receiver.Valid() && fresh(receiver.live - old(receiver.live)) && receiver.Abs().Partial() == []
    ensures RoundTrip.Received(old(receiver.LinkOf()), receiver.LinkOf(), Message(op, Concat(parts)))
  {
    ghost var c, app := receiver.Abs(), receiver.onmessage;
    MessageExpected(app, c, op, parts, ms, chunks);
    assert c.link == receiver.LinkOf();
    hide Decode, Expects, Engine.ClientState.Valid, RoundTrip.Received, RecvAll, Flatten;
    Feed(receiver, chunks);
    assert View(receiver.Abs()).link == receiver.LinkOf();
  }

  /** Such a stream may be fed, and delivers the message. */
  lemma MessageExpected(app: App, c: Conn, op: byte, parts: seq<seq<byte>>, ms: seq<Runs.Masking>, chunks: seq<seq<byte>>)
    requires RoundTrip.Sendable(op, parts) && Encodable(RoundTrip.MessageFrames(op, parts))
    requires forall i | 0 <= i < |parts| :: |parts[i]| <= MAX_FRAME - 14
    requires |ms| == |parts| && Runs.Keyed(ms)
    requires Flatten(chunks) == Runs.MaskStream(EncodeAll(RoundTrip.MessageFrames(op, parts)), ms)
    requires Ok(c) && c.Partial() == [] && RoundTrip.Idle(View(c))
    ensures Expects(app, c, Flatten(chunks))
    ensures var (s1, left) := Decode(app, View(c), c.Partial() + Flatten(chunks));
            left == [] && RoundTrip.Received(c.link, s1.link, Message(op, Concat(parts)))
  {
    var fs := RoundTrip.MessageFrames(op, parts);
    assert RoundTrip.Underway(View(c), View(c), op, parts, 0);
    assert fs[0..] == fs && c.Partial() + Flatten(chunks) == Flatten(chunks);
    assert forall i | 0 <= i < |fs| :: |fs[i].payload| <= MAX_FRAME - 14;
    NoFrame();
    hide RoundTrip.MessageFrames, EncodeAll, Runs.ClientStream, Runs.MaskStream, Flatten, View, Ok, Decode, Smooth;
    hide RoundTrip.Received, RoundTrip.Idle, RoundTrip.Underway, RoundTrip.Sendable, RecvAll, Runs.SmoothAll;
    hide FramesFit, Encodable, Concat, RoundTrip.Final, Runs.AcceptAll;
    Runs.MaskStreamIs(fs, ms);
    RoundTrip.FramesDeliver(app, View(c), View(c), op, parts, 0);
    Runs.ClientStreamSmooth(app, View(c), fs, ms);
    StreamFits(fs, ms);
    RoundTrip.Reception(app, op, parts, ms, c, chunks);
    Streaming(app, c, chunks);
    ViewLink(RecvAll(app, c, chunks));
  }

  /** In one chunk: and libwebsock_handle_recv returns what the application did. */
  method ReceiveAtOnce(receiver: Engine.ClientState, ghost op: byte, ghost parts: seq<seq<byte>>,
                       ghost ms: seq<Runs.Masking>, chunk: seq<byte>) returns (r: int)
    requires RoundTrip.Sendable(op, parts) && Encodable(RoundTrip.MessageFrames(op, parts))
    requires forall i | 0 <= i < |parts| :: |parts[i]| <= MAX_FRAME - 14
    requires |ms| == |parts| && Runs.Keyed(ms)
    requires chunk == Runs.MaskStream(EncodeAll(RoundTrip.MessageFrames(op, parts)), ms)
    requires receiver.Valid() && receiver.Abs().Partial() == [] && RoundTrip.Idle(View(receiver.Abs()))
    modifies receiver, receiver.live
    ensures receiver.Valid() && fresh(receiver.live - old(receiver.live))
    ensures RoundTrip.Received(old(receiver.LinkOf()), receiver.LinkOf(), Message(op, Concat(parts)))
    ensures r == if RoundTrip.Deliverable(Message(op, Concat(parts)))
                 then old(receiver.onmessage(receiver.LinkOf().delivered + [Message(op, Concat(parts))])).ret
                 else 4
  {
    ghost var c, app := receiver.Abs(), receiver.onmessage;
    assert c.link == receiver.LinkOf();
    ChunkExpected(app, c, op, parts, ms, chunk);
    hide Engine.ClientState.Valid, RoundTrip.Received, RoundTrip.Deliverable, Recv, Admissible, Ok, View;
    r := receiver.HandleRecv(chunk);
    assert receiver.Abs().link == receiver.LinkOf();
  }

  lemma ChunkExpected(app: App, c: Conn, op: byte, parts: seq<seq<byte>>, ms: seq<Runs.Masking>, chunk: seq<byte>)
    requires RoundTrip.Sendable(op, parts) && Encodable(RoundTrip.MessageFrames(op, parts))
    requires forall i | 0 <= i < |parts| :: |parts[i]| <= MAX_FRAME - 14
    requires |ms| == |parts| && Runs.Keyed(ms)
    requires chunk == Runs.MaskStream(EncodeAll(RoundTrip.MessageFrames(op, parts)), ms)
    requires Ok(c) && c.Partial() == [] && RoundTrip.Idle(View(c))
    ensures chunk != [] && Admissible(app, c, chunk)
    ensures var (c1, r) := Recv(app, c, chunk, -1);
            var m := Message(op, Concat(parts));
            && RoundTrip.Received(c.link, c1.link, m)
            && r == if RoundTrip.Deliverable(m) then app(c.link.delivered + [m]).ret else 4
  {
    assert [chunk][1..] == [] && Flatten([]) == [] && Flatten([chunk]) == chunk + [] == chunk;
    hide RoundTrip.MessageFrames, EncodeAll, Runs.ClientStream, Runs.MaskStream, Flatten, View, Ok, Decode, Recv, Expects;
    hide RoundTrip.Received, RoundTrip.Idle, RoundTrip.Deliverable, Concat, Encodable, Admissible;
    var fs := RoundTrip.MessageFrames(op, parts);
    MessageExpected(app, c, op, parts, ms, [chunk]);
    ChunkOfStream(app, c, chunk, []);
    Runs.MaskStreamIs(fs, ms);
    Conversation.MessageReturns(app, c, op, parts, ms);
    StreamNotEmpty(fs, ms);
  }

  lemma StreamNotEmpty(fs: seq<WsFrame>, ms: seq<Runs.Masking>)
    requires |fs| == |ms| && Runs.Keyed(ms) && Encodable(fs) && fs != []
    ensures Runs.ClientStream(fs, ms) != []
  {
  }
}
