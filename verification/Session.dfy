// The simple form: a decoder of whole frames, and the proof that the receive
// loop, fed in any chunks, computes it.

module Session {
  import opened Bytes
  import opened Wire
  import opened Protocol
  import opened Machine

  /** The link and the fragmented message under way: its opcode and the payload so far. */
  datatype Session = Session(link: Link, pending: Option<Message>)

  // ---- Frame legality by FIN, RSV and opcode (sections 5.2, 5.4 and 5.5 of RFC 6455) ----

  predicate IsControl(head: byte) { Opcode(head) in {OP_CLOSE, OP_PING, OP_PONG} }

  /** May a frame with this first byte come, given whether a fragmented message is open? */
  predicate LegalHead(open: bool, head: byte)
  {
    && Rsv(head) == 0
    && if IsControl(head) then Fin(head)
       else if open then Opcode(head) == OP_CONTINUE
       else Opcode(head) == OP_TEXT || Opcode(head) == OP_BINARY
  }

  /** The frames for which the table holds a null pointer. */
  predicate NoEntry(open: bool, head: byte) { open && head >= 0xF0 }

  /** The table is exactly these rules, except that its last sixteen entries, which should make an illegal frame
      fail, are null. */
  lemma TableIsRules(open: bool, head: byte)
    ensures Lookup(open, head) == NullFn <==> NoEntry(open, head)
    ensures NoEntry(open, head) ==> !LegalHead(open, head)
    ensures Lookup(open, head) ==
              if NoEntry(open, head) then NullFn
              else if !LegalHead(open, head) then FailFn
              else if IsControl(head) then ControlFn
              else if Fin(head) then DispatchFn
              else ContinuationFn
  {
  }

  // ---- One frame ----

  /** The message under way once `f` is added to it. */
  function Extended(s: Session, f: WsFrame): Message
  {
    match s.pending
    case None => Message(Opcode(f.head), f.payload)
    case Some(m) => Message(m.opcode, m.payload + f.payload)
  }

  ghost function Accept(app: App, s: Session, f: WsFrame): (Session, int)
  {
    if NoEntry(s.pending.Some?, f.head) then (Session(s.link.(crashed := true), None), -1)
    else if !LegalHead(s.pending.Some?, f.head) then
      var (l, r) := Fail(s.link);
      (Session(l, None), r)
    else if IsControl(f.head) then
      var (l, r) := OnControl(s.link, f);
      (Session(l, if l.error then None else s.pending), r)
    else
      var m := Extended(s, f);
      if !Fin(f.head) then (s.(pending := Some(m)), 0)
      else if s.link.sentClose then (s, 0)
      else if m.opcode == OP_TEXT && !TextOk(m.payload) then
        var (l, r) := Error(s.link, CLOSE_WRONG_TYPE);
        (Session(l, None), r)
      else
        var (l, r) := Deliver(app, s.link, m);
        (Session(l, None), r)
  }

  // ---- A whole stream ----

  /** All frames of the stream in turn, up to an error; and the bytes of the frame it breaks off in. */
  ghost function Decode(app: App, s: Session, bytes: seq<byte>): (Session, seq<byte>)
    decreases |bytes|
  {
    if s.link.Ended() then (s, [])
    else
      match ParseFrame(bytes)
      case None => (s, bytes)
      case Some(f) => Decode(app, Accept(app, s, f).0, bytes[FrameSize(bytes)..])
  }

  /** Data may not be completed once a close was sent. */
  predicate Stuck(s: Session, f: WsFrame)
  {
    s.link.sentClose && LegalHead(s.pending.Some?, f.head) && !IsControl(f.head) && Fin(f.head)
  }

  /** No frame makes its function return -1, which drops the rest of a chunk, unless nothing follows or the
      client has failed; and none completes data after a close was sent. */
  ghost predicate Smooth(app: App, s: Session, bytes: seq<byte>)
    decreases |bytes|
  {
    s.link.Ended()
    || match ParseFrame(bytes)
       case None => true
       case Some(f) =>
         var (s1, r) := Accept(app, s, f);
         var rest := bytes[FrameSize(bytes)..];
         !Stuck(s, f) && (r == -1 && !s1.link.Ended() ==> rest == []) && Smooth(app, s1, rest)
  }

  // ---- One chunk ----

  /** The frames of a chunk in turn, up to an error or to the first that returns -1. */
  ghost function DecodeChunk(app: App, s: Session, bytes: seq<byte>): (Session, seq<byte>)
    decreases |bytes|
  {
    if s.link.Ended() then (s, [])
    else
      match ParseFrame(bytes)
      case None => (s, bytes)
      case Some(f) =>
        var (s1, r) := Accept(app, s, f);
        if r == -1 then (s1, []) else DecodeChunk(app, s1, bytes[FrameSize(bytes)..])
  }

  /** No frame of the chunk that is reached completes data after a close was sent. */
  ghost predicate Calm(app: App, s: Session, bytes: seq<byte>)
    decreases |bytes|
  {
    s.link.Ended()
    || match ParseFrame(bytes)
       case None => true
       case Some(f) =>
         var (s1, r) := Accept(app, s, f);
         !Stuck(s, f) && (r == -1 || Calm(app, s1, bytes[FrameSize(bytes)..]))
  }

  /** A smooth stream loses nothing in one chunk. */
  lemma {:induction false} SmoothChunk(app: App, s: Session, bytes: seq<byte>)
    requires Smooth(app, s, bytes)
    ensures Calm(app, s, bytes) && DecodeChunk(app, s, bytes) == Decode(app, s, bytes)
    decreases |bytes|
  {
    hide Accept, Payload, PayloadLen, HeaderComplete, Stuck;
    if !s.link.Ended() && Complete(bytes) {
      SmoothChunk(app, Accept(app, s, ParseFrame(bytes).value).0, bytes[FrameSize(bytes)..]);
      NoFrame();
    }
  }

  lemma NoFrame()
    ensures ParseFrame([]) == None
  {
  }

  // ---- The machine as a session ----

  /** What the machine's state means: the completed fragments are the message under way. */
  function View(c: Conn): Session
    requires Ok(c)
  {
    Session(c.link,
            if |c.raws| < 2 then None
            else Some(Message(Opcode(c.raws[0][0]), AssembleTo(c.raws, |c.raws| - 1))))
  }

  /** A byte does not change what the completed fragments mean. */
  lemma PushKeepsView(c: Conn, b: byte)
    requires Ok(c) && Ok(Push(c, b))
    ensures View(Push(c, b)) == View(c)
  {
    hide Complete, Payload;
    if |c.raws| >= 2 {
      AssemblePrefix(c.raws, Push(c, b).raws, |c.raws| - 1);
    }
  }

  /** The frame whose bytes these are. */
  function FrameOf(raw: seq<byte>): WsFrame
    requires Complete(raw)
  {
    WsFrame(raw[0], Payload(raw))
  }

  /** A client whose current frame has just been completed. */
  predicate Ready(c: Conn)
  {
    c.raws != [] && AllComplete(c.raws) && !c.link.Ended() && (c.receiving <==> |c.raws| >= 2)
  }

  /** The session before the frame just completed is taken into account. */
  function Before(c: Conn): Session
    requires Ready(c)
  {
    Session(c.link,
            if |c.raws| < 2 then None
            else Some(Message(Opcode(c.raws[0][0]), AssembleTo(c.raws, |c.raws| - 1))))
  }

  /** Assembling the whole list extends the message under way by the last frame. */
  lemma WholeMessage(c: Conn)
    requires Ready(c)
    ensures Message(Opcode(c.raws[0][0]), Assemble(c.raws)) == Extended(Before(c), FrameOf(c.Last()))
  {
    hide Payload;
    if |c.raws| == 1 {
      assert AssembleTo(c.raws, 1) == AssembleTo(c.raws, 0) + Payload(c.raws[0]);
      assert [] + Payload(c.raws[0]) == Payload(c.raws[0]);
    }
  }

  /** Appending an empty frame opens or continues the message. */
  lemma ContinuationIsAccept(c: Conn)
    requires Ready(c)
    ensures Ok(ContinuationConn(c).0)
    ensures View(ContinuationConn(c).0) == Before(c).(pending := Some(Extended(Before(c), FrameOf(c.Last()))))
  {
    hide Payload;
    WholeMessage(c);
    var raws := c.raws + [[]];
    assert !Complete([]);
    assert forall i | 0 <= i < |c.raws| :: raws[i] == c.raws[i];
    AssemblePrefix(c.raws, raws, |c.raws|);
  }

  lemma ViewLink(c: Conn)
    requires Ok(c)
    ensures View(c).link == c.link
  {
  }

  lemma NoFrames(c: Conn)
    requires Ok(c) && c.raws == []
    ensures View(c).pending == None && c.Partial() == []
  {
  }

  lemma LastEmptied(c: Conn, c1: Conn)
    requires Ready(c) && Ok(c1) && c1.raws == c.raws[|c.raws| - 1 := []]
    ensures View(c1).pending == Before(c).pending && c1.Partial() == []
  {
    hide Complete, Payload, Ok;
    AssemblePrefix(c.raws, c1.raws, |c.raws| - 1);
  }

  /** A control frame leaves the completed fragments alone. */
  lemma ControlIsAccept(c: Conn)
    requires Ready(c)
    ensures var (c1, r) := ControlConn(c);
            var (l, r1) := OnControl(c.link, FrameOf(c.Last()));
            Ok(c1) && r == r1 && View(c1) == Session(l, if l.error then None else Before(c).pending) && c1.Partial() == []
  {
    ControlOk(c);
    hide Payload, OnControl, Complete, Ok, View, Before;
    var c1 := ControlConn(c).0;
    assert View(c1).link == c1.link by { ViewLink(c1); }
    if c1.link.error { NoFrames(c1); } else { LastEmptied(c, c1); }
  }

  /** The frame functions together are Accept. */
  lemma ProcessIsAccept(app: App, c: Conn)
    requires Ready(c) && !Stuck(Before(c), FrameOf(c.Last()))
    ensures var (c1, r) := Process(app, c);
            Ok(c1) && c1.Partial() == [] && (View(c1), r) == Accept(app, Before(c), FrameOf(c.Last()))
  {
    hide Payload, OnControl, Deliver, Protocol.Error, TextOk;
    var f := FrameOf(c.Last());
    TableIsRules(c.receiving, f.head);
    match Lookup(c.receiving, f.head)
    case DispatchFn => WholeMessage(c);
    case ControlFn => ControlIsAccept(c);
    case ContinuationFn => ContinuationIsAccept(c);
    case FailFn =>
    case NullFn =>
  }

  /** A finished frame stays current, to be run into by the next byte, exactly when it is a legal final data
      frame that came after a close was sent. */
  lemma StallsIff(app: App, c: Conn)
    requires Ready(c)
    ensures Process(app, c).0.Stalled() <==> Stuck(Before(c), FrameOf(c.Last()))
  {
    assert !Complete([]);
    hide Complete, Payload, OnControl, Deliver, Protocol.Error, TextOk;
    TableIsRules(c.receiving, c.Last()[0]);
    if !Stuck(Before(c), FrameOf(c.Last())) {
      ProcessIsAccept(app, c);
    }
  }

  // ---- Bytes as they come ----

  /** The byte that completes a frame is its last. */
  lemma CompletesExactly(raw: seq<byte>, b: byte)
    requires !Complete(raw) && Complete(raw + [b])
    ensures FrameSize(raw + [b]) == |raw| + 1
  {
    Extend(raw, [b]);
    if HeaderComplete(raw) {
    } else if |raw| >= 2 {
      assert PayloadOffset(raw + [b]) == PayloadOffset(raw);
    }
  }

  /** A frame complete in a prefix is the first frame of the whole. */
  lemma FirstFrame(raw: seq<byte>, rest: seq<byte>)
    requires Complete(raw) && FrameSize(raw) == |raw|
    ensures ParseFrame(raw + rest) == Some(FrameOf(raw)) && FrameSize(raw + rest) == |raw|
    ensures (raw + rest)[|raw|..] == rest
  {
    Extend(raw, rest);
  }

  /** What the machine makes of a chunk is what the chunk decoder makes of it behind the bytes it already has. */
  ghost predicate Computes(app: App, c: Conn, data: seq<byte>, c1: Conn)
    requires Ok(c)
  {
    Ok(c1) && !c1.Stalled() && (View(c1), c1.Partial()) == DecodeChunk(app, View(c), c.Partial() + data)
  }

  /** ... of a stream, what the stream decoder makes of it. */
  ghost predicate Refines(app: App, c: Conn, data: seq<byte>, c1: Conn)
    requires Ok(c)
  {
    Ok(c1) && !c1.Stalled() && (View(c1), c1.Partial()) == Decode(app, View(c), c.Partial() + data)
  }

  /** A byte that does not complete the frame moves from the input to the partial frame. */
  lemma ByteStored(app: App, c: Conn, data: seq<byte>, ret: int)
    requires Ok(c) && !c.Stalled() && !c.link.Ended() && data != [] && !Complete(Push(c, data[0]).Last())
    ensures var c1 := Push(c, data[0]);
            && Ok(c1) && !c1.Stalled() && !c1.link.Ended() && View(c1) == View(c)
            && c1.Partial() + data[1..] == c.Partial() + data
            && Recv(app, c, data, ret) == Recv(app, c1, data[1..], ret)
  {
    hide Complete, Process;
    FirstByte(app, c, data, ret);
    PushKeepsView(c, data[0]);
    assert c.Partial() + data == c.Partial() + [data[0]] + data[1..];
  }

  /** One step of the chunk decoder. */
  lemma ChunkStep(app: App, s: Session, raw: seq<byte>, rest: seq<byte>)
    requires Complete(raw) && FrameSize(raw) == |raw| && !s.link.Ended()
    ensures var (s1, r) := Accept(app, s, FrameOf(raw));
            && DecodeChunk(app, s, raw + rest) == (if r == -1 then (s1, []) else DecodeChunk(app, s1, rest))
            && (Calm(app, s, raw + rest) <==> !Stuck(s, FrameOf(raw)) && (r == -1 || Calm(app, s1, rest)))
  {
    hide Complete, Payload, Accept, FrameSize, Stuck;
    FirstFrame(raw, rest);
  }

  /** A byte that completes the frame: one step of the machine is one step of the decoder. */
  lemma FrameDone(app: App, c: Conn, data: seq<byte>, rest: seq<byte>, ret: int) returns (c2: Conn, r: int)
    requires Ok(c) && !c.Stalled() && !c.link.Ended() && data != [] && Complete(Push(c, data[0]).Last())
    requires Calm(app, View(c), c.Partial() + data) && rest == data[1..]
    ensures Step(app, c, data[0]) == (c2, Some(r)) && Ok(c2) && c2.Partial() == [] && !c2.Stalled()
    ensures DecodeChunk(app, View(c), c.Partial() + data)
         == if r == -1 then (View(c2), []) else DecodeChunk(app, View(c2), rest)
    ensures Recv(app, c, data, ret) == if r == -1 then (c2, -1) else Recv(app, c2, rest, r)
    ensures r == -1 || Calm(app, View(c2), rest)
  {
    assert !Complete([]) && View(c).link == c.link;
    hide Complete, Process, Payload, Accept, FrameSize, Recv, DecodeChunk, Calm, Stuck, View, Before;
    var c1 := Push(c, data[0]);
    var raw := c1.Last();
    assert raw == c.Partial() + [data[0]];
    assert c.Partial() + data == raw + rest;
    CompletesExactly(c.Partial(), data[0]);
    LastByte(app, c, data, ret);
    BeforeIsView(c, data[0]);
    ChunkStep(app, View(c), raw, rest);
    ProcessIsAccept(app, c1);
    c2, r := Process(app, c1).0, Process(app, c1).1;
  }

  /** The error state takes in nothing more. */
  lemma ErrorAbsorbs(app: App, c: Conn, data: seq<byte>, ret: int)
    requires Ok(c) && c.link.Ended()
    ensures Recv(app, c, data, ret).0 == c && c.Partial() == []
    ensures DecodeChunk(app, View(c), data) == (View(c), []) == Decode(app, View(c), data)
  {
  }

  lemma BeforeIsView(c: Conn, b: byte)
    requires Ok(c) && !c.link.Ended() && !c.Stalled() && AllComplete(Push(c, b).raws)
    ensures Ready(Push(c, b)) && Before(Push(c, b)) == View(c)
  {
    hide Complete, Payload;
    if |c.raws| >= 2 {
      AssemblePrefix(c.raws, Push(c, b).raws, |c.raws| - 1);
    }
  }

  /** One chunk, whatever its frame functions return. */
  lemma {:induction false} RecvDecodes(app: App, c: Conn, data: seq<byte>, ret: int)
    requires Ok(c) && !c.Stalled() && Calm(app, View(c), c.Partial() + data)
    ensures Computes(app, c, data, Recv(app, c, data, ret).0)
    decreases |data|
  {
    hide Complete, Process, Accept, Ok, View, FrameOf, DecodeChunk, Calm, Recv;
    if data == [] {
      ChunkEnds(app, c, ret);
    } else if c.link.Ended() {
      ErrorAbsorbs(app, c, c.Partial() + data, ret);
      ErrorAbsorbs(app, c, data, ret);
    } else if !Complete(Push(c, data[0]).Last()) {
      ByteStored(app, c, data, ret);
      RecvDecodes(app, Push(c, data[0]), data[1..], ret);
    } else {
      var c2, r := FrameDone(app, c, data, data[1..], ret);
      assert c2.Partial() + data[1..] == data[1..];
      if r != -1 { RecvDecodes(app, c2, data[1..], r); }
    }
  }

  lemma ChunkEnds(app: App, c: Conn, ret: int)
    requires Ok(c) && !c.Stalled()
    ensures Recv(app, c, [], ret).0 == c && c.Partial() + [] == c.Partial()
    ensures DecodeChunk(app, View(c), c.Partial()) == (View(c), c.Partial()) == Decode(app, View(c), c.Partial())
  {
  }

  // ---- The streaming theorem ----

  /** Successive calls of libwebsock_handle_recv. */
  ghost function RecvAll(app: App, c: Conn, chunks: seq<seq<byte>>): (c1: Conn)
    requires Ok(c)
    ensures Ok(c1)
    decreases |chunks|
  {
    if chunks == [] then c else RecvAll(app, Recv(app, c, chunks[0], -1).0, chunks[1..])
  }

  /** After some bytes the rest of the stream is as smooth, and decodes on from there. */
  lemma {:induction false} DecodeSplit(app: App, s: Session, a: seq<byte>, b: seq<byte>)
    requires Smooth(app, s, a + b)
    ensures Smooth(app, s, a)
    ensures var (s1, left) := Decode(app, s, a);
            Smooth(app, s1, left + b) && Decode(app, s, a + b) == Decode(app, s1, left + b)
    decreases |a|
  {
    hide Accept, Payload, PayloadLen, HeaderComplete;
    if !s.link.Ended() && Complete(a) {
      Extend(a, b);
      var n := FrameSize(a);
      assert a + b == a[..n] + (a[n..] + b) && (a + b)[n..] == a[n..] + b;
      assert ParseFrame(a + b) == ParseFrame(a);
      DecodeSplit(app, Accept(app, s, ParseFrame(a).value).0, a[n..], b);
    }
  }

  /** Streaming refinement: however a stream is cut into chunks, the receive loop ends with the messages,
      callbacks, output and flags of the whole-stream decoder and holds the bytes it breaks off in. */
  lemma {:induction false} Streaming(app: App, c: Conn, chunks: seq<seq<byte>>)
    requires Ok(c) && !c.Stalled() && Smooth(app, View(c), c.Partial() + Flatten(chunks))
    ensures Refines(app, c, Flatten(chunks), RecvAll(app, c, chunks))
    decreases |chunks|
  {
    hide Complete, Accept, Ok, View, Decode, DecodeChunk, Smooth, Calm, Recv;
    if chunks == [] {
      ChunkEnds(app, c, -1);
    } else {
      var rest := Flatten(chunks[1..]);
      assert c.Partial() + Flatten(chunks) == (c.Partial() + chunks[0]) + rest;
      DecodeSplit(app, View(c), c.Partial() + chunks[0], rest);
      SmoothChunk(app, View(c), c.Partial() + chunks[0]);
      RecvDecodes(app, c, chunks[0], -1);
      Streaming(app, Recv(app, c, chunks[0], -1).0, chunks[1..]);
    }
  }

  function Flatten(chunks: seq<seq<byte>>): seq<byte>
  {
    if chunks == [] then [] else chunks[0] + Flatten(chunks[1..])
  }
}
