// Safety over whole runs: any sequence of chunks and clean-ups of out_data,
// with an application that never closes by itself.

module Safety {
  import opened Bytes
  import opened Wire
  import opened Protocol
  import opened Machine
  import Chunking
  import S = Session

  /** onmessage never sends a close. */
  ghost predicate Polite(app: App)
  {
    forall ms :: NoClose(app(ms).calls)
  }

  predicate NoClose(calls: seq<ApiCall>)
  {
    forall i | 0 <= i < |calls| :: !calls[i].Close? && !calls[i].CloseWithReason?
  }

  /** A close frame, if any was made, is the last frame made; and one was made only in answer to the peer's
      close or to an error. */
  predicate CloseLast(l: Link)
  {
    && (forall i | 0 <= i < |l.sent| :: l.sent[i].head == HEAD_CLOSE ==> l.sentClose && i == |l.sent| - 1)
    && (l.sentClose <==> l.receivedClose || l.error)
  }

  ghost predicate Inv(l: Link)
  {
    l.connected && OutConsistent(l) && CloseLast(l)
  }

  /** Nothing more was sent or delivered. */
  predicate Silent(l: Link, l1: Link)
  {
    l1.out == l.out && l1.sent == l.sent && l1.delivered == l.delivered && l1.sentClose
  }

  // ---- Link operations ----

  lemma CallKeepsInv(l: Link, call: ApiCall)
    requires Inv(l) && !l.sentClose && NoClose([call])
    ensures Inv(Call(l, call).0) && !Call(l, call).0.sentClose
  {
    hide EncodeFrame, EncodeAll;
    assert !([call][0]).Close? && !([call][0]).CloseWithReason?;
    CallKeepsOut(l, call);
  }

  lemma {:induction false} RunCallsKeepsInv(l: Link, calls: seq<ApiCall>)
    requires Inv(l) && !l.sentClose && NoClose(calls)
    ensures Inv(RunCalls(l, calls)) && !RunCalls(l, calls).sentClose
    decreases |calls|
  {
    hide Call, OutConsistent, CloseLast;
    if calls != [] {
      CallKeepsInv(l, calls[0]);
      RunCallsKeepsInv(Call(l, calls[0]).0, calls[1..]);
    }
  }

  lemma DeliverKeepsInv(app: App, l: Link, m: Message)
    requires Polite(app) && Inv(l) && !l.sentClose
    ensures Inv(Deliver(app, l, m).0) && !Deliver(app, l, m).0.sentClose
  {
    hide RunCalls;
    var l1 := l.(delivered := l.delivered + [m]);
    assert NoClose(app(l1.delivered).calls);
    RunCallsKeepsInv(l1, app(l1.delivered).calls);
  }

  /** An error closes an open link, and adds nothing to one already closed. */
  lemma ErrorKeepsInv(l: Link, code: uint16)
    requires Inv(l) && !l.error
    ensures Inv(Error(l, code).0) && (l.sentClose ==> Silent(l, Error(l, code).0))
  {
    hide EncodeFrame, EncodeAll, ClosePayload;
    var l1 := l.(error := true, errors := l.errors + [code]);
    MakeFragmentKeepsOut(l1, ClosePayload(code, []), HEAD_CLOSE);
  }

  lemma OnCloseKeepsInv(l: Link)
    requires Inv(l) && !l.sentClose
    ensures Inv(OnClose(l.(receivedClose := true)).0)
  {
    hide EncodeFrame, EncodeAll, ClosePayload, CString;
    var l1 := l.(receivedClose := true);
    match l.closeInfo
    case Some(info) => MakeFragmentKeepsOut(l1, ClosePayload(info.code, CString(info.reason)), HEAD_CLOSE);
    case None => MakeFragmentKeepsOut(l1, ClosePayload(CLOSE_NORMAL, []), HEAD_CLOSE);
  }

  lemma OnCloseFrameKeepsInv(l: Link, payload: seq<byte>)
    requires Inv(l) && !l.error && |payload| <= 125
    ensures Inv(OnCloseFrame(l, payload).0) && (l.sentClose ==> Silent(l, OnCloseFrame(l, payload).0))
  {
    hide Error, JudgeClose, Judge, Inv, PopulateCloseInfo;
    ShouldCloseKeepsInv(l);
    ErrorKeepsInv(l.(shouldClose := true), CLOSE_PROTOCOL_ERROR);
    NotedKeepsInv(l, payload);
    JudgeKeepsInv(Noted(l, payload));
  }

  lemma NotedKeepsInv(l: Link, payload: seq<byte>)
    requires Inv(l) && |payload| <= 125
    ensures Inv(Noted(l, payload))
  {
    hide PopulateCloseInfo, EncodeAll;
  }

  lemma JudgeKeepsInv(l: Link)
    requires Inv(l) && !l.error
    ensures Inv(JudgeClose(l).0) && (l.sentClose ==> Silent(l, JudgeClose(l).0))
  {
    hide Error, OnClose, Judge, Inv;
    ShouldCloseKeepsInv(l);
    ErrorKeepsInv(l, CLOSE_PROTOCOL_ERROR);
    ErrorKeepsInv(l.(shouldClose := true), CLOSE_PROTOCOL_ERROR);
    if !l.sentClose { OnCloseKeepsInv(l); }
  }

  lemma OnControlKeepsInv(l: Link, f: WsFrame)
    requires Inv(l) && !l.error
    ensures Inv(OnControl(l, f).0) && (l.sentClose ==> Silent(l, OnControl(l, f).0))
  {
    hide Error, OnCloseFrame, EncodeFrame, EncodeAll;
    var l1 := l.(controls := l.controls + [f]);
    ErrorKeepsInv(l1, CLOSE_PROTOCOL_ERROR);
    if |f.payload| <= 125 {
      OnCloseFrameKeepsInv(l1, f.payload);
      if !l.sentClose { MakeFragmentKeepsOut(l1, f.payload, 0x8A); }
    }
  }

  // ---- The receive loop ----

  lemma DispatchKeepsInv(app: App, c: Conn)
    requires Polite(app) && c.raws != [] && AllComplete(c.raws) && !c.link.Ended() && Inv(c.link)
    ensures Inv(DispatchConn(app, c).0.link)
    ensures c.link.sentClose ==> Silent(c.link, DispatchConn(app, c).0.link)
  {
    hide Error, Deliver, Inv, Assemble, TextOk, Polite;
    if !c.link.sentClose {
      ErrorKeepsInv(c.link, CLOSE_WRONG_TYPE);
      DeliverKeepsInv(app, c.link, Message(Opcode(c.raws[0][0]), Assemble(c.raws)));
    }
  }

  lemma ProcessKeepsInv(app: App, c: Conn)
    requires Polite(app) && c.raws != [] && AllComplete(c.raws) && !c.link.Ended() && Inv(c.link)
    ensures Inv(Process(app, c).0.link)
    ensures c.link.sentClose ==> Silent(c.link, Process(app, c).0.link)
  {
    assert |c.Last()| > 0;
    hide Error, OnControl, DispatchConn, Inv, Complete, Polite, Payload;
    match Lookup(c.receiving, c.Last()[0])
    case DispatchFn => DispatchKeepsInv(app, c);
    case ControlFn => OnControlKeepsInv(c.link, WsFrame(c.Last()[0], Payload(c.Last())));
    case ContinuationFn =>
    case NullFn => assert Inv(c.link.(crashed := true)) by { CrashKeepsInv(c.link); }
    case FailFn =>
      ShouldCloseKeepsInv(c.link);
      ErrorKeepsInv(c.link.(shouldClose := true), CLOSE_PROTOCOL_ERROR);
  }

  lemma CrashKeepsInv(l: Link)
    requires Inv(l)
    ensures Inv(l.(crashed := true))
  {
  }

  lemma ShouldCloseKeepsInv(l: Link)
    requires Inv(l)
    ensures Inv(l.(shouldClose := true))
  {
  }

  /** One handle_recv call, on any bytes whatever, those that run into a stalled frame included. */
  lemma {:induction false} RecvKeepsInv(app: App, c: Conn, data: seq<byte>, ret: int)
    requires Polite(app) && Ok(c) && Inv(c.link)
    ensures Inv(Recv(app, c, data, ret).0.link)
    ensures c.link.sentClose ==> Silent(c.link, Recv(app, c, data, ret).0.link)
    decreases |data|
  {
    hide Process, Complete, Inv, Polite;
    if data != [] && !c.link.Ended() {
      var (c1, r) := Step(app, c, data[0]);
      PushOk(c, data[0]);
      if Complete(Push(c, data[0]).Last()) {
        ProcessKeepsInv(app, Push(c, data[0]));
      }
      RecvKeepsInv(app, c1, data[1..], ret);
      if r.Some? { RecvKeepsInv(app, c1, data[1..], r.value); }
    }
  }

  // ---- Whole runs ----

  datatype Event = Chunk(data: seq<byte>) | Cleanup

  ghost function Apply(app: App, c: Conn, e: Event): (c1: Conn)
    requires Ok(c)
    ensures Ok(c1)
  {
    match e
    case Chunk(data) => Recv(app, c, data, -1).0
    case Cleanup => c.(link := CleanupOut(c.link))
  }

  ghost function Drive(app: App, c: Conn, events: seq<Event>): (c1: Conn)
    requires Ok(c)
    ensures Ok(c1)
    decreases |events|
  {
    if events == [] then c else Drive(app, Apply(app, c, events[0]), events[1..])
  }

  lemma ApplyKeepsInv(app: App, c: Conn, e: Event)
    requires Polite(app) && Ok(c) && Inv(c.link)
    ensures var l := Apply(app, c, e).link;
            Inv(l) && (c.link.sentClose ==> l.sent == c.link.sent && l.delivered == c.link.delivered && l.sentClose)
  {
    hide Recv, Polite;
    match e
    case Chunk(data) => RecvKeepsInv(app, c, data, -1);
    case Cleanup => assert c.link.sent[|c.link.sent|..] == [];
  }

  /** Close safety: in any run at most one close frame is ever made and nothing is made after it; out_data
      stays a concatenation of the frames made since the last clean-up; and once a close was sent no frame is
      added and no message delivered. */
  lemma {:induction false} CloseSafety(app: App, c: Conn, events: seq<Event>)
    requires Polite(app) && Ok(c) && Inv(c.link)
    ensures var l := Drive(app, c, events).link;
            Inv(l) && (c.link.sentClose ==> l.sent == c.link.sent && l.delivered == c.link.delivered && l.sentClose)
    decreases |events|
  {
    hide Apply, Inv, Polite;
    if events != [] {
      ApplyKeepsInv(app, c, events[0]);
      CloseSafety(app, Apply(app, c, events[0]), events[1..]);
    }
  }

  /** The error state is absorbing, as is the end of the process: no frame is held, no later chunk changes
      anything, and the value is 0. */
  lemma {:induction false} ErrorIsFinal(app: App, c: Conn, chunks: seq<seq<byte>>)
    requires Ok(c) && c.link.Ended()
    ensures c.raws == [] && S.RecvAll(app, c, chunks) == c
    ensures forall data, ret | data != [] :: Recv(app, c, data, ret) == (c, 0)
    decreases |chunks|
  {
    ErrorHoldsNothing(c);
    if chunks != [] {
      S.ErrorAbsorbs(app, c, chunks[0], -1);
      ErrorIsFinal(app, c, chunks[1..]);
    }
  }

  /** Two close frames never stand in the output. */
  lemma AtMostOneClose(app: App, c: Conn, events: seq<Event>, i: nat, j: nat)
    requires Polite(app) && Ok(c) && Inv(c.link)
    requires var sent := Drive(app, c, events).link.sent;
             i < |sent| && j < |sent| && sent[i].head == sent[j].head == HEAD_CLOSE
    ensures i == j == |Drive(app, c, events).link.sent| - 1
  {
    CloseSafety(app, c, events);
  }

  // ---- An application that closes by itself ----

  /** A close payload that is answered with an error: too long, too short, or with a bad code or reason, be it
      this payload's or that of an earlier close. */
  ghost predicate BadClose(l: Link, payload: seq<byte>)
  {
    |payload| > 125 || |payload| == 1 || Judge(Noted(l, payload).closeInfo) != Fine
  }

  /** Once a close was sent, a frame makes the client fail exactly when it is a bad close or its head is illegal,
      unless for that head the table holds a null pointer. */
  ghost predicate Fails(s: S.Session, f: WsFrame)
  {
    && !S.NoEntry(s.pending.Some?, f.head)
    && (!S.LegalHead(s.pending.Some?, f.head) || (Opcode(f.head) == OP_CLOSE && BadClose(s.link, f.payload)))
  }

  /** An open link on which a close was sent. */
  predicate Closing(l: Link) { l.connected && !l.Ended() && l.sentClose }

  /** Nothing was delivered and no bit but the error bit changed; one close was sent if there was an error and
      the peer's close had not been answered, and nothing otherwise. */
  predicate OnlyFails(l: Link, l1: Link, failed: bool)
  {
    && (l1.error <==> failed)
    && l1.sent == (if failed && !l.receivedClose then l.sent + [WsFrame(HEAD_CLOSE, Be16(CLOSE_PROTOCOL_ERROR))] else l.sent)
    && l1.sentClose && l1.connected && l1.receivedClose == l.receivedClose && l1.delivered == l.delivered
  }

  lemma ErrorOnlyFails(l: Link)
    requires Closing(l)
    ensures OnlyFails(l, Error(l, CLOSE_PROTOCOL_ERROR).0, true)
    ensures OnlyFails(l, Fail(l).0, true)
  {
    hide EncodeFrame, Be16;
    assert ClosePayload(CLOSE_PROTOCOL_ERROR, []) == Be16(CLOSE_PROTOCOL_ERROR);
  }

  lemma CloseFrameOnlyFails(l: Link, payload: seq<byte>)
    requires Closing(l) && |payload| <= 125
    ensures OnlyFails(l, OnCloseFrame(l, payload).0, BadClose(l, payload))
  {
    hide Error, Fail, Judge, PopulateCloseInfo, Be16;
    ErrorOnlyFails(l);
    ErrorOnlyFails(Noted(l, payload));
  }

  lemma ControlOnlyFails(l: Link, f: WsFrame)
    requires Closing(l) && S.IsControl(f.head)
    ensures OnlyFails(l, OnControl(l, f).0, Opcode(f.head) == OP_CLOSE && BadClose(l, f.payload))
  {
    hide Error, OnCloseFrame, Judge, PopulateCloseInfo, Be16;
    var l1 := l.(controls := l.controls + [f]);
    ErrorOnlyFails(l1);
    if |f.payload| <= 125 { CloseFrameOnlyFails(l1, f.payload); }
  }

  /** After a close was sent, a frame adds another one - the answer to an error - exactly when it makes the
      client fail and no close of the peer was answered; nothing else is ever added. In particular the peer's
      acknowledgement of an application's close does not set RECEIVED_CLOSE_FRAME. */
  lemma SecondCloseIff(app: App, s: S.Session, f: WsFrame)
    requires Closing(s.link)
    ensures OnlyFails(s.link, S.Accept(app, s, f).0.link, Fails(s, f))
    ensures S.Accept(app, s, f).0.link.crashed <==> S.NoEntry(s.pending.Some?, f.head)
    ensures S.Accept(app, s, f).0.link.sent != s.link.sent <==> !s.link.receivedClose && Fails(s, f)
  {
    hide Error, Fail, OnControl, BadClose, Be16;
    ErrorOnlyFails(s.link);
    if S.IsControl(f.head) { ControlOnlyFails(s.link, f); }
  }

  /** The value such a frame's function returns: 4, the size of the close frame, with a second close, -1 for what fails
      without one and for a close that does not fail, and 0 for everything else. */
  lemma ClosingReturns(app: App, s: S.Session, f: WsFrame)
    requires Closing(s.link)
    ensures S.Accept(app, s, f).1 ==
              if S.NoEntry(s.pending.Some?, f.head) then -1
              else if Fails(s, f) then if s.link.receivedClose then -1 else 4
              else if Opcode(f.head) == OP_CLOSE then -1
              else 0
  {
    hide Error, Fail, OnControl, BadClose;
    ErrorReturns(s.link);
    if S.IsControl(f.head) { ControlReturns(s.link, f); }
  }

  lemma ErrorReturns(l: Link)
    requires Closing(l)
    ensures Error(l, CLOSE_PROTOCOL_ERROR).1 == Fail(l).1 == if l.receivedClose then -1 else 4
  {
    hide Be16;
  }

  lemma ControlReturns(l: Link, f: WsFrame)
    requires Closing(l) && S.IsControl(f.head)
    ensures OnControl(l, f).1 ==
              if Opcode(f.head) != OP_CLOSE then 0
              else if !BadClose(l, f.payload) then -1
              else if l.receivedClose then -1
              else 4
  {
    hide Error, Fail, Judge, PopulateCloseInfo;
    var l1 := l.(controls := l.controls + [f]);
    ErrorReturns(l1);
    if |f.payload| <= 125 { ErrorReturns(Noted(l1, f.payload)); }
  }

  /** The other way to a second close: on a stalled client every further byte runs a frame function on the
      finished frame again, which fails exactly when the frame ended a fragmented message, whose flag is gone. */
  lemma StalledByte(app: App, c: Conn, b: byte)
    requires Ok(c) && c.Stalled() && c.link.connected
    ensures OnlyFails(c.link, Step(app, c, b).0.link, c.Last()[0] == 0x80)
  {
    Extend(c.Last(), [b]);
    PushOk(c, b);
    assert Push(c, b).Last()[0] == c.Last()[0];
    StalledProcess(app, Push(c, b));
    hide Process, Complete;
  }

  lemma StalledProcess(app: App, c: Conn)
    requires c.raws != [] && AllComplete(c.raws) && StallOk(c) && c.link.connected && !c.link.Ended()
    ensures OnlyFails(c.link, Process(app, c).0.link, c.Last()[0] == 0x80)
  {
    ErrorOnlyFails(c.link.(shouldClose := true));
    hide Error, Complete, Assemble, Be16;
  }

  // ---- An input that makes it close twice ----

  const KEY: seq<byte> := [0, 0, 0, 0]

  const EMPTY_CLOSE: WsFrame := WsFrame(HEAD_CLOSE, [])

  /** A reserved opcode. */
  const ILLEGAL: WsFrame := WsFrame(0x83, [])

  /** One chunk that is one frame whose function returns -1 or fails. */
  lemma FrameChunk(app: App, s: S.Session, f: WsFrame)
    requires !s.link.Ended() && |f.payload| <= MAX_PAYLOAD && !S.Stuck(s, f)
    requires S.Accept(app, s, f).1 == -1 || S.Accept(app, s, f).0.link.error
    ensures S.DecodeChunk(app, s, ClientFrame(f, KEY, true)) == (S.Accept(app, s, f).0, [])
    ensures S.Calm(app, s, ClientFrame(f, KEY, true))
  {
    hide ClientFrame, Complete, FrameSize, S.Accept, S.Stuck;
    DecodeClientFrame(f, KEY, true, []);
    assert ClientFrame(f, KEY, true) + [] == ClientFrame(f, KEY, true);
  }

  /** The application closes, the peer acknowledges, and in a later chunk sends an illegal frame: a second close
      is sent. */
  lemma ClosesTwice(app: App)
    ensures var l := Call(Handshaken(INITIAL, []), Close).0;
            var chunks := [ClientFrame(EMPTY_CLOSE, KEY, true), ClientFrame(ILLEGAL, KEY, true)];
            S.RecvAll(app, Conn(l, false, []), chunks).link.sent
              == [WsFrame(0x88, [0x03, 0xE8]), WsFrame(0x88, [0x03, 0xEA])]
  {
    CodeBytes();
    var l := Call(Handshaken(INITIAL, []), Close).0;
    var c := Conn(l, false, []);
    var s := S.View(c);
    var s1 := S.Accept(app, s, EMPTY_CLOSE).0;
    var s2 := S.Accept(app, s1, ILLEGAL).0;
    var a, b := ClientFrame(EMPTY_CLOSE, KEY, true), ClientFrame(ILLEGAL, KEY, true);
    Closed(app, l);
    hide S.RecvAll, ClientFrame, S.Accept, Complete, FrameSize, S.DecodeChunk, S.Calm, Be16, Call, Handshaken;
    assert !S.Stuck(s, EMPTY_CLOSE) && !S.Stuck(s1, ILLEGAL) by { NotStuck(s, s1); }
    FrameChunk(app, s, EMPTY_CLOSE);
    FrameChunk(app, s1, ILLEGAL);
    S.NoFrame();
    Chunking.TwoChunks(app, c, a, b);
  }

  lemma NotStuck(s: S.Session, s1: S.Session)
    ensures !S.Stuck(s, EMPTY_CLOSE) && !S.Stuck(s1, ILLEGAL)
  {
  }

  lemma Closed(app: App, l: Link)
    requires l == Call(Handshaken(INITIAL, []), Close).0
    ensures var (s1, r1) := S.Accept(app, S.Session(l, None), EMPTY_CLOSE);
            var s2 := S.Accept(app, s1, ILLEGAL).0;
            && r1 == -1 && !s1.link.error && s2.link.error
            && s2.link.sent == [WsFrame(HEAD_CLOSE, Be16(CLOSE_NORMAL)), WsFrame(HEAD_CLOSE, Be16(CLOSE_PROTOCOL_ERROR))]
  {
    hide EncodeFrame, Be16;
    assert ClosePayload(CLOSE_NORMAL, []) == Be16(CLOSE_NORMAL);
    assert ClosePayload(CLOSE_PROTOCOL_ERROR, []) == Be16(CLOSE_PROTOCOL_ERROR);
  }
}
