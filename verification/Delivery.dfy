// What a client delivers and sends, message by message and in any chunks: for an
// application that neither closes by itself nor returns -1 nothing is lost, every
// message is handed over, and libwebsock_handle_recv returns what the last frame's
// function did.

module Delivery {
  import opened Bytes
  import opened Wire
  import opened Protocol
  import opened Session
  import opened Runs
  import opened Grammar
  import Machine
  import Safety
  import RoundTrip
  import Utf8

  /** onmessage never sends a close and never returns -1. */
  ghost predicate Obliging(app: App)
  {
    Safety.Polite(app) && forall ms :: app(ms).ret != -1
  }

  // ---- The messages of a list of frames, by position ----

  /** A message ends with the frame at `k`. */
  predicate EndsMessage(fs: seq<WsFrame>, k: nat)
    requires k < |fs|
  {
    !IsControl(fs[k].head) && Fin(fs[k].head)
  }

  /** It has the opcode of its first frame and all the payloads in between. */
  function MessageAt(fs: seq<WsFrame>, k: nat): Message
    requires k < |fs|
  {
    Message(Opcode(fs[Start(fs, k)].head), WholeAt(fs, k))
  }

  /** The messages that end before position `k`, in order. */
  function MessagesTo(fs: seq<WsFrame>, k: nat): seq<Message>
    requires k <= |fs|
  {
    if k == 0 then []
    else MessagesTo(fs, k - 1) + (if EndsMessage(fs, k - 1) then [MessageAt(fs, k - 1)] else [])
  }

  // ---- One frame ----

  /** What a frame other than a close adds to what was delivered and sent, and the value its function returns:
      the application's own for a message, the size of the pong for a ping, 0 otherwise. */
  ghost predicate Effect(app: App, l: Link, l1: Link, r: int, fs: seq<WsFrame>, k: nat)
    requires k < |fs|
  {
    var f := fs[k];
    if EndsMessage(fs, k) then
      var l0 := l.(delivered := l.delivered + [MessageAt(fs, k)]);
      l1 == RunCalls(l0, app(l0.delivered).calls) && r == app(l0.delivered).ret
    else if Opcode(f.head) == OP_PING then
      && l1 == l.(controls := l.controls + [f], sent := l.sent + [WsFrame(0x8A, f.payload)], out := l1.out)
      && r == 2 + |f.payload|
    else if Opcode(f.head) == OP_PONG then l1 == l.(controls := l.controls + [f]) && r == 0
    else l1 == l && r == 0
  }

  /** Every passing frame but a close has this effect. */
  lemma PassingFrame(app: App, s: Session, fs: seq<WsFrame>, k: nat)
    requires k < |fs| && Good(s, fs, k) && PassesAt(fs, k) && Opcode(fs[k].head) != OP_CLOSE
    ensures var (s1, r) := Accept(app, s, fs[k]);
            Effect(app, s.link, s1.link, r, fs, k) && !Stuck(s, fs[k])
  {
    hide TextOk, PassesClose, PendingAt, RunCalls, LengthField, WholeAt, Start, Body, MessageAt;
    var f := fs[k];
    TableIsRules(Open(fs, k), f.head);
    assert s.pending.Some? == Open(fs, k) by { PendingShape(fs, k); }
    if IsControl(f.head) {
      ControlEffect(s.link, f);
    } else {
      WholeIsExtended(s, fs, k);
    }
  }

  lemma WholeIsExtended(s: Session, fs: seq<WsFrame>, k: nat)
    requires k < |fs| && Good(s, fs, k) && !IsControl(fs[k].head)
    ensures Extended(s, fs[k]) == MessageAt(fs, k) && MessageAt(fs, k).payload == WholeAt(fs, k)
    ensures TextAt(fs, k) <==> MessageAt(fs, k).opcode == OP_TEXT
  {
    ExtendedAt(fs, k, s);
  }

  lemma ControlEffect(l: Link, f: WsFrame)
    requires Running(l) && |f.payload| <= 125 && IsControl(f.head) && Opcode(f.head) != OP_CLOSE
    ensures var (l1, r) := OnControl(l, f);
            if Opcode(f.head) == OP_PING
            then && l1 == l.(controls := l.controls + [f], sent := l.sent + [WsFrame(0x8A, f.payload)], out := l1.out)
                 && r == 2 + |f.payload|
            else l1 == l.(controls := l.controls + [f]) && r == 0
  {
    hide OnCloseFrame, ToByte;
  }

  /** A passing close is answered: the value is the size of the reply. */
  lemma CloseReturns(app: App, s: Session, f: WsFrame)
    requires Running(s.link) && LegalHead(s.pending.Some?, f.head) && Opcode(f.head) == OP_CLOSE
    requires |f.payload| <= 125 && PassesClose(f.payload)
    ensures Accept(app, s, f).1 == 2 + |RoundTrip.Echo(f.payload)| && !Stuck(s, f)
  {
    hide Judge, OnClose, PopulateCloseInfo, PassesClose, RoundTrip.Echo, ClosePayload;
    NotOneByte(f.payload);
    CloseJudged(f.payload);
    RoundTrip.EchoPayload(f.payload);
    var l := s.link.(controls := s.link.controls + [f], closeInfo := PopulateCloseInfo(f.payload));
    OnCloseReturns(l.(receivedClose := true));
  }

  lemma NotOneByte(p: seq<byte>)
    requires PassesClose(p)
    ensures p == [] || |p| >= 2
  {
  }

  lemma OnCloseReturns(l: Link)
    requires l.connected && !l.sentClose
    ensures var p := match l.closeInfo
                     case Some(info) => ClosePayload(info.code, CString(info.reason))
                     case None => ClosePayload(CLOSE_NORMAL, []);
            |p| <= 125 ==> OnClose(l).1 == 2 + |p|
  {
    hide CString, Be16, ToByte;
  }

  /** At a frame that does not pass: the failure that sets SHOULD_CLOSE is that of an illegal first byte, of a close of
      one byte and of a close with a bad reason; a control frame that is too long, a bad code and bad text do not. */
  predicate FailsHard(fs: seq<WsFrame>, k: nat)
    requires k < |fs|
  {
    !LegalHead(Open(fs, k), fs[k].head) || (IsControl(fs[k].head) && HardClose(fs[k].payload))
  }

  predicate HardClose(p: seq<byte>)
  {
    |p| == 1 || (2 <= |p| <= 125 && !BadCloseCode(FromBe16(p[0], p[1])))
  }

  /** The value and SHOULD_CLOSE after a frame that does not pass. */
  lemma BadFrame(app: App, s: Session, fs: seq<WsFrame>, k: nat)
    requires k < |fs| && Good(s, fs, k) && !PassesAt(fs, k)
    ensures var (s1, r) := Accept(app, s, fs[k]);
            && r == (if NullAt(fs, k) then -1 else 4)
            && (s1.link.shouldClose <==> s.link.shouldClose || (!NullAt(fs, k) && FailsHard(fs, k)))
  {
    hide Error, Fail, OnControl, Deliver, TextOk, PassesClose, PendingAt, WholeAt, Start, Body, MessageAt, FromBe16;
    TableIsRules(Open(fs, k), fs[k].head);
    assert s.pending.Some? == Open(fs, k) by { PendingShape(fs, k); }
    ErrorReturns(s.link, CLOSE_WRONG_TYPE);
    if LegalHead(Open(fs, k), fs[k].head) {
      if IsControl(fs[k].head) {
        BadControl(s.link, fs[k]);
      } else {
        WholeIsExtended(s, fs, k);
      }
    }
  }

  lemma ErrorReturns(l: Link, code: uint16)
    requires l.connected && !l.sentClose
    ensures Error(l, code).1 == 4 && Error(l, code).0.shouldClose == l.shouldClose
    ensures Fail(l).1 == 4 && Fail(l).0.shouldClose
  {
    hide Be16;
  }

  lemma BadControl(l: Link, f: WsFrame)
    requires Running(l) && IsControl(f.head)
    requires |f.payload| > 125 || (Opcode(f.head) == OP_CLOSE && !PassesClose(f.payload))
    ensures var (l1, r) := OnControl(l, f);
            r == 4 && (l1.shouldClose <==> l.shouldClose || HardClose(f.payload))
  {
    hide Error, Fail, PassesClose, OnCloseFrame, FromBe16;
    var l1 := l.(controls := l.controls + [f]);
    ErrorReturns(l1, CLOSE_PROTOCOL_ERROR);
    if |f.payload| <= 125 { BadCloseFrame(l1, f.payload); }
  }

  lemma BadCloseFrame(l: Link, p: seq<byte>)
    requires Running(l) && |p| <= 125 && !PassesClose(p)
    ensures var (l1, r) := OnCloseFrame(l, p);
            r == 4 && (l1.shouldClose <==> l.shouldClose || HardClose(p))
  {
    hide Error, Fail, FromBe16, Utf8.WellFormed, CString;
    ErrorReturns(l, CLOSE_PROTOCOL_ERROR);
    if |p| != 1 {
      ErrorReturns(l.(closeInfo := PopulateCloseInfo(p)), CLOSE_PROTOCOL_ERROR);
      CloseJudged(p);
    }
  }

  // ---- Nothing is lost ----

  /** No frame that leaves the client running makes its function return -1, and none completes data after a close
      was sent. */
  ghost predicate Flows(app: App, s: Session, fs: seq<WsFrame>)
    decreases |fs|
  {
    s.link.Ended() || fs == []
    || (var (s1, r) := Accept(app, s, fs[0]);
        !Stuck(s, fs[0]) && (r == -1 ==> s1.link.Ended()) && Flows(app, s1, fs[1..]))
  }

  /** From any position before a close on, legal frames or not. */
  lemma {:induction false} FlowsFrom(app: App, s: Session, fs: seq<WsFrame>, k: nat)
    requires Obliging(app) && k <= |fs| && Good(s, fs, k)
    requires fs != [] ==> NoCloseBefore(fs, |fs| - 1)
    ensures Flows(app, s, fs[k..])
    decreases |fs| - k
  {
    hide Accept, Running, PassesAt, NullAt, Failed, Safety.Polite, Stuck, PendingAt, Effect;
    if k < |fs| {
      var s1 := Accept(app, s, fs[k]).0;
      assert fs[k..][0] == fs[k] && fs[k..][1..] == fs[k + 1..];
      FrameStep(app, s, fs, k);
      PassesIff(fs, k);
      RunningFacts(s.link);
      if !NullAt(fs, k) && !PassesAt(fs, k) {
        FailedFacts(s.link, s1.link, ErrorCode(fs, k));
        NotStuck(s, fs[k]);
        StopsHere(app, s, fs[k..]);
      } else if PassesAt(fs, k) {
        FrameReturns(app, s, fs, k);
        if Opcode(fs[k].head) != OP_CLOSE {
          FlowsFrom(app, s1, fs, k + 1);
        } else {
          assert k == |fs| - 1 && fs[k + 1..] == [];
        }
      } else {
        NotStuck(s, fs[k]);
        StopsHere(app, s, fs[k..]);
      }
    }
  }

  lemma NotStuck(s: Session, f: WsFrame)
    requires !s.link.sentClose
    ensures !Stuck(s, f)
  {
  }

  lemma StopsHere(app: App, s: Session, fs: seq<WsFrame>)
    requires fs != [] && !Stuck(s, fs[0]) && Accept(app, s, fs[0]).0.link.Ended()
    ensures Flows(app, s, fs)
  {
    hide Accept, Stuck;
  }

  lemma FrameReturns(app: App, s: Session, fs: seq<WsFrame>, k: nat)
    requires Obliging(app) && k < |fs| && Good(s, fs, k) && PassesAt(fs, k)
    ensures Accept(app, s, fs[k]).1 != -1 && !Stuck(s, fs[k])
  {
    hide Accept, Running, Stuck, RunCalls, Safety.Polite, TextOk, WholeAt, Start, Body, MessageAt, PassesClose;
    if Opcode(fs[k].head) != OP_CLOSE {
      PassingFrame(app, s, fs, k);
    } else {
      assert s.pending.Some? == Open(fs, k) by { PendingShape(fs, k); }
      CloseReturns(app, s, fs[k]);
    }
  }

  lemma {:induction false} FlowsSmooth(app: App, s: Session, fs: seq<WsFrame>)
    requires Flows(app, s, fs)
    ensures SmoothAll(app, s, fs)
    decreases |fs|
  {
    hide Accept, Stuck;
    if !s.link.Ended() && fs != [] {
      FlowsSmooth(app, Accept(app, s, fs[0]).0, fs[1..]);
    }
  }

  lemma {:induction false} FlowsSmoothBytes(app: App, s: Session, bytes: seq<byte>)
    requires Flows(app, s, FramesOf(bytes))
    ensures Smooth(app, s, bytes)
    decreases |bytes|
  {
    assert ParseFrame(bytes).Some? ==> HeaderComplete(bytes) && FrameSize(bytes) <= |bytes|;
    hide Accept, Stuck, Complete, HeaderComplete, FrameSize;
    if !s.link.Ended() && ParseFrame(bytes).Some? {
      FlowsSmoothBytes(app, Accept(app, s, ParseFrame(bytes).value).0, bytes[FrameSize(bytes)..]);
    }
  }

  /** A client at a frame boundary before any close, whose application is obliging. */
  ghost predicate Serves(app: App, c: Machine.Conn)
  {
    Obliging(app) && Machine.Ok(c) && Running(c.link) && c.Partial() == [] && View(c).pending.None?
  }

  /** Any bytes whatever with no close before their last frame are received in any chunks without loss: what
      StartsRun and Streaming ask for holds. */
  lemma NothingLost(app: App, c: Machine.Conn, chunks: seq<seq<byte>>)
    requires Serves(app, c)
    requires var fs := FramesOf(Flatten(chunks)); fs != [] ==> NoCloseBefore(fs, |fs| - 1)
    ensures StartsRun(app, c, chunks)
    ensures RecvAll(app, c, chunks).link == AcceptAll(app, View(c), FramesOf(Flatten(chunks))).link
  {
    var fs := FramesOf(Flatten(chunks));
    assert View(c).link == c.link;
    assert Good(View(c), fs, 0);
    hide Flows, Running, RecvAll, AcceptAll, FramesOf, Smooth, View, Machine.Ok, Good, Flatten;
    assert fs[0..] == fs;
    FlowsFrom(app, View(c), fs, 0);
    FlowsSmoothBytes(app, View(c), Flatten(chunks));
    ChunksRun(app, c, chunks);
  }

  // ---- Every message is delivered ----

  /** The frame at `k` has its effect on what the run before it left. */
  lemma RunEffect(app: App, s: Session, fs: seq<WsFrame>, k: nat) returns (r: int)
    requires Safety.Polite(app) && Running(s.link) && s.pending.None? && k < |fs|
    requires AllPass(fs, k + 1) && NoCloseBefore(fs, k + 1)
    ensures var l := AcceptAll(app, s, fs[..k]).link;
            l.connected && !l.sentClose && Effect(app, l, AcceptAll(app, s, fs[..k + 1]).link, r, fs, k)
  {
    hide Accept, PassesAt, Running, Safety.Polite, Good, Effect, AcceptAll;
    var s1 := AcceptAll(app, s, fs[..k]);
    assert fs[..k + 1] == fs[..k] + [fs[k]];
    AcceptOne(app, s, fs[..k], fs[k]);
    LegalRuns(app, s, fs, k);
    GoodRuns(s1, fs, k);
    PassingFrame(app, s1, fs, k);
    r := Accept(app, s1, fs[k]).1;
  }

  /** Along passing frames exactly the messages that end among them are delivered, in order. */
  lemma {:induction false} Deliveries(app: App, s: Session, fs: seq<WsFrame>, k: nat)
    requires Safety.Polite(app) && Running(s.link) && s.pending.None? && k <= |fs|
    requires AllPass(fs, k) && NoCloseBefore(fs, k)
    ensures AcceptAll(app, s, fs[..k]).link.delivered == s.link.delivered + MessagesTo(fs, k)
    decreases k
  {
    hide PassesAt, Running, Safety.Polite, MessageAt, EndsMessage, Effect, AcceptAll;
    if k > 0 {
      Deliveries(app, s, fs, k - 1);
      var r := RunEffect(app, s, fs, k - 1);
      EffectDelivers(app, AcceptAll(app, s, fs[..k - 1]).link, AcceptAll(app, s, fs[..k]).link, r, fs, k - 1);
    } else {
      NoRun(app, s);
    }
  }

  lemma GoodRuns(s: Session, fs: seq<WsFrame>, k: nat)
    requires k <= |fs| && Good(s, fs, k)
    ensures Running(s.link) && !s.link.Ended() && s.link.connected && !s.link.sentClose
  {
  }

  lemma EffectDelivers(app: App, l: Link, l1: Link, r: int, fs: seq<WsFrame>, k: nat)
    requires k < |fs| && Effect(app, l, l1, r, fs, k)
    ensures l1.delivered == l.delivered + (if EndsMessage(fs, k) then [MessageAt(fs, k)] else [])
  {
    hide RunCalls, MessageAt, EndsMessage, Opcode;
    if !EndsMessage(fs, k) { NothingDelivered(app, l, l1, r, fs, k); }
  }

  lemma NothingDelivered(app: App, l: Link, l1: Link, r: int, fs: seq<WsFrame>, k: nat)
    requires k < |fs| && Effect(app, l, l1, r, fs, k) && !EndsMessage(fs, k)
    ensures l1.delivered == l.delivered
  {
    hide RunCalls, MessageAt, EndsMessage, Opcode;
  }

  /** Neither a frame that does not pass nor a close delivers anything. */
  lemma NotDelivered(app: App, s: Session, fs: seq<WsFrame>, k: nat)
    requires Safety.Polite(app) && k < |fs| && Good(s, fs, k) && (!PassesAt(fs, k) || Opcode(fs[k].head) == OP_CLOSE)
    ensures Accept(app, s, fs[k]).0.link.delivered == s.link.delivered
  {
    hide Error, Fail, OnControl, Deliver, TextOk, PassesClose, PendingAt, Running, WholeAt, Start, Body, MessageAt;
    TableIsRules(Open(fs, k), fs[k].head);
    RunningFacts(s.link);
    assert s.pending.Some? == Open(fs, k) by { PendingShape(fs, k); }
    if IsControl(fs[k].head) {
      ControlDelivers(s.link, fs[k]);
    } else if LegalHead(Open(fs, k), fs[k].head) {
      WholeIsExtended(s, fs, k);
    }
    FailDelivers(s.link, CLOSE_WRONG_TYPE);
  }

  lemma FailDelivers(l: Link, code: uint16)
    ensures Error(l, code).0.delivered == Fail(l).0.delivered == l.delivered
  {
    hide EncodeFrame, ClosePayload;
  }

  lemma ControlDelivers(l: Link, f: WsFrame)
    ensures OnControl(l, f).0.delivered == l.delivered
  {
    hide Error, Fail, OnClose, Judge, PopulateCloseInfo, MakeFragment;
    var l1 := l.(controls := l.controls + [f]);
    FailDelivers(l1, CLOSE_PROTOCOL_ERROR);
    if |f.payload| <= 125 { CloseDelivers(l1, f.payload); }
  }

  lemma CloseDelivers(l: Link, p: seq<byte>)
    requires |p| <= 125
    ensures OnCloseFrame(l, p).0.delivered == l.delivered
  {
    hide Error, Fail, JudgeClose, PopulateCloseInfo;
    FailDelivers(l, CLOSE_PROTOCOL_ERROR);
    JudgeDelivers(Noted(l, p));
  }

  lemma JudgeDelivers(l: Link)
    ensures JudgeClose(l).0.delivered == l.delivered
  {
    hide Error, Fail, MakeClose, Judge, CString, ClosePayload;
    FailDelivers(l, CLOSE_PROTOCOL_ERROR);
  }

  /** Where the messages of a run end: at the first frame that does not pass, or at a close. */
  ghost predicate Until(fs: seq<WsFrame>, k: nat)
  {
    && k <= |fs| && AllPass(fs, k) && NoCloseBefore(fs, k)
    && (k < |fs| ==> !PassesAt(fs, k) || (k == |fs| - 1 && Opcode(fs[k].head) == OP_CLOSE))
  }

  lemma RunDelivers(app: App, s: Session, fs: seq<WsFrame>, k: nat)
    requires Safety.Polite(app) && Running(s.link) && s.pending.None? && Until(fs, k)
    ensures AcceptAll(app, s, fs).link.delivered == s.link.delivered + MessagesTo(fs, k)
  {
    hide Accept, PassesAt, Running, Safety.Polite, MessagesTo, Failed, NullAt;
    Deliveries(app, s, fs, k);
    if k == |fs| {
      assert fs[..k] == fs;
    } else {
      var s1 := AcceptAll(app, s, fs[..k]);
      LegalRuns(app, s, fs, k);
      RunningFacts(s1.link);
      NotDelivered(app, s1, fs, k);
      AcceptOne(app, s, fs[..k], fs[k]);
      assert fs[..k] + [fs[k]] == fs[..k + 1] && fs[..k + 1] + fs[k + 1..] == fs;
      if k == |fs| - 1 {
        assert fs[..k + 1] == fs;
      } else {
        FrameStep(app, s1, fs, k);
        AcceptAllSplit(app, s, fs[..k + 1], fs[k + 1..]);
        if !NullAt(fs, k) { FailedFacts(s1.link, Accept(app, s1, fs[k]).0.link, ErrorCode(fs, k)); }
        ErrorStops(app, Accept(app, s1, fs[k]).0, fs[k + 1..]);
      }
    }
  }

  /** Every message is delivered: of any bytes, in any chunks, with no close before the last frame, exactly the
      messages that end before the first frame that does not pass reach onmessage, whole and in order. */
  lemma ChunksDeliver(app: App, c: Machine.Conn, chunks: seq<seq<byte>>, k: nat)
    requires Serves(app, c) && Until(FramesOf(Flatten(chunks)), k)
    requires var fs := FramesOf(Flatten(chunks)); fs != [] ==> NoCloseBefore(fs, |fs| - 1)
    ensures RecvAll(app, c, chunks).link.delivered == c.link.delivered + MessagesTo(FramesOf(Flatten(chunks)), k)
  {
    assert View(c).link == c.link;
    NothingLost(app, c, chunks);
    hide Running, RecvAll, AcceptAll, FramesOf, View, Machine.Ok, Flatten, Until, MessagesTo, Smooth;
    RunDelivers(app, View(c), FramesOf(Flatten(chunks)), k);
  }

  // ---- The value handle_recv returns ----

  /** The value at the end of a chunk: -1 from the first frame that returns it, otherwise what the last complete
      frame returned, or 0 when bytes follow the end of the input. */
  ghost function ChunkValue(app: App, s: Session, bytes: seq<byte>, ret: int): int
    decreases |bytes|
  {
    if bytes == [] then ret
    else if s.link.Ended() then 0
    else
      match ParseFrame(bytes)
      case None => ret
      case Some(f) =>
        var (s1, r) := Accept(app, s, f);
        if r == -1 then -1 else ChunkValue(app, s1, bytes[FrameSize(bytes)..], r)
  }

  lemma ValueStep(app: App, s: Session, raw: seq<byte>, rest: seq<byte>, ret: int)
    requires Complete(raw) && FrameSize(raw) == |raw| && !s.link.Ended()
    ensures var (s1, r) := Accept(app, s, FrameOf(raw));
            ChunkValue(app, s, raw + rest, ret) == if r == -1 then -1 else ChunkValue(app, s1, rest, r)
  {
    assert |raw| > 0;
    hide Complete, Payload, Accept, FrameSize;
    FirstFrame(raw, rest);
  }

  /** ... and that is the value of the receive loop. */
  lemma {:induction false} RecvValue(app: App, c: Machine.Conn, data: seq<byte>, ret: int)
    requires Machine.Ok(c) && !c.Stalled() && Calm(app, View(c), c.Partial() + data)
    ensures Machine.Recv(app, c, data, ret).1 == ChunkValue(app, View(c), c.Partial() + data, ret)
    decreases |data|
  {
    hide Complete, Machine.Process, Accept, Machine.Ok, View, FrameOf, Calm, Machine.Recv, ChunkValue;
    if data == [] {
      NothingMore(app, c, ret);
    } else if c.link.Ended() {
      EndedValue(app, c, data, ret);
    } else if !Complete(Machine.Push(c, data[0]).Last()) {
      ByteStored(app, c, data, ret);
      RecvValue(app, Machine.Push(c, data[0]), data[1..], ret);
    } else {
      var c2, r := FrameDone(app, c, data, data[1..], ret);
      assert c2.Partial() + data[1..] == data[1..];
      if r != -1 { RecvValue(app, c2, data[1..], r); }
      LastByteValue(app, c, data, ret, c2, r);
    }
  }

  lemma NothingMore(app: App, c: Machine.Conn, ret: int)
    requires Machine.Ok(c) && !c.Stalled()
    ensures Machine.Recv(app, c, [], ret).1 == ret == ChunkValue(app, View(c), c.Partial() + [], ret)
  {
    assert c.Partial() + [] == c.Partial();
    assert View(c).link == c.link;
    hide HeaderComplete, FrameSize;
  }

  lemma EndedValue(app: App, c: Machine.Conn, data: seq<byte>, ret: int)
    requires Machine.Ok(c) && c.link.Ended() && data != []
    ensures Machine.Recv(app, c, data, ret).1 == 0 == ChunkValue(app, View(c), c.Partial() + data, ret)
  {
    assert c.Partial() + data == data;
  }

  lemma LastByteValue(app: App, c: Machine.Conn, data: seq<byte>, ret: int, c2: Machine.Conn, r: int)
    requires Machine.Ok(c) && !c.Stalled() && !c.link.Ended() && data != []
    requires Complete(Machine.Push(c, data[0]).Last()) && Calm(app, View(c), c.Partial() + data)
    requires Machine.Step(app, c, data[0]) == (c2, Some(r)) && Machine.Ok(c2)
    ensures ChunkValue(app, View(c), c.Partial() + data, ret) == if r == -1 then -1 else ChunkValue(app, View(c2), data[1..], r)
  {
    hide Complete, Machine.Process, Payload, Accept, FrameSize, ChunkValue, Calm, Stuck, View, Before;
    var raw := Machine.Push(c, data[0]).Last();
    assert raw == c.Partial() + [data[0]] && c.Partial() + data == raw + data[1..];
    CompletesExactly(c.Partial(), data[0]);
    assert View(c).link == c.link by { ViewLink(c); }
    StepAccepts(app, c, data[0], data[1..], c2, r);
    ValueStep(app, View(c), raw, data[1..], ret);
  }

  /** The byte that completes a frame takes the session through it. */
  lemma StepAccepts(app: App, c: Machine.Conn, b: byte, rest: seq<byte>, c2: Machine.Conn, r: int)
    requires Machine.Ok(c) && !c.Stalled() && !c.link.Ended()
    requires Complete(Machine.Push(c, b).Last()) && FrameSize(Machine.Push(c, b).Last()) == |Machine.Push(c, b).Last()|
    requires Calm(app, View(c), Machine.Push(c, b).Last() + rest)
    requires Machine.Step(app, c, b) == (c2, Some(r)) && Machine.Ok(c2)
    ensures (View(c2), r) == Accept(app, View(c), FrameOf(Machine.Push(c, b).Last()))
  {
    assert !Complete([]) && View(c).link == c.link;
    hide Complete, Machine.Process, Payload, Accept, FrameSize, Calm, Stuck, View, Before;
    var c1 := Machine.Push(c, b);
    Machine.PushOk(c, b);
    BeforeIsView(c, b);
    ChunkStep(app, View(c), c1.Last(), rest);
    ProcessIsAccept(app, c1);
  }

  /** A chunk of whole frames returns what the function of its last frame did. */
  lemma {:induction false} FramesValue(app: App, s: Session, fs: seq<WsFrame>, ms: seq<Masking>, ret: int)
    requires |fs| == |ms| && Keyed(ms) && Encodable(fs) && fs != [] && SmoothAll(app, s, fs)
    requires !s.link.Ended() && !AcceptAll(app, s, fs[..|fs| - 1]).link.Ended()
    ensures ChunkValue(app, s, ClientStream(fs, ms), ret)
         == Accept(app, AcceptAll(app, s, fs[..|fs| - 1]), fs[|fs| - 1]).1
    decreases |fs|
  {
    hide ClientFrame, Complete, FrameSize, HeaderComplete, Accept, Stuck, AcceptAll;
    var n := |fs| - 1;
    var first, rest := ClientFrame(fs[0], ms[0].key, ms[0].bit), ClientStream(fs[1..], ms[1..]);
    var (s1, r) := Accept(app, s, fs[0]);
    DecodeClientFrame(fs[0], ms[0].key, ms[0].bit, rest);
    assert |first| > 0 by { HeadOfFrame(fs[0], ms[0].key, ms[0].bit); }
    assert (first + rest)[|first|..] == rest;
    RunFromFirst(app, s, fs, n);
    if n > 0 {
      RunFromFirst(app, s, fs, 1);
      assert fs[1..][..0] == [] && fs[1..][..n - 1] == fs[1..][..|fs[1..]| - 1];
      NoRun(app, s1);
      if s1.link.Ended() { ErrorStops(app, s1, fs[1..][..n - 1]); }
      FramesValue(app, s1, fs[1..], ms[1..], r);
    } else {
      assert rest == [];
    }
  }

  lemma NoRun(app: App, s: Session)
    ensures AcceptAll(app, s, []) == s
  {
  }

  lemma HeadOfFrame(f: WsFrame, key: seq<byte>, bit: bool)
    requires |f.payload| <= MAX_PAYLOAD && |key| == 4
    ensures |ClientFrame(f, key, bit)| > 0
  {
  }

  /** One libwebsock_handle_recv call on any number of passing frames leaves the client with the effect of the last of
      them on what the others left, and returns that frame's value: for a message the application's own. */
  lemma LastFrameReturns(app: App, c: Machine.Conn, fs: seq<WsFrame>, ms: seq<Masking>)
    requires Serves(app, c) && fs != [] && AllPass(fs, |fs|) && NoCloseBefore(fs, |fs|)
    requires |fs| == |ms| && Keyed(ms) && Encodable(fs)
    ensures var n := |fs| - 1;
            var (c1, r) := Machine.Recv(app, c, ClientStream(fs, ms), -1);
            && Effect(app, AcceptAll(app, View(c), fs[..n]).link, c1.link, r, fs, n)
            && (EndsMessage(fs, n) ==> r == app(c.link.delivered + MessagesTo(fs, |fs|)).ret)
  {
    ViewLink(c);
    hide Running, AcceptAll, View, Machine.Ok, AllPass, Accept, ClientStream, SmoothAll, Effect, Encodable;
    hide Obliging, Machine.Recv, MessageAt, EndsMessage, MessagesTo, NoCloseBefore;
    LastFrame(app, View(c), fs);
    OneChunk(app, c, fs, ms);
  }

  lemma LastFrame(app: App, s: Session, fs: seq<WsFrame>)
    requires Obliging(app) && Running(s.link) && s.pending.None?
    requires fs != [] && AllPass(fs, |fs|) && NoCloseBefore(fs, |fs|)
    ensures SmoothAll(app, s, fs) && !s.link.Ended()
    ensures var n := |fs| - 1;
            var s1 := AcceptAll(app, s, fs[..n]);
            var r := Accept(app, s1, fs[n]).1;
            && !s1.link.Ended()
            && Effect(app, s1.link, AcceptAll(app, s, fs).link, r, fs, n)
            && (EndsMessage(fs, n) ==> r == app(s.link.delivered + MessagesTo(fs, |fs|)).ret)
  {
    assert Good(s, fs, 0) && fs[0..] == fs;
    hide Running, AcceptAll, Good, PassesAt, Accept, Flows, SmoothAll, Effect, Safety.Polite, MessageAt, EndsMessage;
    hide MessagesTo;
    var n := |fs| - 1;
    LegalRuns(app, s, fs, n);
    var s1 := AcceptAll(app, s, fs[..n]);
    RunningFacts(s.link);
    GoodRuns(s1, fs, n);
    PassingFrame(app, s1, fs, n);
    Deliveries(app, s, fs, n);
    FlowsFrom(app, s, fs, 0);
    FlowsSmooth(app, s, fs);
    AcceptOne(app, s, fs[..n], fs[n]);
    assert fs[..n] + [fs[n]] == fs;
    if EndsMessage(fs, n) {
      EffectReturns(app, s1.link, AcceptAll(app, s, fs).link, Accept(app, s1, fs[n]).1, fs, n);
      LastMessage(s.link.delivered, fs);
    }
  }

  lemma LastMessage(before: seq<Message>, fs: seq<WsFrame>)
    requires fs != [] && EndsMessage(fs, |fs| - 1)
    ensures before + MessagesTo(fs, |fs| - 1) + [MessageAt(fs, |fs| - 1)] == before + MessagesTo(fs, |fs|)
  {
    hide MessageAt, EndsMessage;
  }

  lemma EffectReturns(app: App, l: Link, l1: Link, r: int, fs: seq<WsFrame>, k: nat)
    requires k < |fs| && Effect(app, l, l1, r, fs, k) && EndsMessage(fs, k)
    ensures r == app(l.delivered + [MessageAt(fs, k)]).ret
  {
    hide EndsMessage, MessageAt, RunCalls;
  }

  /** Smooth frames in one chunk. */
  lemma OneChunk(app: App, c: Machine.Conn, fs: seq<WsFrame>, ms: seq<Masking>)
    requires Machine.Ok(c) && c.Partial() == [] && !c.link.Ended() && fs != []
    requires |fs| == |ms| && Keyed(ms) && Encodable(fs) && SmoothAll(app, View(c), fs)
    requires !AcceptAll(app, View(c), fs[..|fs| - 1]).link.Ended()
    ensures var n := |fs| - 1;
            var (c1, r) := Machine.Recv(app, c, ClientStream(fs, ms), -1);
            && c1.link == AcceptAll(app, View(c), fs).link
            && r == Accept(app, AcceptAll(app, View(c), fs[..n]), fs[n]).1
  {
    ViewLink(c);
    hide View, Machine.Ok, Accept, AcceptAll, ClientStream, SmoothAll, Machine.Recv, Decode, Smooth, Calm, Encodable;
    var bytes := ClientStream(fs, ms);
    assert c.Partial() + bytes == bytes;
    NoFrame();
    ClientStreamSmooth(app, View(c), fs, ms);
    SmoothChunk(app, View(c), bytes);
    RecvDecodes(app, c, bytes, -1);
    RecvValue(app, c, bytes, -1);
    DecodeIsAcceptAll(app, View(c), bytes);
    ClientStreamFrames(fs, ms);
    FramesValue(app, View(c), fs, ms, -1);
    ViewLink(Machine.Recv(app, c, bytes, -1).0);
  }
}
