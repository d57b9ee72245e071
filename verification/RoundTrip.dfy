// End to end: what one side's encoder makes, masked as a client masks it and cut
// into any chunks, is delivered by the other side's receive loop; and the answer
// to a close.

module RoundTrip {
  import opened Bytes
  import opened Wire
  import opened Protocol
  import opened Session
  import opened Runs
  import Grammar
  import Safety
  import Utf8
  import Machine

  // ---- Sending a message in any number of frames ----

  function HeadAt(op: byte, i: nat, n: nat): byte
  {
    (if i == 0 then op else OP_CONTINUE) | (if i == n - 1 then 0x80 else 0)
  }

  function CallAt(op: byte, part: seq<byte>, i: nat, n: nat): ApiCall
  {
    if n == 1 then if op == OP_TEXT then Text(part) else Binary(part)
    else if i == 0 then if op == OP_TEXT then InitText(part) else InitBinary(part)
    else if i == n - 1 then End(part)
    else Continue(part)
  }

  /** The API calls that send `parts` as one message. */
  function SendCalls(op: byte, parts: seq<seq<byte>>): (calls: seq<ApiCall>)
    ensures |calls| == |parts|
  {
    seq(|parts|, i requires 0 <= i < |parts| => CallAt(op, parts[i], i, |parts|))
  }

  function MessageFrames(op: byte, parts: seq<seq<byte>>): (fs: seq<WsFrame>)
    ensures |fs| == |parts|
  {
    seq(|parts|, i requires 0 <= i < |parts| => WsFrame(HeadAt(op, i, |parts|), parts[i]))
  }

  predicate Sendable(op: byte, parts: seq<seq<byte>>)
  {
    (op == OP_TEXT || op == OP_BINARY) && parts != [] && forall i | 0 <= i < |parts| :: |parts[i]| <= MAX_PAYLOAD
  }

  /** A link that will make frames. */
  predicate CanSend(l: Link)
  {
    l.connected && !l.sentClose
  }

  lemma OneCall(l: Link, op: byte, part: seq<byte>, i: nat, n: nat)
    requires CanSend(l) && (n == 1 ==> !l.continuous) && (i > 0 ==> l.continuous) && i < n && |part| <= MAX_PAYLOAD
    requires op == OP_TEXT || op == OP_BINARY
    ensures var l1 := Call(l, CallAt(op, part, i, n)).0;
            CanSend(l1) && l1.sent == l.sent + [WsFrame(HeadAt(op, i, n), part)] && (l1.continuous <==> i < n - 1)
  {
    ContinuousIff(l, CallAt(op, part, i, n));
    hide EncodeFrame;
  }

  /** From any frame of a message on, the calls still to come make its frames still to come, and then the link may
      begin another message. */
  lemma {:induction false} CallsMakeFrames(l: Link, op: byte, parts: seq<seq<byte>>, k: nat)
    requires Sendable(op, parts) && CanSend(l) && k <= |parts| && (|parts| == 1 && k == 0 ==> !l.continuous)
    requires k > 0 ==> (l.continuous <==> k < |parts|)
    ensures var l1 := RunCalls(l, SendCalls(op, parts)[k..]);
            CanSend(l1) && !l1.continuous && l1.sent == l.sent + MessageFrames(op, parts)[k..]
    decreases |parts| - k
  {
    hide Call, HeadAt, CallAt;
    if k < |parts| {
      OneCall(l, op, parts[k], k, |parts|);
      var calls, fs := SendCalls(op, parts), MessageFrames(op, parts);
      assert calls[k..][0] == calls[k] && calls[k..][1..] == calls[k + 1..];
      assert fs[k..] == [fs[k]] + fs[k + 1..];
      CallsMakeFrames(Call(l, calls[k]).0, op, parts, k + 1);
    }
  }

  // ---- Sending one message after the other ----

  /** A message to send, in these parts. */
  datatype Outgoing = Outgoing(op: byte, parts: seq<seq<byte>>)

  predicate AllSendable(os: seq<Outgoing>)
  {
    forall i | 0 <= i < |os| :: Sendable(os[i].op, os[i].parts)
  }

  function AllCalls(os: seq<Outgoing>): seq<ApiCall>
  {
    if os == [] then [] else SendCalls(os[0].op, os[0].parts) + AllCalls(os[1..])
  }

  function AllFrames(os: seq<Outgoing>): seq<WsFrame>
  {
    if os == [] then [] else MessageFrames(os[0].op, os[0].parts) + AllFrames(os[1..])
  }

  lemma {:induction false} RunCallsAppend(l: Link, a: seq<ApiCall>, b: seq<ApiCall>)
    ensures RunCalls(l, a + b) == RunCalls(RunCalls(l, a), b)
    decreases |a|
  {
    hide Call;
    if a == [] {
      assert a + b == b;
    } else {
      assert (a + b)[1..] == a[1..] + b;
      RunCallsAppend(Call(l, a[0]).0, a[1..], b);
    }
  }

  /** Messages sent one after the other, each in any number of parts, make all their frames in order: none is
      refused because of the one before. */
  lemma {:induction false} MessagesMakeFrames(l: Link, os: seq<Outgoing>)
    requires AllSendable(os) && CanSend(l) && !l.continuous
    ensures var l1 := RunCalls(l, AllCalls(os));
            CanSend(l1) && !l1.continuous && l1.sent == l.sent + AllFrames(os)
    decreases |os|
  {
    hide Call, SendCalls, MessageFrames;
    if os != [] {
      var calls, fs := SendCalls(os[0].op, os[0].parts), MessageFrames(os[0].op, os[0].parts);
      assert calls[0..] == calls && fs[0..] == fs;
      CallsMakeFrames(l, os[0].op, os[0].parts, 0);
      RunCallsAppend(l, calls, AllCalls(os[1..]));
      MessagesMakeFrames(RunCalls(l, calls), os[1..]);
    }
  }

  // ---- Receiving it ----

  /** Text must be well formed up to its first NUL. */
  ghost predicate Deliverable(m: Message)
  {
    m.opcode == OP_TEXT ==> TextOk(m.payload)
  }

  /** A client that may take a message. */
  predicate Idle(s: Session)
  {
    s.link.connected && !s.link.Ended() && !s.link.sentClose && s.pending.None?
  }

  lemma HeadFacts(op: byte, i: nat, n: nat)
    requires i < n && (op == OP_TEXT || op == OP_BINARY)
    ensures LegalHead(i > 0, HeadAt(op, i, n)) && !IsControl(HeadAt(op, i, n))
    ensures Fin(HeadAt(op, i, n)) <==> i == n - 1
    ensures i == 0 ==> Opcode(HeadAt(op, i, n)) == op
  {
  }

  /** After some but not all frames the link is untouched and the payload so far is under way. */
  ghost predicate Underway(s0: Session, s: Session, op: byte, parts: seq<seq<byte>>, k: nat)
    requires k <= |parts|
  {
    s.link == s0.link && s.pending == if k == 0 then None else Some(Message(op, Concat(parts[..k])))
  }

  lemma NextMessage(s0: Session, s: Session, op: byte, parts: seq<seq<byte>>, k: nat)
    requires Sendable(op, parts) && k < |parts| && Underway(s0, s, op, parts, k)
    ensures Extended(s, MessageFrames(op, parts)[k]) == Message(op, Concat(parts[..k + 1]))
    ensures k == |parts| - 1 ==> parts[..k + 1] == parts
  {
    hide HeadAt;
    HeadFacts(op, k, |parts|);
    assert parts[..k + 1] == parts[..k] + [parts[k]];
    ConcatAppend(parts[..k], parts[k]);
    if k == 0 {
      assert parts[..0] == [] && [] + parts[0] == parts[0];
    }
  }

  lemma NextPart(app: App, s0: Session, s: Session, op: byte, parts: seq<seq<byte>>, k: nat)
    requires Sendable(op, parts) && Idle(s0) && k < |parts| && Underway(s0, s, op, parts, k)
    ensures var (s1, r) := Accept(app, s, MessageFrames(op, parts)[k]);
            && !Stuck(s, MessageFrames(op, parts)[k])
            && if k < |parts| - 1 then Underway(s0, s1, op, parts, k + 1) && r == 0
               else (s1, r) == Final(app, s0, Message(op, Concat(parts)))
  {
    hide Deliver, Error, HeadAt, TextOk, Extended, Concat;
    HeadFacts(op, k, |parts|);
    NextMessage(s0, s, op, parts, k);
  }

  /** What the last frame brings about: delivery, or 1007. */
  ghost function Final(app: App, s: Session, m: Message): (Session, int)
  {
    if Deliverable(m) then
      var (l, r) := Deliver(app, s.link, m);
      (Session(l, None), r)
    else
      var (l, r) := Error(s.link, CLOSE_WRONG_TYPE);
      (Session(l, None), r)
  }

  lemma {:induction false} FramesDeliver(app: App, s0: Session, s: Session, op: byte, parts: seq<seq<byte>>, k: nat)
    requires Sendable(op, parts) && Idle(s0) && k < |parts| && Underway(s0, s, op, parts, k)
    ensures var fs := MessageFrames(op, parts)[k..];
            SmoothAll(app, s, fs) && AcceptAll(app, s, fs) == Final(app, s0, Message(op, Concat(parts))).0
    decreases |parts| - k
  {
    hide Accept, MessageFrames, Final, Stuck;
    var fs := MessageFrames(op, parts);
    NextPart(app, s0, s, op, parts, k);
    var s1 := Accept(app, s, fs[k]).0;
    assert fs[k..] == [fs[k]] + fs[k + 1..] && fs[k..][0] == fs[k] && fs[k..][1..] == fs[k + 1..];
    AcceptOne(app, s, [], fs[k]);
    assert [] + [fs[k]] == [fs[k]];
    AcceptAllSplit(app, s, [fs[k]], fs[k + 1..]);
    if k < |parts| - 1 {
      FramesDeliver(app, s0, s1, op, parts, k + 1);
    } else {
      assert fs[k + 1..] == [];
    }
  }

  /** The round trip: a message sent in any number of frames and received in any chunks reaches onmessage
      exactly once, with the first frame's opcode and exactly the bytes sent - if it is binary, or text that
      is well-formed UTF-8 up to its first NUL; other text closes the connection with 1007 instead. */
  lemma RoundTrip(app: App, l: Link, op: byte, parts: seq<seq<byte>>, fs: seq<WsFrame>, ms: seq<Masking>,
                  c: Machine.Conn, chunks: seq<seq<byte>>)
    requires Sendable(op, parts) && CanSend(l) && (|parts| == 1 ==> !l.continuous)
    requires RunCalls(l, SendCalls(op, parts)).sent == l.sent + fs
    requires |ms| == |fs| && Keyed(ms) && Encodable(fs) && Flatten(chunks) == ClientStream(fs, ms)
    requires Machine.Ok(c) && c.Partial() == [] && Idle(View(c))
    ensures var c1 := RecvAll(app, c, chunks);
            && c1.Partial() == []
            && Received(c.link, c1.link, Message(op, Concat(parts)))
  {
    hide RunCalls, MessageFrames, SendCalls, RecvAll;
    CallsMakeFrames(l, op, parts, 0);
    assert SendCalls(op, parts)[0..] == SendCalls(op, parts) && MessageFrames(op, parts)[0..] == MessageFrames(op, parts);
    assert fs == (l.sent + fs)[|l.sent|..] == MessageFrames(op, parts);
    Reception(app, op, parts, ms, c, chunks);
  }

  /** The receiving half. */
  lemma Reception(app: App, op: byte, parts: seq<seq<byte>>, ms: seq<Masking>, c: Machine.Conn, chunks: seq<seq<byte>>)
    requires Sendable(op, parts) && |ms| == |parts| && Keyed(ms) && Encodable(MessageFrames(op, parts))
    requires Flatten(chunks) == ClientStream(MessageFrames(op, parts), ms)
    requires Machine.Ok(c) && c.Partial() == [] && Idle(View(c))
    ensures var c1 := RecvAll(app, c, chunks);
            && c1.Partial() == []
            && Received(c.link, c1.link, Message(op, Concat(parts)))
  {
    assert View(c).link == c.link;
    assert Underway(View(c), View(c), op, parts, 0);
    hide MessageFrames, ClientStream, RecvAll, SmoothAll, AcceptAll, Final, Encodable, Received;
    hide View, Machine.Ok, Idle, Flatten, Concat, Sendable, Underway;
    var fs, m := MessageFrames(op, parts), Message(op, Concat(parts));
    assert fs[0..] == fs;
    FramesDeliver(app, View(c), View(c), op, parts, 0);
    StreamRuns(app, c, fs, ms, chunks);
    FinalDelivers(app, View(c), m);
  }

  /** The message was delivered, once, if it may be; otherwise the client failed with 1007. */
  ghost predicate Received(l: Link, l1: Link, m: Message)
  {
    l1.crashed == l.crashed &&
    if Deliverable(m) then l1.delivered == l.delivered + [m]
    else l1.error && l1.errors == l.errors + [CLOSE_WRONG_TYPE] && l1.delivered == l.delivered
  }

  lemma FinalDelivers(app: App, s: Session, m: Message)
    requires Idle(s)
    ensures Received(s.link, Final(app, s, m).0.link, m)
  {
    hide Deliverable, RunCalls;
  }

  // ---- The answer to a close ----

  /** The payload of the reply. */
  function Echo(p: seq<byte>): seq<byte>
    requires p == [] || |p| >= 2
  {
    if p == [] then Be16(CLOSE_NORMAL) else p[..2] + UpToNul(p[2..])
  }

  /** Close echo: a legal close is answered with its own code and its reason up to the first NUL; an empty one
      with 1000. Nothing else is sent and both close bits are set. */
  lemma CloseEcho(app: App, s: Session, f: WsFrame)
    requires Grammar.Running(s.link) && f.head == HEAD_CLOSE && |f.payload| <= 125 && Grammar.PassesClose(f.payload)
    ensures var l := Accept(app, s, f).0.link;
            && l.sent == s.link.sent + [WsFrame(0x88, Echo(f.payload))]
            && l.sentClose && l.receivedClose && !l.error && l.connected && l.delivered == s.link.delivered
    ensures f.payload == [] ==> Echo(f.payload) == [0x03, 0xE8]
  {
    if f.payload == [] { EmptyEcho(); }
    hide OnCloseFrame, Grammar.PassesClose, Echo;
    EchoSent(s.link.(controls := s.link.controls + [f]), f.payload);
  }

  lemma EmptyEcho()
    ensures Echo([]) == [0x03, 0xE8]
  {
    CodeBytes();
  }

  lemma EchoSent(l: Link, p: seq<byte>)
    requires Grammar.Running(l) && |p| <= 125 && Grammar.PassesClose(p)
    ensures var l1 := OnCloseFrame(l, p).0;
            && l1.sent == l.sent + [WsFrame(HEAD_CLOSE, Echo(p))]
            && l1.sentClose && l1.receivedClose && !l1.error && l1.connected && l1.delivered == l.delivered
  {
    hide EncodeFrame, Judge, ClosePayload, Echo, PopulateCloseInfo, CString, Utf8.WellFormed, FromBe16, BadCloseCode;
    Grammar.CloseJudged(p);
    EchoPayload(p);
  }

  /** code and reason, re-encoded. */
  lemma EchoPayload(p: seq<byte>)
    requires |p| <= 125 && (p == [] || |p| >= 2)
    ensures |Echo(p)| <= 125
    ensures Echo(p) == match PopulateCloseInfo(p)
                       case Some(info) => ClosePayload(info.code, CString(info.reason))
                       case None => ClosePayload(CLOSE_NORMAL, [])
  {
    hide Be16, FromBe16, UpToNul;
    if p == [] {
      assert ClosePayload(CLOSE_NORMAL, []) == Be16(CLOSE_NORMAL);
    } else {
      Grammar.ReasonIsTail(p);
      Be16Inverse(p[0], p[1]);
    }
  }

  /** Once both closes are noted no frame adds anything. */
  lemma {:induction false} NothingAfterClose(app: App, s: Session, fs: seq<WsFrame>)
    requires s.link.connected && s.link.sentClose && s.link.receivedClose
    ensures var l := AcceptAll(app, s, fs).link;
            && l.sent == s.link.sent && l.delivered == s.link.delivered
            && l.connected && l.sentClose && l.receivedClose
    decreases |fs|
  {
    hide Accept, Safety.Fails;
    if fs != [] {
      var n := |fs| - 1;
      NothingAfterClose(app, s, fs[..n]);
      var s1 := AcceptAll(app, s, fs[..n]);
      if !s1.link.Ended() { Safety.SecondCloseIff(app, s1, fs[n]); }
    }
  }

  /** A close at `k`, the first, and accepted. */
  ghost predicate ClosesAt(fs: seq<WsFrame>, k: nat)
  {
    && k < |fs| && Grammar.AllPass(fs, k) && Grammar.NoCloseBefore(fs, k)
    && fs[k].head == HEAD_CLOSE && |fs[k].payload| <= 125 && Grammar.PassesClose(fs[k].payload)
  }

  /** The close was answered, and nothing else sent or delivered. */
  ghost predicate Closed(l0: Link, l: Link, payload: seq<byte>)
    requires payload == [] || |payload| >= 2
  {
    && l.sent == l0.sent + [WsFrame(HEAD_CLOSE, Echo(payload))]
    && l.delivered == l0.delivered && l.sentClose && l.receivedClose
  }

  /** At the first close, if all is legal before it, the reply is sent; and nothing is sent or delivered after
      that, whatever the run goes on with. */
  lemma RunCloseEcho(app: App, s: Session, fs: seq<WsFrame>, k: nat)
    requires Safety.Polite(app) && Grammar.Running(s.link) && s.pending.None? && ClosesAt(fs, k)
    ensures Closed(AcceptAll(app, s, fs[..k]).link, AcceptAll(app, s, fs).link, fs[k].payload)
  {
    hide Accept, Safety.Polite, Echo, Grammar.AllPass, Grammar.PassesClose, Grammar.PendingAt, Grammar.Running;
    Grammar.LegalRuns(app, s, fs, k);
    var s0 := AcceptAll(app, s, fs[..k]);
    Grammar.RunningFacts(s0.link);
    CloseEcho(app, s0, fs[k]);
    AcceptOne(app, s, fs[..k], fs[k]);
    assert fs[..k] + [fs[k]] == fs[..k + 1] && fs[..k + 1] + fs[k + 1..] == fs;
    AcceptAllSplit(app, s, fs[..k + 1], fs[k + 1..]);
    NothingAfterClose(app, Accept(app, s0, fs[k]).0, fs[k + 1..]);
  }

  /** The same for bytes in any chunks. */
  lemma ChunksCloseEcho(app: App, c: Machine.Conn, chunks: seq<seq<byte>>, k: nat)
    requires Machine.Ok(c) && Grammar.StartsRun(app, c, chunks) && ClosesAt(FramesOf(Flatten(chunks)), k)
    ensures var fs := FramesOf(Flatten(chunks));
            Closed(AcceptAll(app, View(c), fs[..k]).link, RecvAll(app, c, chunks).link, fs[k].payload)
  {
    assert View(c).link == c.link;
    Grammar.ChunksRun(app, c, chunks);
    hide Accept, Smooth, RecvAll, Safety.Polite, FramesOf, Closed, Grammar.AllPass, Grammar.PassesClose, View;
    RunCloseEcho(app, View(c), FramesOf(Flatten(chunks)), k);
  }

  /** The reply is the very payload received exactly when that is not empty and its reason has no NUL. */
  lemma EchoIsExact(p: seq<byte>)
    requires p == [] || |p| >= 2
    ensures Echo(p) == p <==> p != [] && 0 !in p[2..]
  {
    if p != [] {
      var tail := p[2..];
      assert p == p[..2] + tail;
      if UpToNul(tail) != tail {
        assert |Echo(p)| < |p|;
      }
    }
  }
}
