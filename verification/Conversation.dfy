// Conversations: several messages sent one after the other arrive one after the
// other; and what a server that sends every message back sends
// (examples/autobahn-echo.c).

module Conversation {
  import opened Bytes
  import opened Wire
  import opened Protocol
  import opened Session
  import opened Runs
  import opened Grammar
  import opened RoundTrip
  import opened Delivery
  import Machine
  import Safety
  import Transparency

  // ---- Several messages ----

  /** The messages meant. */
  function Sent(os: seq<Outgoing>): seq<Message>
  {
    if os == [] then [] else [Message(os[0].op, Concat(os[0].parts))] + Sent(os[1..])
  }

  ghost predicate AllDeliverable(os: seq<Outgoing>)
  {
    forall i | 0 <= i < |os| :: Deliverable(Message(os[i].op, Concat(os[i].parts)))
  }

  /** The frames of one message deliver it and leave the client as ready as it was. */
  lemma MessageRun(app: App, s: Session, op: byte, parts: seq<seq<byte>>)
    requires Safety.Polite(app) && Running(s.link) && s.pending.None? && Sendable(op, parts)
    requires Deliverable(Message(op, Concat(parts)))
    ensures var s1 := AcceptAll(app, s, MessageFrames(op, parts));
            && Running(s1.link) && s1.pending.None?
            && s1.link.delivered == s.link.delivered + [Message(op, Concat(parts))]
  {
    assert Idle(s) && Underway(s, s, op, parts, 0);
    var fs, m := MessageFrames(op, parts), Message(op, Concat(parts));
    assert fs[0..] == fs;
    hide MessageFrames, AcceptAll, Running, Safety.Polite, SmoothAll, Deliverable, Underway, Sendable, Concat, RunCalls;
    FramesDeliver(app, s, s, op, parts, 0);
    DeliverRuns(app, s.link, m);
  }

  lemma {:induction false} MessagesRun(app: App, s: Session, os: seq<Outgoing>)
    requires Safety.Polite(app) && Running(s.link) && s.pending.None? && AllSendable(os) && AllDeliverable(os)
    ensures AcceptAll(app, s, AllFrames(os)).link.delivered == s.link.delivered + Sent(os)
    decreases |os|
  {
    hide AcceptAll, MessageFrames, Running, Safety.Polite, Deliverable, Sendable, Concat;
    if os == [] {
      NoRun(app, s);
    } else {
      var fs := MessageFrames(os[0].op, os[0].parts);
      assert Sendable(os[0].op, os[0].parts) && Deliverable(Message(os[0].op, Concat(os[0].parts)));
      MessageRun(app, s, os[0].op, os[0].parts);
      AcceptAllSplit(app, s, fs, AllFrames(os[1..]));
      MessagesRun(app, AcceptAll(app, s, fs), os[1..]);
    }
  }

  predicate NoControls(fs: seq<WsFrame>)
  {
    forall i | 0 <= i < |fs| :: !IsControl(fs[i].head)
  }

  lemma {:induction false} MessagesHaveNoControls(os: seq<Outgoing>)
    requires AllSendable(os)
    ensures NoControls(AllFrames(os))
    decreases |os|
  {
    hide IsControl, HeadAt;
    if os != [] {
      var op, parts := os[0].op, os[0].parts;
      assert Sendable(op, parts);
      forall i | 0 <= i < |parts| ensures !IsControl(MessageFrames(op, parts)[i].head) {
        HeadFacts(op, i, |parts|);
      }
      MessagesHaveNoControls(os[1..]);
    }
  }

  /** A frame is either dropped or kept. */
  lemma {:induction false} Kept(fs: seq<WsFrame>, i: nat)
    requires i < |fs|
    ensures Transparency.Droppable(fs[i]) || fs[i] in Transparency.Drop(fs)
    decreases |fs|
  {
    hide Transparency.Droppable;
    if i < |fs| - 1 { Kept(fs[..|fs| - 1], i); }
  }

  /** Where all but pings and pongs are data frames there is no close. */
  lemma NoCloseAmong(fs: seq<WsFrame>)
    requires NoControls(Transparency.Drop(fs))
    ensures NoCloseBefore(fs, |fs|)
  {
    hide Transparency.Drop;
    forall i | 0 <= i < |fs| ensures Opcode(fs[i].head) != OP_CLOSE { Kept(fs, i); }
  }

  lemma {:induction false} NothingToDrop(fs: seq<WsFrame>)
    requires NoControls(fs)
    ensures Transparency.Drop(fs) == fs
    decreases |fs|
  {
    if fs != [] {
      NothingToDrop(fs[..|fs| - 1]);
      assert fs[..|fs| - 1] + [fs[|fs| - 1]] == fs;
    }
  }

  /** Messages sent one after the other, each in any number of parts, with any pings and pongs put between their
      frames, masked with any keys and received in any chunks, are all delivered: whole, in order, none twice. */
  lemma MessagesArrive(app: App, l: Link, os: seq<Outgoing>, gs: seq<WsFrame>, fs: seq<WsFrame>, ms: seq<Masking>,
                       c: Machine.Conn, chunks: seq<seq<byte>>)
    requires AllSendable(os) && AllDeliverable(os) && CanSend(l) && !l.continuous
    requires RunCalls(l, AllCalls(os)).sent == l.sent + gs && Transparency.Drop(fs) == gs
    requires |ms| == |fs| && Keyed(ms) && Encodable(fs) && Flatten(chunks) == ClientStream(fs, ms)
    requires Serves(app, c)
    ensures RecvAll(app, c, chunks).link.delivered == c.link.delivered + Sent(os)
  {
    ViewLink(c);
    hide RunCalls, AllCalls, RecvAll, AcceptAll, ClientStream, Flatten, View, Machine.Ok, Running, Transparency.Drop;
    hide AllSendable, AllDeliverable, AllFrames, Sent, Encodable, NoControls, Smooth;
    MessagesMakeFrames(l, os);
    assert gs == (l.sent + gs)[|l.sent|..] == AllFrames(os);
    MessagesHaveNoControls(os);
    NoCloseAmong(fs);
    ClientStreamFrames(fs, ms);
    NothingLost(app, c, chunks);
    Transparency.PingsTransparent(app, View(c), fs);
    MessagesRun(app, View(c), os);
  }

  // ---- One message in one chunk ----

  /** Before each frame of a message, all before it are under way. */
  lemma {:induction false} UnderwayTo(app: App, s: Session, op: byte, parts: seq<seq<byte>>, k: nat)
    requires Sendable(op, parts) && Idle(s) && k < |parts|
    ensures Underway(s, AcceptAll(app, s, MessageFrames(op, parts)[..k]), op, parts, k)
    decreases k
  {
    hide Accept, MessageFrames, Stuck, Concat, Sendable;
    if k > 0 {
      var fs := MessageFrames(op, parts);
      UnderwayTo(app, s, op, parts, k - 1);
      NextPart(app, s, AcceptAll(app, s, fs[..k - 1]), op, parts, k - 1);
      assert fs[..k] == fs[..k - 1] + [fs[k - 1]];
      AcceptOne(app, s, fs[..k - 1], fs[k - 1]);
    }
  }

  /** libwebsock_handle_recv on the frames of one message returns exactly what the application returned for that
      message, -1 included; for text that is not delivered it returns the size of the close frame with 1007. */
  lemma MessageReturns(app: App, c: Machine.Conn, op: byte, parts: seq<seq<byte>>, ms: seq<Masking>)
    requires Sendable(op, parts) && Encodable(MessageFrames(op, parts)) && |ms| == |parts| && Keyed(ms)
    requires Machine.Ok(c) && c.Partial() == [] && Idle(View(c))
    ensures var m := Message(op, Concat(parts));
            var (c1, r) := Machine.Recv(app, c, ClientStream(MessageFrames(op, parts), ms), -1);
            && Received(c.link, c1.link, m)
            && r == if Deliverable(m) then app(c.link.delivered + [m]).ret else 4
  {
    ViewLink(c);
    assert Underway(View(c), View(c), op, parts, 0);
    var fs, m, n := MessageFrames(op, parts), Message(op, Concat(parts)), |parts| - 1;
    var s := AcceptAll(app, View(c), fs[..n]);
    FinalReturns(app, View(c), m);
    UnderwayFacts(View(c), s, op, parts, n) by { UnderwayTo(app, View(c), op, parts, n); }
    hide MessageFrames, ClientStream, SmoothAll, AcceptAll, Final, Encodable, Received, View, Machine.Ok, Idle, Accept;
    hide Deliverable, Concat, Sendable, Underway, Machine.Recv;
    assert fs[0..] == fs;
    FramesDeliver(app, View(c), View(c), op, parts, 0);
    UnderwayTo(app, View(c), op, parts, n);
    NextPart(app, View(c), s, op, parts, n);
    OneChunk(app, c, fs, ms);
    FinalDelivers(app, View(c), m);
  }

  lemma UnderwayFacts(s0: Session, s: Session, op: byte, parts: seq<seq<byte>>, k: nat)
    requires k < |parts| && Idle(s0) && Underway(s0, s, op, parts, k)
    ensures !s.link.Ended() && !s0.link.Ended()
  {
  }

  lemma FinalReturns(app: App, s: Session, m: Message)
    requires Idle(s)
    ensures Final(app, s, m).1 == if Deliverable(m) then app(s.link.delivered + [m]).ret else 4
  {
    hide RunCalls, Deliverable, Be16;
  }

  // ---- A server that sends every message back ----

  /** Its onmessage: text as text, anything else as binary, and 0. */
  function EchoReply(ms: seq<Message>): Reply
  {
    if ms == [] then Reply([], 0)
    else
      var m := ms[|ms| - 1];
      Reply([if m.opcode == OP_TEXT then Text(m.payload) else Binary(m.payload)], 0)
  }

  ghost predicate Echoes(app: App)
  {
    forall ms :: app(ms) == EchoReply(ms)
  }

  /** What it should send for the frame at `k`: a pong for a ping, and for a message, when it ends, one frame with
      all of it. */
  function EchoAt(fs: seq<WsFrame>, k: nat): seq<WsFrame>
    requires k < |fs|
  {
    if EndsMessage(fs, k) then [WsFrame(if TextAt(fs, k) then 0x81 else 0x82, WholeAt(fs, k))]
    else if Opcode(fs[k].head) == OP_PING then [WsFrame(0x8A, fs[k].payload)]
    else []
  }

  function EchoesTo(fs: seq<WsFrame>, k: nat): seq<WsFrame>
    requires k <= |fs|
  {
    if k == 0 then [] else EchoesTo(fs, k - 1) + EchoAt(fs, k - 1)
  }

  /** No message is too long for one frame. */
  predicate EchoFits(fs: seq<WsFrame>, k: nat)
    requires k <= |fs|
  {
    forall i | 0 <= i < k && EndsMessage(fs, i) :: |WholeAt(fs, i)| <= 0xFFFF_FFF0
  }

  lemma EchoObliges(app: App)
    requires Echoes(app)
    ensures Obliging(app)
  {
    forall ms ensures Safety.NoClose(app(ms).calls) && app(ms).ret != -1 {
      assert app(ms) == EchoReply(ms);
    }
  }

  lemma EchoFrame(app: App, l: Link, l1: Link, r: int, fs: seq<WsFrame>, k: nat)
    requires Echoes(app) && k < |fs| && Effect(app, l, l1, r, fs, k)
    requires l.connected && !l.sentClose && !l.continuous && (EndsMessage(fs, k) ==> |WholeAt(fs, k)| <= 0xFFFF_FFF0)
    ensures !l1.continuous && l1.sent == l.sent + EchoAt(fs, k)
  {
    if EndsMessage(fs, k) {
      EchoMessage(app, l, fs, k);
    } else {
      EchoControl(app, l, l1, r, fs, k);
    }
    hide Echoes, RunCalls, EndsMessage, MessageAt, WholeAt, TextAt, EchoAt;
  }

  lemma EchoControl(app: App, l: Link, l1: Link, r: int, fs: seq<WsFrame>, k: nat)
    requires k < |fs| && Effect(app, l, l1, r, fs, k) && !EndsMessage(fs, k) && !l.continuous
    ensures !l1.continuous && l1.sent == l.sent + EchoAt(fs, k)
  {
    hide RunCalls, EndsMessage, MessageAt, WholeAt, TextAt, Opcode;
    assert l.sent + [] == l.sent;
  }

  /** The reply to a message. */
  lemma EchoMessage(app: App, l: Link, fs: seq<WsFrame>, k: nat)
    requires Echoes(app) && k < |fs| && EndsMessage(fs, k)
    requires l.connected && !l.sentClose && !l.continuous && |WholeAt(fs, k)| <= 0xFFFF_FFF0
    ensures var l0 := l.(delivered := l.delivered + [MessageAt(fs, k)]);
            var l1 := RunCalls(l0, app(l0.delivered).calls);
            !l1.continuous && l1.sent == l.sent + EchoAt(fs, k)
  {
    hide EncodeFrame, WholeAt, Start, EndsMessage;
    var l0 := l.(delivered := l.delivered + [MessageAt(fs, k)]);
    var calls := app(l0.delivered).calls;
    assert app(l0.delivered) == EchoReply(l0.delivered) && |calls| == 1 && calls[1..] == [];
  }

  lemma {:induction false} EchoRuns(app: App, s: Session, fs: seq<WsFrame>, k: nat)
    requires Echoes(app) && Running(s.link) && s.pending.None? && !s.link.continuous && k <= |fs|
    requires AllPass(fs, k) && NoCloseBefore(fs, k) && EchoFits(fs, k)
    ensures var l := AcceptAll(app, s, fs[..k]).link;
            !l.continuous && l.sent == s.link.sent + EchoesTo(fs, k)
    decreases k
  {
    hide AcceptAll, PassesAt, Running, EchoAt, EndsMessage, Effect, WholeAt, Echoes, Safety.Polite;
    if k > 0 {
      EchoObliges(app);
      EchoRuns(app, s, fs, k - 1);
      var r := RunEffect(app, s, fs, k - 1);
      EchoFrame(app, AcceptAll(app, s, fs[..k - 1]).link, AcceptAll(app, s, fs[..k]).link, r, fs, k - 1);
    } else {
      NoRun(app, s);
    }
  }

  /** The echo server: from bytes in any chunks, all passing and none a close, exactly the messages received are
      delivered and sent back, and every ping is answered, in the order in which they came. */
  lemma EchoServer(app: App, c: Machine.Conn, chunks: seq<seq<byte>>)
    requires Echoes(app) && Machine.Ok(c) && Running(c.link) && c.Partial() == [] && View(c).pending.None?
    requires !c.link.continuous
    requires var fs := FramesOf(Flatten(chunks)); AllPass(fs, |fs|) && NoCloseBefore(fs, |fs|) && EchoFits(fs, |fs|)
    ensures var fs, l := FramesOf(Flatten(chunks)), RecvAll(app, c, chunks).link;
            && l.delivered == c.link.delivered + MessagesTo(fs, |fs|)
            && l.sent == c.link.sent + EchoesTo(fs, |fs|)
  {
    var fs := FramesOf(Flatten(chunks));
    ViewLink(c);
    hide Running, RecvAll, AcceptAll, FramesOf, View, Machine.Ok, Flatten, MessagesTo, Smooth, Echoes, EchoesTo, EchoFits;
    hide PassesAt;
    EchoObliges(app);
    NothingLost(app, c, chunks);
    EchoRuns(app, View(c), fs, |fs|);
    Deliveries(app, View(c), fs, |fs|);
    assert fs[..|fs|] == fs;
  }
}
