// Pings and pongs are transparent (sections 5.4, 5.5.2 and 5.5.3 of RFC 6455):
// taking them out of a run changes nothing but the pongs sent, and each ping
// adds exactly one pong with its data.

module Transparency {
  import opened Bytes
  import opened Wire
  import opened Protocol
  import opened Session
  import opened Runs
  import Machine

  const HEAD_PING: byte := 0x89
  const HEAD_PONG: byte := 0x8A

  // ---- Frames sent, by kind ----

  function NonPongs(fs: seq<WsFrame>): seq<WsFrame>
  {
    if fs == [] then []
    else
      var last := fs[|fs| - 1];
      NonPongs(fs[..|fs| - 1]) + (if last.head == HEAD_PONG then [] else [last])
  }

  /** The payloads of the frames with this first byte, in order. */
  function PayloadsOf(fs: seq<WsFrame>, head: byte): seq<seq<byte>>
  {
    if fs == [] then []
    else
      var last := fs[|fs| - 1];
      PayloadsOf(fs[..|fs| - 1], head) + (if last.head == head then [last.payload] else [])
  }

  lemma AppendSent(fs: seq<WsFrame>, f: WsFrame)
    ensures NonPongs(fs + [f]) == NonPongs(fs) + (if f.head == HEAD_PONG then [] else [f])
    ensures PayloadsOf(fs + [f], HEAD_PONG) == PayloadsOf(fs, HEAD_PONG) + (if f.head == HEAD_PONG then [f.payload] else [])
  {
    assert (fs + [f])[..|fs|] == fs;
  }

  // ---- Alike but for pongs ----

  /** Everything but the output and the record of control frames. */
  function Core(l: Link): Link
  {
    l.(out := [], sent := [], flushed := 0, prefix := [], controls := [])
  }

  predicate Alike(l: Link, m: Link)
  {
    Core(l) == Core(m) && NonPongs(l.sent) == NonPongs(m.sent)
  }

  predicate AlikeStep(r: (Link, int), q: (Link, int))
  {
    Alike(r.0, q.0) && r.1 == q.1
  }

  lemma MakeFragmentAlike(l: Link, m: Link, data: seq<byte>, head: byte)
    requires Alike(l, m)
    ensures AlikeStep(MakeFragment(l, data, head), MakeFragment(m, data, head))
  {
    hide EncodeFrame, NonPongs;
    AppendSent(l.sent, WsFrame(head, data));
    AppendSent(m.sent, WsFrame(head, data));
  }

  lemma MakeCloseAlike(l: Link, m: Link, code: uint16, reason: Reason)
    requires Alike(l, m)
    ensures AlikeStep(MakeClose(l, code, reason), MakeClose(m, code, reason))
  {
    hide ClosePayload, MakeFragment, NonPongs;
    MakeFragmentAlike(l, m, ClosePayload(code, reason), HEAD_CLOSE);
  }

  lemma CallAlike(l: Link, m: Link, call: ApiCall)
    requires Alike(l, m)
    ensures AlikeStep(Call(l, call), Call(m, call))
  {
    hide MakeFragment, MakeClose, NonPongs;
    var l0, m0 := l.(continuous := false), m.(continuous := false);
    var l1, m1 := l.(continuous := true), m.(continuous := true);
    match call
    case Ping => MakeFragmentAlike(l, m, [], HEAD_PING);
    case Pong(data) => MakeFragmentAlike(l, m, data, HEAD_PONG);
    case Close => MakeCloseAlike(l, m, CLOSE_NORMAL, []);
    case CloseWithReason(code, reason) => MakeCloseAlike(l, m, code, reason);
    case Text(data) => MakeFragmentAlike(l, m, data, 0x81);
    case Binary(data) => MakeFragmentAlike(l, m, data, 0x82);
    case InitText(data) => MakeFragmentAlike(l1, m1, data, 0x01);
    case InitBinary(data) => MakeFragmentAlike(l1, m1, data, 0x02);
    case Continue(data) => MakeFragmentAlike(l, m, data, 0x00);
    case End(data) => MakeFragmentAlike(l0, m0, data, 0x80);
  }

  lemma {:induction false} RunCallsAlike(l: Link, m: Link, calls: seq<ApiCall>)
    requires Alike(l, m)
    ensures Alike(RunCalls(l, calls), RunCalls(m, calls))
    decreases |calls|
  {
    hide Call, Alike;
    if calls != [] {
      CallAlike(l, m, calls[0]);
      RunCallsAlike(Call(l, calls[0]).0, Call(m, calls[0]).0, calls[1..]);
    }
  }

  lemma ErrorAlike(l: Link, m: Link, code: uint16)
    requires Alike(l, m)
    ensures AlikeStep(Error(l, code), Error(m, code))
  {
    hide MakeClose, NonPongs;
    MakeCloseAlike(l.(error := true, errors := l.errors + [code]), m.(error := true, errors := m.errors + [code]), code, []);
  }

  lemma FailAlike(l: Link, m: Link)
    requires Alike(l, m)
    ensures AlikeStep(Fail(l), Fail(m))
  {
    hide Error, NonPongs;
    ErrorAlike(l.(shouldClose := true), m.(shouldClose := true), CLOSE_PROTOCOL_ERROR);
  }

  lemma AnswerAlike(l: Link, m: Link)
    requires Alike(l, m)
    ensures AlikeStep(AnswerCloseFrame(l), AnswerCloseFrame(m))
  {
    hide MakeClose, NonPongs, CString;
    var l1, m1 := l.(receivedClose := true), m.(receivedClose := true);
    assert Core(l) == Core(m) && l.closeInfo == Core(l).closeInfo && m.closeInfo == Core(m).closeInfo;
    match l.closeInfo
    case Some(i) => MakeCloseAlike(l1, m1, i.code, CString(i.reason));
    case None => MakeCloseAlike(l1, m1, CLOSE_NORMAL, []);
  }

  lemma NotedAlike(l: Link, m: Link, payload: seq<byte>)
    requires Alike(l, m) && |payload| <= 125
    ensures Alike(Noted(l, payload), Noted(m, payload)) && Noted(l, payload).closeInfo == Noted(m, payload).closeInfo
  {
    hide NonPongs, PopulateCloseInfo;
    assert Core(l).closeInfo == Core(m).closeInfo;
  }

  lemma JudgeCloseAlike(l: Link, m: Link)
    requires Alike(l, m) && l.closeInfo == m.closeInfo
    ensures AlikeStep(JudgeClose(l), JudgeClose(m))
  {
    hide Error, Fail, AnswerCloseFrame, Judge, Alike;
    ErrorAlike(l, m, CLOSE_PROTOCOL_ERROR);
    FailAlike(l, m);
    AnswerAlike(l, m);
  }

  lemma OnCloseFrameAlike(l: Link, m: Link, payload: seq<byte>)
    requires Alike(l, m) && |payload| <= 125
    ensures AlikeStep(OnCloseFrame(l, payload), OnCloseFrame(m, payload))
  {
    hide Fail, JudgeClose, Noted, Alike;
    FailAlike(l, m);
    NotedAlike(l, m, payload);
    JudgeCloseAlike(Noted(l, payload), Noted(m, payload));
  }

  lemma OnControlAlike(l: Link, m: Link, f: WsFrame)
    requires Alike(l, m)
    ensures AlikeStep(OnControl(l, f), OnControl(m, f))
  {
    hide Error, OnCloseFrame, MakeFragment, NonPongs;
    var l1, m1 := l.(controls := l.controls + [f]), m.(controls := m.controls + [f]);
    ErrorAlike(l1, m1, CLOSE_PROTOCOL_ERROR);
    if |f.payload| <= 125 {
      OnCloseFrameAlike(l1, m1, f.payload);
      MakeFragmentAlike(l1, m1, f.payload, HEAD_PONG);
    }
  }

  lemma DeliverAlike(app: App, l: Link, m: Link, msg: Message)
    requires Alike(l, m)
    ensures AlikeStep(Deliver(app, l, msg), Deliver(app, m, msg))
  {
    hide RunCalls, NonPongs;
    var l1, m1 := l.(delivered := l.delivered + [msg]), m.(delivered := m.delivered + [msg]);
    assert l1.delivered == m1.delivered;
    RunCallsAlike(l1, m1, app(l1.delivered).calls);
  }

  predicate SameSession(s: Session, t: Session)
  {
    s.pending == t.pending && Alike(s.link, t.link)
  }

  lemma AcceptAlike(app: App, s: Session, t: Session, f: WsFrame)
    requires SameSession(s, t)
    ensures SameSession(Accept(app, s, f).0, Accept(app, t, f).0) && Accept(app, s, f).1 == Accept(app, t, f).1
  {
    hide Error, Fail, OnControl, Deliver, NonPongs, TextOk;
    FailAlike(s.link, t.link);
    OnControlAlike(s.link, t.link, f);
    ErrorAlike(s.link, t.link, CLOSE_WRONG_TYPE);
    DeliverAlike(app, s.link, t.link, Extended(s, f));
  }

  // ---- Taking pings and pongs out ----

  /** A ping or pong that is legal anywhere. */
  predicate Droppable(f: WsFrame)
  {
    (f.head == HEAD_PING || f.head == HEAD_PONG) && |f.payload| <= 125
  }

  function Drop(fs: seq<WsFrame>): seq<WsFrame>
  {
    if fs == [] then []
    else
      var last := fs[|fs| - 1];
      Drop(fs[..|fs| - 1]) + (if Droppable(last) then [] else [last])
  }

  /** A ping or pong, even inside a fragmented message, changes nothing but the pongs sent. */
  lemma PingKeepsSession(app: App, s: Session, f: WsFrame)
    requires Droppable(f) && !s.link.Ended()
    ensures SameSession(Accept(app, s, f).0, s)
  {
    hide EncodeFrame, NonPongs;
    AppendSent(s.link.sent, WsFrame(HEAD_PONG, f.payload));
    assert NonPongs(s.link.sent) + [] == NonPongs(s.link.sent);
  }

  /** Control frames are transparent: a run with its pings and pongs taken out delivers the same messages,
      fails or closes alike, has the same message under way and sends the same frames except for pongs. */
  lemma {:induction false} PingsTransparent(app: App, s: Session, fs: seq<WsFrame>)
    ensures SameSession(AcceptAll(app, s, fs), AcceptAll(app, s, Drop(fs)))
    ensures AcceptAll(app, s, fs).link.delivered == AcceptAll(app, s, Drop(fs)).link.delivered
    decreases |fs|
  {
    hide Accept, NonPongs;
    if fs != [] {
      var n := |fs| - 1;
      var a, b := AcceptAll(app, s, fs[..n]), AcceptAll(app, s, Drop(fs[..n]));
      PingsTransparent(app, s, fs[..n]);
      if Droppable(fs[n]) {
        assert Drop(fs[..n]) + [] == Drop(fs[..n]);
        if !a.link.Ended() { PingKeepsSession(app, a, fs[n]); }
      } else {
        AcceptOne(app, s, Drop(fs[..n]), fs[n]);
        AcceptAlike(app, a, b, fs[n]);
      }
    }
  }

  /** So inserting pings and pongs at frame boundaries, however many and wherever, changes no delivery. */
  lemma PingsInsertable(app: App, s: Session, fs: seq<WsFrame>, gs: seq<WsFrame>)
    requires Drop(fs) == Drop(gs)
    ensures AcceptAll(app, s, fs).link.delivered == AcceptAll(app, s, gs).link.delivered
    ensures NonPongs(AcceptAll(app, s, fs).link.sent) == NonPongs(AcceptAll(app, s, gs).link.sent)
  {
    hide AcceptAll, NonPongs, Drop;
    PingsTransparent(app, s, fs);
    PingsTransparent(app, s, gs);
  }

  /** The same on the wire, whatever the keys and the chunks. */
  lemma PingsInsertableInStreams(app: App, c: Machine.Conn, fs: seq<WsFrame>, ms: seq<Masking>, chunks: seq<seq<byte>>,
                                 gs: seq<WsFrame>, ns: seq<Masking>, chunks': seq<seq<byte>>)
    requires Machine.Ok(c) && c.Partial() == [] && Drop(fs) == Drop(gs)
    requires |fs| == |ms| && Keyed(ms) && Encodable(fs) && SmoothAll(app, View(c), fs)
    requires |gs| == |ns| && Keyed(ns) && Encodable(gs) && SmoothAll(app, View(c), gs)
    requires Flatten(chunks) == ClientStream(fs, ms) && Flatten(chunks') == ClientStream(gs, ns)
    ensures RecvAll(app, c, chunks).link.delivered == RecvAll(app, c, chunks').link.delivered
    ensures NonPongs(RecvAll(app, c, chunks).link.sent) == NonPongs(RecvAll(app, c, chunks').link.sent)
  {
    hide AcceptAll, NonPongs, Drop, SmoothAll, RecvAll, ClientStream, Decode, Smooth, Flatten, Encodable;
    PingsInsertable(app, View(c), fs, gs);
    StreamRuns(app, c, fs, ms, chunks);
    StreamRuns(app, c, gs, ns, chunks');
  }

  // ---- One pong for each ping ----

  ghost predicate NoPongs(app: App)
  {
    forall ms, i | 0 <= i < |app(ms).calls| :: !app(ms).calls[i].Pong?
  }

  /** Nothing but a pong answering `f`, if it is a ping, was added to the pongs sent. */
  predicate Answered(l: Link, l1: Link, f: WsFrame)
  {
    PayloadsOf(l1.sent, HEAD_PONG) == PayloadsOf(l.sent, HEAD_PONG) + (if f.head == HEAD_PING then [f.payload] else [])
  }

  lemma NotPongSent(l: Link, data: seq<byte>, head: byte)
    requires head != HEAD_PONG
    ensures PayloadsOf(MakeFragment(l, data, head).0.sent, HEAD_PONG) == PayloadsOf(l.sent, HEAD_PONG)
  {
    hide EncodeFrame, PayloadsOf;
    AppendSent(l.sent, WsFrame(head, data));
    assert PayloadsOf(l.sent, HEAD_PONG) + [] == PayloadsOf(l.sent, HEAD_PONG);
  }

  lemma {:induction false} CallsMakeNoPong(l: Link, calls: seq<ApiCall>)
    requires forall i | 0 <= i < |calls| :: !calls[i].Pong?
    ensures PayloadsOf(RunCalls(l, calls).sent, HEAD_PONG) == PayloadsOf(l.sent, HEAD_PONG)
    ensures l.sentClose ==> RunCalls(l, calls).sentClose
    decreases |calls|
  {
    hide Call, PayloadsOf;
    if calls != [] {
      CallMakesNoPong(l, calls[0]);
      CallsMakeNoPong(Call(l, calls[0]).0, calls[1..]);
    }
  }

  lemma CallMakesNoPong(l: Link, call: ApiCall)
    requires !call.Pong?
    ensures PayloadsOf(Call(l, call).0.sent, HEAD_PONG) == PayloadsOf(l.sent, HEAD_PONG)
    ensures l.sentClose ==> Call(l, call).0.sentClose
  {
    hide PayloadsOf, EncodeFrame, ClosePayload;
    forall k: Link, data, head | k.sent == l.sent && head != HEAD_PONG
      ensures PayloadsOf(MakeFragment(k, data, head).0.sent, HEAD_PONG) == PayloadsOf(l.sent, HEAD_PONG)
    {
      NotPongSent(k, data, head);
    }
  }

  /** Until a close is sent or the process ends, a frame adds a pong exactly when it is a ping. */
  lemma FrameAnswered(app: App, s: Session, f: WsFrame)
    requires NoPongs(app) && s.link.connected && !s.link.Ended() && !s.link.sentClose
    requires !Accept(app, s, f).0.link.sentClose && !Accept(app, s, f).0.link.crashed
    ensures Answered(s.link, Accept(app, s, f).0.link, f) && !Accept(app, s, f).0.link.Ended()
    ensures Accept(app, s, f).0.link.connected
  {
    hide PayloadsOf, EncodeFrame, TextOk, OnCloseFrame;
    var l := s.link;
    assert PayloadsOf(l.sent, HEAD_PONG) + [] == PayloadsOf(l.sent, HEAD_PONG);
    if Opcode(f.head) == OP_CLOSE { ClosesSend(l, f); }
    if LegalHead(s.pending.Some?, f.head) && !IsControl(f.head) && Fin(f.head) {
      var m := Extended(s, f);
      var l1 := l.(delivered := l.delivered + [m]);
      CallsMakeNoPong(l1, app(l1.delivered).calls);
    }
    AppendSent(l.sent, WsFrame(HEAD_PONG, f.payload));
  }

  /** A close is answered or fails; either way a close is sent. */
  lemma ClosesSend(l: Link, f: WsFrame)
    requires l.connected && !l.Ended() && !l.sentClose && Opcode(f.head) == OP_CLOSE
    ensures OnControl(l, f).0.sentClose
  {
    hide EncodeFrame, ClosePayload, Judge;
  }

  /** An open client stays as it was: before a frame that leaves no close sent, none was sent. */
  lemma CloseStays(app: App, s: Session, f: WsFrame)
    requires s.link.sentClose && NoPongs(app)
    ensures Accept(app, s, f).0.link.sentClose
  {
    hide EncodeFrame, ClosePayload, Judge, TextOk, RunCalls;
    var l1 := s.link.(delivered := s.link.delivered + [Extended(s, f)]);
    CallsMakeNoPong(l1, app(l1.delivered).calls);
  }

  /** In a run that has sent no close and met no null table entry, the pongs sent are exactly the payloads of the pings received, one for
      one and in order. */
  lemma {:induction false} OnePongPerPing(app: App, s: Session, fs: seq<WsFrame>)
    requires NoPongs(app) && s.link.connected && !s.link.Ended()
    requires !AcceptAll(app, s, fs).link.sentClose && !AcceptAll(app, s, fs).link.crashed
    ensures var s1 := AcceptAll(app, s, fs);
            !s1.link.Ended() && s1.link.connected
            && PayloadsOf(s1.link.sent, HEAD_PONG) == PayloadsOf(s.link.sent, HEAD_PONG) + PayloadsOf(fs, HEAD_PING)
    decreases |fs|
  {
    hide Accept;
    if fs == [] {
      assert PayloadsOf(s.link.sent, HEAD_PONG) + [] == PayloadsOf(s.link.sent, HEAD_PONG);
    } else {
      var n := |fs| - 1;
      var s1 := AcceptAll(app, s, fs[..n]);
      if s1.link.sentClose && !s1.link.Ended() { CloseStays(app, s1, fs[n]); }
      OnePongPerPing(app, s, fs[..n]);
      FrameAnswered(app, s1, fs[n]);
    }
  }
}
