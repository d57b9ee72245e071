// How many close frames a run makes, whatever the application calls.

module Closes {
  import opened Bytes
  import opened Wire
  import opened Protocol
  import opened Session
  import opened Runs
  import Grammar
  import Machine
  import Safety

  /** The close frames among those made. */
  function CloseCount(fs: seq<WsFrame>): nat
  {
    if fs == [] then 0
    else CloseCount(fs[..|fs| - 1]) + (if fs[|fs| - 1].head == HEAD_CLOSE then 1 else 0)
  }

  lemma CountAppend(fs: seq<WsFrame>, f: WsFrame)
    ensures CloseCount(fs + [f]) == CloseCount(fs) + (if f.head == HEAD_CLOSE then 1 else 0)
  {
    assert (fs + [f])[..|fs|] == fs;
  }

  lemma {:induction false} CountGrows(a: seq<WsFrame>, b: seq<WsFrame>)
    requires a <= b
    ensures CloseCount(a) <= CloseCount(b)
    decreases |b|
  {
    if a != b {
      assert a <= b[..|b| - 1];
      CountGrows(a, b[..|b| - 1]);
    }
  }

  // ---- Calls ----

  predicate IsClosing(call: ApiCall) { call.Close? || call.CloseWithReason? }

  function Closings(calls: seq<ApiCall>): nat
  {
    if calls == [] then 0 else (if IsClosing(calls[0]) then 1 else 0) + Closings(calls[1..])
  }

  lemma FragmentCount(l: Link, data: seq<byte>, head: byte)
    ensures var l1 := MakeFragment(l, data, head).0;
            && l.sent <= l1.sent && l1.sentClose == l.sentClose
            && (head != HEAD_CLOSE ==> CloseCount(l1.sent) == CloseCount(l.sent))
            && (head == HEAD_CLOSE && |data| <= 125 && l.connected ==>
                  CloseCount(l1.sent) == CloseCount(l.sent) + (if l.sentClose && l.receivedClose then 0 else 1))
  {
    hide EncodeFrame, CloseCount;
    CountAppend(l.sent, WsFrame(head, data));
  }

  lemma MakeCloseCount(l: Link, code: uint16, reason: Reason)
    ensures var l1 := MakeClose(l, code, reason).0;
            && l.sent <= l1.sent
            && (l.connected ==>
                  CloseCount(l1.sent) == CloseCount(l.sent) + (if l.sentClose && l.receivedClose then 0 else 1))
  {
    hide MakeFragment, CloseCount, Be16;
    FragmentCount(l, ClosePayload(code, reason), HEAD_CLOSE);
  }

  /** A call to close makes a close frame exactly unless one was sent and one received; no other call makes one. */
  lemma CallClosesIff(l: Link, call: ApiCall)
    ensures var l1 := Call(l, call).0;
            && l.sent <= l1.sent && (l1.sentClose <==> l.sentClose || IsClosing(call))
            && (l.connected ==>
                  CloseCount(l1.sent) ==
                    CloseCount(l.sent) + (if IsClosing(call) && !(l.sentClose && l.receivedClose) then 1 else 0))
  {
    hide MakeFragment, MakeClose, CloseCount;
    var plain, going := l.(continuous := false), l.(continuous := true);
    match call
    case Ping => FragmentCount(l, [], 0x89);
    case Pong(data) => FragmentCount(l, data, 0x8A);
    case Close => MakeCloseCount(l, CLOSE_NORMAL, []);
    case CloseWithReason(code, reason) => MakeCloseCount(l, code, reason);
    case Text(data) => FragmentCount(l, data, 0x81);
    case Binary(data) => FragmentCount(l, data, 0x82);
    case InitText(data) => FragmentCount(going, data, 0x01);
    case InitBinary(data) => FragmentCount(going, data, 0x02);
    case Continue(data) => FragmentCount(l, data, 0x00);
    case End(data) => FragmentCount(plain, data, 0x80);
  }

  lemma {:induction false} RunCallsCount(l: Link, calls: seq<ApiCall>)
    ensures var l1 := RunCalls(l, calls);
            && l.sent <= l1.sent && (l1.sentClose <==> l.sentClose || Closings(calls) > 0)
            && (l.connected && !l.receivedClose ==> CloseCount(l1.sent) == CloseCount(l.sent) + Closings(calls))
    decreases |calls|
  {
    hide Call, CloseCount, IsClosing;
    if calls != [] {
      CallClosesIff(l, calls[0]);
      RunCallsCount(Call(l, calls[0]).0, calls[1..]);
    }
  }

  // ---- Frames before any close ----

  /** The frame completes a message that is handed to the application. */
  ghost predicate Delivers(s: Session, f: WsFrame)
  {
    && LegalHead(s.pending.Some?, f.head) && !IsControl(f.head) && Fin(f.head) && !s.link.sentClose
    && (Extended(s, f).opcode == OP_TEXT ==> TextOk(Extended(s, f).payload))
  }

  /** How often the reply to that message closes. */
  ghost function ReplyClosings(app: App, s: Session, f: WsFrame): nat
  {
    if Delivers(s, f) then Closings(app(s.link.delivered + [Extended(s, f)]).calls) else 0
  }

  /** No close was sent or received. */
  predicate BeforeClose(l: Link)
  {
    l.connected && !l.Ended() && !l.sentClose && !l.receivedClose
  }

  /** A frame or control callback that makes `n` closes; a close made otherwise than by the application ends the
      exchange. */
  ghost predicate Makes(l: Link, l1: Link, n: nat, byApp: bool)
  {
    && l1.connected && CloseCount(l1.sent) == CloseCount(l.sent) + n
    && (l1.sentClose <==> n > 0)
    && (l1.receivedClose ==> l1.sentClose)
    && (byApp ==> !l1.receivedClose && !l1.Ended())
    && (!byApp ==> n <= 1 && (n == 1 ==> l1.receivedClose || l1.Ended()))
  }

  lemma ErrorMakes(l: Link, code: uint16)
    requires BeforeClose(l)
    ensures Makes(l, Error(l, code).0, 1, false) && Makes(l, Fail(l).0, 1, false) && l.sent <= Error(l, code).0.sent
  {
    hide MakeClose, CloseCount;
    MakeCloseCount(l.(error := true, errors := l.errors + [code]), code, []);
    var m := l.(shouldClose := true);
    MakeCloseCount(m.(error := true, errors := m.errors + [CLOSE_PROTOCOL_ERROR]), CLOSE_PROTOCOL_ERROR, []);
  }

  lemma AnswerMakes(l: Link)
    requires BeforeClose(l)
    ensures Makes(l, AnswerCloseFrame(l).0, 1, false)
  {
    hide MakeClose, CloseCount, CString;
    var l1 := l.(receivedClose := true);
    match l.closeInfo
    case Some(info) => MakeCloseCount(l1, info.code, CString(info.reason));
    case None => MakeCloseCount(l1, CLOSE_NORMAL, []);
  }

  lemma CloseFrameMakes(l: Link, payload: seq<byte>)
    requires BeforeClose(l) && |payload| <= 125
    ensures Makes(l, OnCloseFrame(l, payload).0, 1, false)
  {
    hide Error, Fail, AnswerCloseFrame, Judge, PopulateCloseInfo, CloseCount;
    ErrorMakes(l, CLOSE_PROTOCOL_ERROR);
    var l1 := Noted(l, payload);
    ErrorMakes(l1, CLOSE_PROTOCOL_ERROR);
    AnswerMakes(l1);
  }

  lemma ControlMakes(l: Link, f: WsFrame)
    requires BeforeClose(l) && IsControl(f.head)
    ensures var l1 := OnControl(l, f).0;
            Makes(l, l1, if l1.sentClose then 1 else 0, false)
  {
    hide Error, OnCloseFrame, MakeFragment, CloseCount;
    var l1 := l.(controls := l.controls + [f]);
    ErrorMakes(l1, CLOSE_PROTOCOL_ERROR);
    FragmentCount(l1, f.payload, 0x8A);
    if |f.payload| <= 125 { CloseFrameMakes(l1, f.payload); }
  }

  lemma DeliverMakes(app: App, l: Link, m: Message)
    requires BeforeClose(l)
    ensures Makes(l, Deliver(app, l, m).0, Closings(app(l.delivered + [m]).calls), true)
  {
    hide RunCalls, CloseCount;
    var l1 := l.(delivered := l.delivered + [m]);
    RunCallsCount(l1, app(l1.delivered).calls);
  }

  /** Before any close, a frame whose message is delivered makes as many closes as the reply to it calls for, and any
      other frame at most one. */
  lemma FrameMakes(app: App, s: Session, f: WsFrame)
    requires BeforeClose(s.link)
    ensures var l1 := Accept(app, s, f).0.link;
            if Delivers(s, f) then Makes(s.link, l1, ReplyClosings(app, s, f), true)
            else Makes(s.link, l1, if l1.sentClose then 1 else 0, false)
  {
    hide Error, Fail, OnControl, Deliver, TextOk, CloseCount;
    ErrorMakes(s.link, CLOSE_WRONG_TYPE);
    DeliverMakes(app, s.link, Extended(s, f));
    if IsControl(f.head) { ControlMakes(s.link, f); }
  }

  // ---- What was sent stays sent ----

  lemma ErrorGrows(l: Link, code: uint16)
    ensures l.sent <= Error(l, code).0.sent && l.sent <= Fail(l).0.sent
  {
    hide MakeClose, CloseCount;
    MakeCloseCount(l.(error := true, errors := l.errors + [code]), code, []);
    var m := l.(shouldClose := true);
    MakeCloseCount(m.(error := true, errors := m.errors + [CLOSE_PROTOCOL_ERROR]), CLOSE_PROTOCOL_ERROR, []);
  }

  lemma AnswerGrows(l: Link)
    ensures l.sent <= AnswerCloseFrame(l).0.sent
  {
    hide MakeClose, CloseCount, CString;
    var l1 := l.(receivedClose := true);
    match l.closeInfo
    case Some(info) => MakeCloseCount(l1, info.code, CString(info.reason));
    case None => MakeCloseCount(l1, CLOSE_NORMAL, []);
  }

  lemma ControlGrows(l: Link, f: WsFrame)
    ensures l.sent <= OnControl(l, f).0.sent
  {
    hide Error, Fail, AnswerCloseFrame, MakeFragment, Judge, PopulateCloseInfo, CloseCount;
    var l1 := l.(controls := l.controls + [f]);
    ErrorGrows(l1, CLOSE_PROTOCOL_ERROR);
    FragmentCount(l1, f.payload, 0x8A);
    if |f.payload| <= 125 {
      var l2 := Noted(l1, f.payload);
      ErrorGrows(l2, CLOSE_PROTOCOL_ERROR);
      AnswerGrows(l2);
    }
  }

  lemma AcceptGrows(app: App, s: Session, f: WsFrame)
    ensures s.link.sent <= Accept(app, s, f).0.link.sent
  {
    hide Error, Fail, OnControl, RunCalls, TextOk, CloseCount;
    ErrorGrows(s.link, CLOSE_WRONG_TYPE);
    ControlGrows(s.link, f);
    var l1 := s.link.(delivered := s.link.delivered + [Extended(s, f)]);
    RunCallsCount(l1, app(l1.delivered).calls);
  }

  // ---- Whole runs ----

  /** At most one close was made, and what the bits say of it. */
  predicate OneClose(l: Link)
  {
    l.connected && if l.sentClose then CloseCount(l.sent) == 1 else CloseCount(l.sent) == 0 && !l.receivedClose
  }

  /** Nothing here makes a second close: the reply to a message closes at most once; or a close was sent, and then the
      peer's was received or the frame does not fail. */
  ghost predicate SingleAt(app: App, s: Session, f: WsFrame)
  {
    if s.link.sentClose then s.link.receivedClose || !Safety.Fails(s, f) else ReplyClosings(app, s, f) <= 1
  }

  lemma FrameKeepsOne(app: App, s: Session, f: WsFrame)
    requires OneClose(s.link) && !s.link.Ended()
    ensures if SingleAt(app, s, f) then OneClose(Accept(app, s, f).0.link)
            else CloseCount(Accept(app, s, f).0.link.sent) >= 2
  {
    hide Accept, Safety.Fails, Delivers, Be16;
    if s.link.sentClose {
      Safety.SecondCloseIff(app, s, f);
      CountAppend(s.link.sent, WsFrame(HEAD_CLOSE, Be16(CLOSE_PROTOCOL_ERROR)));
    } else {
      FrameMakes(app, s, f);
    }
  }

  /** At most one close is made by a whole run, whatever the application calls, if and only if at every frame it gets
      as far as nothing makes a second one. */
  lemma {:induction false} OneCloseIff(app: App, s: Session, fs: seq<WsFrame>)
    requires OneClose(s.link)
    ensures CloseCount(AcceptAll(app, s, fs).link.sent) <= 1 <==>
              forall k | Grammar.ReachedAt(app, s, fs, k) :: SingleAt(app, AcceptAll(app, s, fs[..k]), fs[k])
    ensures CloseCount(AcceptAll(app, s, fs).link.sent) <= 1 ==> OneClose(AcceptAll(app, s, fs).link)
    decreases |fs|
  {
    hide Accept, SingleAt, CloseCount;
    if fs != [] {
      var n := |fs| - 1;
      var a := fs[..n];
      var s1 := AcceptAll(app, s, a);
      OneCloseIff(app, s, a);
      forall k: nat | k < n
        ensures Grammar.ReachedAt(app, s, fs, k) == Grammar.ReachedAt(app, s, a, k) && fs[..k] == a[..k] && fs[k] == a[k]
      {
        assert fs[..k] == a[..k];
      }
      if !s1.link.Ended() {
        assert Grammar.ReachedAt(app, s, fs, n);
        if CloseCount(s1.link.sent) <= 1 {
          FrameKeepsOne(app, s1, fs[n]);
        } else {
          AcceptGrows(app, s1, fs[n]);
          CountGrows(s1.link.sent, Accept(app, s1, fs[n]).0.link.sent);
        }
      }
    }
  }

  /** The same for bytes in any chunks. */
  lemma ChunksOneCloseIff(app: App, c: Machine.Conn, chunks: seq<seq<byte>>)
    requires Machine.Ok(c) && c.Partial() == [] && Smooth(app, View(c), Flatten(chunks)) && OneClose(c.link)
    ensures var fs, s := FramesOf(Flatten(chunks)), View(c);
            CloseCount(RecvAll(app, c, chunks).link.sent) <= 1 <==>
              forall k | Grammar.ReachedAt(app, s, fs, k) :: SingleAt(app, AcceptAll(app, s, fs[..k]), fs[k])
  {
    assert View(c).link == c.link;
    hide SingleAt, CloseCount, Smooth, RecvAll, AcceptAll, FramesOf, OneClose;
    Grammar.ChunksRun(app, c, chunks);
    OneCloseIff(app, View(c), FramesOf(Flatten(chunks)));
  }

  // ---- An application that closes twice by itself ----

  const TWICE: App := ms => Reply([Close, Close], 0)

  /** One empty message, and a reply that closes twice: two closes are made, though no frame fails. */
  lemma RepliesTwice(s: Session)
    requires BeforeClose(s.link) && s.pending.None? && CloseCount(s.link.sent) == 0
    ensures CloseCount(Accept(TWICE, s, WsFrame(0x82, [])).0.link.sent) == 2
    ensures !Accept(TWICE, s, WsFrame(0x82, [])).0.link.error
  {
    var f := WsFrame(0x82, []);
    assert Delivers(s, f) by { EmptyDelivers(s, f); }
    assert Closings([Close, Close]) == 2 by { assert [Close, Close][1..] == [Close] && [Close][1..] == []; }
    hide Accept, Delivers, CloseCount, Closings;
    FrameMakes(TWICE, s, f);
  }

  lemma EmptyDelivers(s: Session, f: WsFrame)
    requires f == WsFrame(0x82, []) && s.pending.None? && !s.link.sentClose
    ensures Delivers(s, f)
  {
  }
}
