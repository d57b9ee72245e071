// Everything about a client except the parsing of its input: the flag bits,
// the output buffer, the frame builders of src/api.c, the default callbacks,
// and a record of what was delivered and sent.

module Protocol {
  import opened Bytes
  import opened Wire
  import Utf8

  const CLOSE_NORMAL: uint16 := 1000
  const CLOSE_PROTOCOL_ERROR: uint16 := 1002
  const CLOSE_RESERVED: uint16 := 1004
  const CLOSE_NO_CODE: uint16 := 1005
  const CLOSE_DIRTY: uint16 := 1006
  const CLOSE_WRONG_TYPE: uint16 := 1007

  type uint16 = n: int | 0 <= n < 0x1_0000

  /** A close reason handed over by a caller: a C string of at most 123 bytes. */
  type Reason = r: seq<byte> | |r| <= 123 && 0 !in r

  /** close_info->reason: 124 bytes, the last one NUL. */
  type ReasonBuffer = b: seq<byte> | |b| == 124 && b[123] == 0 witness seq(124, _ => 0)

  datatype CloseInfo = CloseInfo(code: uint16, reason: ReasonBuffer)

  datatype Message = Message(opcode: byte, payload: seq<byte>)

  /** `flags` bit by bit, `close_info` and `out_data`; `crashed`, which is no flag, says that a null pointer was
      called and nothing comes after; then the history: every frame ever made, how many of
      those were cleaned up, the bytes that stood in out_data before them, the messages given to onmessage,
      the frames given to oncontrol and the codes given to onerror. */
  datatype Link = Link(
    connected: bool,
    receivedClose: bool,
    sentClose: bool,
    error: bool,
    crashed: bool,
    shouldClose: bool,
    continuous: bool,
    closeInfo: Option<CloseInfo>,
    out: seq<byte>,
    sent: seq<WsFrame>,
    flushed: nat,
    prefix: seq<byte>,
    delivered: seq<Message>,
    controls: seq<WsFrame>,
    errors: seq<uint16>)
  {
    /** Nothing more is taken in: the error state, or the end of the process. */
    predicate Ended() { error || crashed }
  }

  /** A client just allocated. */
  const INITIAL: Link := Link(false, false, false, false, false, false, false, None, [], [], 0, [], [], [], [])

  /** The link when the handshake has been answered: only CONNECTED is set, and the response, if nothing
      stood in out_data before, is all that does. */
  function Handshaken(l: Link, response: seq<byte>): Link
  {
    l.(connected := true, receivedClose := false, sentClose := false, error := false, shouldClose := false,
       continuous := false, out := response, prefix := response, flushed := |l.sent|)
  }

  // ---- What the frame builders leave alone ----

  /** No builder touches the history of input, the error bit or the close info. */
  predicate SameInput(l: Link, l': Link)
  {
    && l'.connected == l.connected && l'.receivedClose == l.receivedClose && l'.error == l.error
    && l'.crashed == l.crashed
    && l'.shouldClose == l.shouldClose && l'.closeInfo == l.closeInfo
    && l'.delivered == l.delivered && l'.controls == l.controls && l'.errors == l.errors
    && l'.flushed == l.flushed && l'.prefix == l.prefix
  }

  // ---- src/websock.c: libwebsock_make_fragment ----

  function MakeFragment(l: Link, data: seq<byte>, head: byte): (r: (Link, int))
    ensures SameInput(l, r.0)
  {
    if l.sentClose && l.receivedClose then (l, -1)
    else if !l.connected then (l, -1)
    else if |data| > MAX_PAYLOAD then (l, -1)
    else
      var f := WsFrame(head, data);
      (l.(out := l.out + EncodeFrame(f), sent := l.sent + [f]), |EncodeFrame(f)|)
  }

  // ---- src/api.c ----

  const HEAD_CLOSE: byte := 0x88

  function ClosePayload(code: uint16, reason: Reason): seq<byte>
  {
    Be16(code) + reason
  }

  /** char buf[128] once snprintf has written at most 123 bytes of the reason behind the code. */
  function CloseBuffer(code: uint16, reason: seq<byte>): (buf: seq<byte>)
    ensures |buf| == 128
  {
    var kept := if |reason| <= 123 then reason else reason[..123];
    Be16(code) + kept + seq(126 - |kept|, _ => 0)
  }

  /** len: snprintf returns the length the reason would have had uncut. */
  function CloseLen(reason: seq<byte>): nat { 2 + |reason| }

  /** The frame carries the code and the whole reason exactly for reasons of at most 123 bytes; from 127 bytes
      on more is read than the buffer holds. */
  lemma CloseBufferIff(code: uint16, reason: seq<byte>)
    requires 0 !in reason
    ensures CloseLen(reason) <= |CloseBuffer(code, reason)| <==> |reason| <= 126
    ensures CloseLen(reason) <= 128 && CloseBuffer(code, reason)[..CloseLen(reason)] == Be16(code) + reason
       <==> |reason| <= 123
  {
    hide Be16;
    var buf := CloseBuffer(code, reason);
    if |reason| <= 123 {
      assert buf[..CloseLen(reason)] == Be16(code) + reason;
    } else if |reason| <= 126 {
      assert buf[..CloseLen(reason)][125] == 0 && (Be16(code) + reason)[125] == reason[123];
    }
  }

  function MakeClose(l: Link, code: uint16, reason: Reason): (r: (Link, int))
    ensures SameInput(l, r.0) && r.0.sentClose
  {
    var (l', r) := MakeFragment(l, ClosePayload(code, reason), HEAD_CLOSE);
    (l'.(sentClose := true), r)
  }

  /** The calls an application can make; a Text call names the C string it passes. */
  datatype ApiCall =
    | Ping
    | Pong(data: seq<byte>)
    | Close
    | CloseWithReason(code: uint16, reason: Reason)
    | Text(data: seq<byte>)
    | Binary(data: seq<byte>)
    | InitText(data: seq<byte>)
    | InitBinary(data: seq<byte>)
    | Continue(data: seq<byte>)
    | End(data: seq<byte>)

  function Call(l: Link, call: ApiCall): (r: (Link, int))
    ensures SameInput(l, r.0)
  {
    match call
    case Ping => MakeFragment(l, [], 0x89)
    case Pong(data) => MakeFragment(l, data, 0x8A)
    case Close => MakeClose(l, CLOSE_NORMAL, [])
    case CloseWithReason(code, reason) => MakeClose(l, code, reason)
    case Text(data) => if l.continuous then (l, -1) else MakeFragment(l, data, 0x81)
    case Binary(data) => if l.continuous then (l, -1) else MakeFragment(l, data, 0x82)
    case InitText(data) => MakeFragment(l.(continuous := true), data, 0x01)
    case InitBinary(data) => MakeFragment(l.(continuous := true), data, 0x02)
    case Continue(data) => MakeFragment(l, data, 0x00)
    case End(data) => MakeFragment(l.(continuous := false), data, 0x80)
  }

  function RunCalls(l: Link, calls: seq<ApiCall>): (l': Link)
    ensures SameInput(l, l')
    decreases |calls|
  {
    if calls == [] then l else RunCalls(Call(l, calls[0]).0, calls[1..])
  }

  // ---- The application's onmessage ----

  /** What onmessage does: some calls, then a return value. */
  datatype Reply = Reply(calls: seq<ApiCall>, ret: int)

  /** An application reacts to the messages it has been given so far. */
  type App = seq<Message> -> Reply

  function Deliver(app: App, l: Link, m: Message): (Link, int)
  {
    var l1 := l.(delivered := l.delivered + [m]);
    var reply := app(l1.delivered);
    (RunCalls(l1, reply.calls), reply.ret)
  }

  // ---- src/websock.c: libwebsock_error, with the default onerror ----

  function Error(l: Link, code: uint16): (r: (Link, int))
    ensures r.0.error && r.0.crashed == l.crashed
  {
    MakeClose(l.(error := true, errors := l.errors + [code]), code, [])
  }

  // ---- src/frames.c: libwebsock_fail_and_cleanup ----

  function Fail(l: Link): (r: (Link, int))
    ensures r.0.error && r.0.crashed == l.crashed
  {
    Error(l.(shouldClose := true), CLOSE_PROTOCOL_ERROR)
  }

  // ---- src/default_callbacks.c ----

  /** libwebsock_populate_close_info_from_frame. */
  function PopulateCloseInfo(payload: seq<byte>): Option<CloseInfo>
    requires |payload| <= 125
  {
    if |payload| < 2 then None
    else
      Some(CloseInfo(FromBe16(payload[0], payload[1]), payload[2..] + seq(126 - |payload|, _ => 0)))
  }

  predicate BadCloseCode(code: int)
  {
    code < 1000 || code == CLOSE_RESERVED || code == CLOSE_NO_CODE || code == CLOSE_DIRTY || 1011 < code < 3000
  }

  function CString(b: ReasonBuffer): (r: Reason)
  {
    assert b[123] == 0;
    var r := UpToNul(b);
    assert |r| == 124 ==> r == b;
    r
  }

  function OnClose(l: Link): (r: (Link, int))
    ensures r.0.crashed == l.crashed
  {
    match l.closeInfo
    case Some(info) => MakeClose(l, info.code, CString(info.reason))
    case None => MakeClose(l, CLOSE_NORMAL, [])
  }

  datatype CloseVerdict = Fine | BadCode | BadReason

  /** The tests made on close_info. */
  ghost function Judge(info: Option<CloseInfo>): CloseVerdict
  {
    if info.None? then Fine
    else if BadCloseCode(info.value.code) then BadCode
    else if !Utf8.WellFormed(CString(info.value.reason)) then BadReason
    else Fine
  }

  /** A first close is answered; any other one ends the exchange. */
  function AnswerCloseFrame(l: Link): (r: (Link, int))
    ensures r.0.crashed == l.crashed
  {
    if !l.sentClose then OnClose(l.(receivedClose := true)) else (l, -1)
  }

  /** The close case once close_info is noted. */
  ghost function JudgeClose(l: Link): (r: (Link, int))
    ensures r.0.crashed == l.crashed
  {
    match Judge(l.closeInfo)
    case BadCode => Error(l, CLOSE_PROTOCOL_ERROR)
    case BadReason => Fail(l)
    case Fine => AnswerCloseFrame(l)
  }

  /** close_info is filled once. */
  function Noted(l: Link, payload: seq<byte>): Link
    requires |payload| <= 125
  {
    if l.closeInfo.None? then l.(closeInfo := PopulateCloseInfo(payload)) else l
  }

  ghost function OnCloseFrame(l: Link, payload: seq<byte>): (r: (Link, int))
    requires |payload| <= 125
    ensures r.0.crashed == l.crashed
  {
    if |payload| == 1 then Fail(l)
    else JudgeClose(Noted(l, payload))
  }

  ghost function SwitchControl(l: Link, opcode: byte, payload: seq<byte>): (r: (Link, int))
    requires |payload| <= 125
    ensures r.0.crashed == l.crashed
  {
    if opcode == OP_CLOSE then OnCloseFrame(l, payload)
    else if opcode == OP_PING then MakeFragment(l, payload, 0x8A)
    else if opcode == OP_PONG then (l, 0)
    else Error(l, CLOSE_PROTOCOL_ERROR)
  }

  /** The default control callback on an unmasked control frame. */
  ghost function OnControl(l: Link, f: WsFrame): (r: (Link, int))
    ensures r.0.crashed == l.crashed
  {
    var l1 := l.(controls := l.controls + [f]);
    if l.sentClose && Opcode(f.head) != OP_CLOSE then (l1, 0)
    else if |f.payload| > 125 then Error(l1, CLOSE_PROTOCOL_ERROR)
    else SwitchControl(l1, Opcode(f.head), f.payload)
  }

  /** Text is judged on the C string it forms. */
  ghost predicate TextOk(payload: seq<byte>)
  {
    Utf8.WellFormed(UpToNul(payload))
  }

  // ---- The output buffer over time ----

  /** out_data is what stood there before, then one encoded frame per successful call since the last cleanup. */
  ghost predicate OutConsistent(l: Link)
  {
    && l.flushed <= |l.sent|
    && Encodable(l.sent)
    && l.out == l.prefix + EncodeAll(l.sent[l.flushed..])
  }

  /** libwebsock_cleanup_outdata. */
  function CleanupOut(l: Link): Link
  {
    l.(out := [], prefix := [], flushed := |l.sent|)
  }

  lemma MakeFragmentKeepsOut(l: Link, data: seq<byte>, head: byte)
    requires OutConsistent(l)
    ensures var (l', r) := MakeFragment(l, data, head);
            && OutConsistent(l') && l.out <= l'.out && l.sent <= l'.sent && l'.flushed == l.flushed
            && (if r == -1 then l' == l
                else && l'.sent == l.sent + [WsFrame(head, data)] && r == |l'.out| - |l.out|
                     && l'.out == l.out + EncodeFrame(WsFrame(head, data)))
  {
    hide EncodeFrame, EncodeAll;
    if |data| <= MAX_PAYLOAD {
      OneMore(l.prefix, l.sent, l.flushed, WsFrame(head, data));
    }
  }

  lemma OneMore(prefix: seq<byte>, sent: seq<WsFrame>, n: nat, f: WsFrame)
    requires Encodable(sent) && n <= |sent| && |f.payload| <= MAX_PAYLOAD
    ensures Encodable(sent + [f])
    ensures prefix + EncodeAll((sent + [f])[n..]) == prefix + EncodeAll(sent[n..]) + EncodeFrame(f)
  {
    hide EncodeFrame, EncodeAll;
    assert (sent + [f])[n..] == sent[n..] + [f];
    EncodeAllAppend(sent[n..], f);
  }

  /** Refused is exactly a frame on a link not connected or closed from both sides, and one of more than 0xFFFFFFF0
      bytes. */
  lemma RefusedIff(l: Link, data: seq<byte>, head: byte)
    ensures MakeFragment(l, data, head).1 == -1
       <==> !l.connected || (l.sentClose && l.receivedClose) || |data| > 0xFFFF_FFF0
    ensures MakeFragment(l, data, head).1 == -1 ==> MakeFragment(l, data, head).0 == l
    ensures MakeFragment(l, data, head).1 != -1 ==> MakeFragment(l, data, head).1 >= 2 + |data|
  {
    hide Be16, Be32;
  }

  // ---- The continuous-frame flag ----

  /** The flag is set by the two calls that begin a fragmented message, cleared by the one that ends it, and left
      alone by every other call. */
  lemma ContinuousIff(l: Link, call: ApiCall)
    ensures Call(l, call).0.continuous <==> call.InitText? || call.InitBinary? || (l.continuous && !call.End?)
  {
    hide EncodeFrame, ClosePayload;
  }

  /** What a call asks to send. */
  function CallData(call: ApiCall): seq<byte>
  {
    match call
    case Ping => []
    case Close => ClosePayload(CLOSE_NORMAL, [])
    case CloseWithReason(code, reason) => ClosePayload(code, reason)
    case Pong(data) => data
    case Text(data) => data
    case Binary(data) => data
    case InitText(data) => data
    case InitBinary(data) => data
    case Continue(data) => data
    case End(data) => data
  }

  /** While it is set exactly the calls that send an unfragmented message are refused, and no others. */
  lemma CallRefusedIff(l: Link, call: ApiCall)
    requires l.connected && !l.sentClose && |CallData(call)| <= 0xFFFF_FFF0
    ensures Call(l, call).1 == -1 <==> l.continuous && (call.Text? || call.Binary?)
  {
    var plain, going := l.(continuous := false), l.(continuous := true);
    forall head ensures MakeFragment(l, CallData(call), head).1 != -1 && MakeFragment(plain, CallData(call), head).1 != -1
                     && MakeFragment(going, CallData(call), head).1 != -1 {
      RefusedIff(l, CallData(call), head);
      RefusedIff(plain, CallData(call), head);
      RefusedIff(going, CallData(call), head);
    }
    hide MakeFragment, ClosePayload;
  }

  /** What each call that is not refused puts on the wire (sections 5.2, 5.4 and 5.5): FIN, opcode and payload. */
  lemma CallSends(l: Link, call: ApiCall)
    requires l.connected && !l.sentClose && Call(l, call).1 != -1
    ensures var sent := Call(l, call).0.sent;
            && |sent| == |l.sent| + 1 && sent[..|l.sent|] == l.sent
            && var f := sent[|l.sent|];
               && (Fin(f.head) <==> !call.InitText? && !call.InitBinary? && !call.Continue?) && Rsv(f.head) == 0
               && match call
                  case Ping => Opcode(f.head) == 0x9 && f.payload == []
                  case Pong(data) => Opcode(f.head) == 0xA && f.payload == data
                  case Close => Opcode(f.head) == 0x8 && f.payload == [0x03, 0xE8]
                  case CloseWithReason(code, reason) =>
                    Opcode(f.head) == 0x8 && f.payload == [ToByte(code / 256), ToByte(code % 256)] + reason
                  case Text(data) => Opcode(f.head) == 0x1 && f.payload == data
                  case Binary(data) => Opcode(f.head) == 0x2 && f.payload == data
                  case InitText(data) => Opcode(f.head) == 0x1 && f.payload == data
                  case InitBinary(data) => Opcode(f.head) == 0x2 && f.payload == data
                  case Continue(data) => Opcode(f.head) == 0x0 && f.payload == data
                  case End(data) => Opcode(f.head) == 0x0 && f.payload == data
  {
    hide MakeFragment, MakeClose;
    match call
    case Ping => FragmentSends(l, [], 0x89);
    case Pong(data) => FragmentSends(l, data, 0x8A);
    case Close => CloseSends(l, CLOSE_NORMAL, []);
    case CloseWithReason(code, reason) => CloseSends(l, code, reason);
    case Text(data) => FragmentSends(l, data, 0x81);
    case Binary(data) => FragmentSends(l, data, 0x82);
    case InitText(data) => FragmentSends(l.(continuous := true), data, 0x01);
    case InitBinary(data) => FragmentSends(l.(continuous := true), data, 0x02);
    case Continue(data) => FragmentSends(l, data, 0x00);
    case End(data) => FragmentSends(l.(continuous := false), data, 0x80);
  }

  lemma FragmentSends(l: Link, data: seq<byte>, head: byte)
    ensures MakeFragment(l, data, head).1 != -1 ==>
              MakeFragment(l, data, head).0.sent == l.sent + [WsFrame(head, data)]
  {
    hide EncodeFrame;
  }

  lemma CloseSends(l: Link, code: uint16, reason: Reason)
    ensures MakeClose(l, code, reason).1 != -1 ==>
              && |MakeClose(l, code, reason).0.sent| == |l.sent| + 1
              && MakeClose(l, code, reason).0.sent[..|l.sent|] == l.sent
              && var f := MakeClose(l, code, reason).0.sent[|l.sent|];
                 f.head == 0x88 && f.payload == [ToByte(code / 256), ToByte(code % 256)] + reason
  {
    hide MakeFragment;
    FragmentSends(l, ClosePayload(code, reason), HEAD_CLOSE);
  }

  /** The three codes the engine sends of itself: 1000, 1002 and 1007. */
  lemma CodeBytes()
    ensures Be16(CLOSE_NORMAL) == [0x03, 0xE8]
    ensures Be16(CLOSE_PROTOCOL_ERROR) == [0x03, 0xEA]
    ensures Be16(CLOSE_WRONG_TYPE) == [0x03, 0xEF]
  {
  }

  /** Every builder keeps out_data a concatenation of frames and never changes an earlier byte. */
  lemma CallKeepsOut(l: Link, call: ApiCall)
    requires OutConsistent(l)
    ensures var l' := Call(l, call).0;
            OutConsistent(l') && l.out <= l'.out && l.sent <= l'.sent && l'.flushed == l.flushed
            && (Call(l, call).1 == -1 || |l'.sent| == |l.sent| + 1)
  {
    hide MakeFragment, ClosePayload, EncodeAll, EncodeFrame;
    var plain := l.(continuous := false);
    var going := l.(continuous := true);
    match call
    case Ping => MakeFragmentKeepsOut(l, [], 0x89);
    case Pong(data) => MakeFragmentKeepsOut(l, data, 0x8A);
    case Close => MakeFragmentKeepsOut(l, ClosePayload(CLOSE_NORMAL, []), HEAD_CLOSE);
    case CloseWithReason(code, reason) => MakeFragmentKeepsOut(l, ClosePayload(code, reason), HEAD_CLOSE);
    case Text(data) => MakeFragmentKeepsOut(l, data, 0x81);
    case Binary(data) => MakeFragmentKeepsOut(l, data, 0x82);
    case InitText(data) => MakeFragmentKeepsOut(going, data, 0x01);
    case InitBinary(data) => MakeFragmentKeepsOut(going, data, 0x02);
    case Continue(data) => MakeFragmentKeepsOut(l, data, 0x00);
    case End(data) => MakeFragmentKeepsOut(plain, data, 0x80);
  }

  lemma {:induction false} RunCallsKeepsOut(l: Link, calls: seq<ApiCall>)
    requires OutConsistent(l)
    ensures OutConsistent(RunCalls(l, calls)) && l.out <= RunCalls(l, calls).out && l.sent <= RunCalls(l, calls).sent
    ensures RunCalls(l, calls).flushed == l.flushed
    decreases |calls|
  {
    hide Call, OutConsistent;
    if calls != [] {
      CallKeepsOut(l, calls[0]);
      RunCallsKeepsOut(Call(l, calls[0]).0, calls[1..]);
    }
  }

  /** With nothing standing before them, the frames in out_data can be read back one for one. */
  lemma OutDecodes(l: Link)
    requires OutConsistent(l) && l.prefix == []
    ensures ReadAll(l.out) == Some(l.sent[l.flushed..])
  {
    OutputDecodes(l.sent[l.flushed..]);
    assert l.prefix + EncodeAll(l.sent[l.flushed..]) == EncodeAll(l.sent[l.flushed..]);
  }
}
