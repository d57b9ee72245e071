// The client state of src/types.h with its list of heap-allocated frames,
// proved to compute the machine of Machine.dfy.

module Engine {
  import opened Bytes
  import opened Wire
  import opened Protocol
  import opened Machine
  import opened Frames
  import Utf8

  /** The objects a fragment list owns: the frames and their buffers. */
  ghost function Objects(frames: seq<Frame>, bufs: seq<array<byte>>): set<object>
  {
    (set f: object | f in frames) + (set b: object | b in bufs)
  }

  ghost predicate Distinct<T>(s: seq<T>)
  {
    forall i, j | 0 <= i < j < |s| :: s[i] != s[j]
  }

  /** `flags`, bit by bit. */
  datatype Flags = Flags(
    connected: bool,
    receivingFragment: bool,
    receivedClose: bool,
    sentClose: bool,
    processingError: bool,
    needsMoreData: bool,
    shouldClose: bool,
    continuousFrame: bool)

  /** The fragment list: the frames, oldest first, their buffers and the bytes received into each. */
  datatype Fragments = Fragments(frames: seq<Frame>, bufs: seq<array<byte>>, raws: seq<seq<byte>>)

  /** See Protocol.Link. */
  datatype History = History(sent: seq<WsFrame>, flushed: nat, prefix: seq<byte>, controls: seq<WsFrame>, errors: seq<uint16>)

  /** The two bits that belong to parsing, not to the link. */
  predicate SameParse(a: Flags, b: Flags)
  {
    a.receivingFragment == b.receivingFragment && a.needsMoreData == b.needsMoreData
  }

  class ClientState {
    var flags: Flags
    var outData: array?<byte>
    var currentFrame: Frame?
    var closeInfo: Option<CloseInfo>
    // onmessage, and what it remembers: the messages it was given
    const onmessage: App
    var context: seq<Message>

    ghost var list: Fragments
    // every frame and frame buffer allocated and not yet freed
    ghost var live: set<object>
    ghost var history: History

    // ---- Abstraction and invariant ----

    ghost function Out(): seq<byte>
      reads this`outData, outData
    {
      if outData == null then [] else outData[..]
    }

    ghost function LinkOf(): Link
      reads this`flags, this`closeInfo, this`outData, outData, this`context, this`history
    {
      Link(flags.connected, flags.receivedClose, flags.sentClose, flags.processingError, false, flags.shouldClose,
           flags.continuousFrame, closeInfo, Out(), history.sent, history.flushed, history.prefix, context,
           history.controls, history.errors)
    }

    ghost function Abs(): Conn
      reads this`flags, this`closeInfo, this`outData, outData, this`context, this`history, this`list
    {
      Conn(LinkOf(), flags.receivingFragment, list.raws)
    }

    /** Frame `i` sits between its neighbours and owns its buffer. */
    ghost predicate ChainAt(i: int)
      reads this`list, this`live, live
    {
      0 <= i < |list.frames| == |list.bufs| ==>
        && list.frames[i] in live && list.bufs[i] in live && list.frames[i].rawdata == list.bufs[i]
        && list.frames[i].prev == (if i == 0 then null else list.frames[i - 1])
        && list.frames[i].next == (if i == |list.frames| - 1 then null else list.frames[i + 1])
    }

    /** The frames reachable from currentFrame form a doubly linked list ending there, and with their buffers
        are exactly what is allocated. */
    ghost predicate Chained()
      reads this`list, this`live, this`currentFrame, live
    {
      && |list.frames| == |list.bufs| == |list.raws|
      && currentFrame == (if list.frames == [] then null else list.frames[|list.frames| - 1])
      && Distinct(list.frames) && Distinct(list.bufs)
      && live == Objects(list.frames, list.bufs) && this !in live
      && forall i :: ChainAt(i)
    }

    /** ... and each frame is well formed and holds its bytes. */
    ghost predicate Linked()
      reads this`list, this`live, this`currentFrame, live
    {
      && Chained()
      && forall i | 0 <= i < |list.frames| ::
           list.frames[i] in live && list.frames[i].rawdata in live && list.frames[i].Holds(list.raws[i])
    }

    /** Nothing waits for the rest of a header or payload: the current frame is fresh, or finished and stuck. */
    ghost predicate AtRest()
      reads this`currentFrame, this`list, currentFrame
    {
      currentFrame != null && list.raws != [] ==> currentFrame.state == Start || Complete(list.raws[|list.raws| - 1])
    }

    /** The output buffer is none of the receive path's objects. */
    ghost predicate Apart()
      reads this`outData, this`live
    {
      outData != null ==> outData !in live
    }

    ghost predicate Valid()
      reads this, live, outData
    {
      Linked() && Ok(Abs()) && Apart()
    }

    // ---- libwebsock_client_init ----

    constructor (app: App)
      ensures Valid() && live == {} && onmessage == app
      ensures Abs() == Conn(INITIAL, false, [])
    {
      flags := Flags(false, false, false, false, false, false, false, false);
      outData, currentFrame, closeInfo := null, null, None;
      onmessage, context := app, [];
      list, live, history := Fragments([], [], []), {}, History([], 0, [], [], []);
    }

    // ---- The end of libwebsock_populate_handshake ----

    /** The response becomes out_data, of which there was none, and CONNECTED the only flag. */
    method FinishHandshake(response: seq<byte>)
      requires Valid() && currentFrame == null && outData == null
      modifies this`flags, this`outData, this`history
      ensures Valid() && LinkOf() == Handshaken(old(LinkOf()), response)
      ensures Abs() == Conn(LinkOf(), false, [])
    {
      var buf := new byte[|response|];
      forall i | 0 <= i < |response| { buf[i] := response[i]; }
      outData := buf;
      assert buf[..] == response;
      history := history.(prefix := response, flushed := |history.sent|);
      flags := Flags(true, false, false, false, false, false, false, false);
    }

    // ---- libwebsock_client_destroy ----

    /** Nothing the client owned stays allocated: no frame, no buffer, no output, no close info. */
    method Destroy()
      requires Valid()
      modifies this`closeInfo, this`outData, this`history, this`live
      ensures live == {} && outData == null && closeInfo == None
    {
      closeInfo := None;
      CleanupOutdata();
      FreeAllFrames();
    }

    // ---- libwebsock_make_fragment ----

    method MakeFragment(data: seq<byte>, head: byte) returns (r: int)
      modifies this`outData, this`history
      ensures (LinkOf(), r) == Protocol.MakeFragment(old(LinkOf()), data, head)
      ensures outData == old(outData) || fresh(outData)
    {
      hide EncodeFrame;
      if flags.sentClose && flags.receivedClose { return -1; }
      if !flags.connected { return -1; }
      var len := |data|;
      var payloadOffset := 2;
      var frameSize, small;
      if len <= 125 {
        frameSize, small := 2 + len, len;
      } else if len <= 0xFFFF {
        frameSize, small, payloadOffset := 4 + len, 126, payloadOffset + 2;
      } else if len <= MAX_PAYLOAD {
        frameSize, small, payloadOffset := 10 + len, 127, payloadOffset + 8;
      } else {
        return -1;
      }
      AppendFrame(data, head, frameSize, small, payloadOffset);
      history := history.(sent := history.sent + [WsFrame(head, data)]);
      return frameSize;
    }

    // The part of libwebsock_make_fragment after its size tests: enlarge the buffer and write the frame.
    method AppendFrame(data: seq<byte>, head: byte, frameSize: nat, small: int, payloadOffset: nat)
      requires |data| <= MAX_PAYLOAD
      requires small == if |data| <= 125 then |data| else if |data| <= 0xFFFF then 126 else 127
      requires payloadOffset == if small == 126 then 4 else if small == 127 then 10 else 2
      requires frameSize == payloadOffset + |data|
      modifies this`outData
      ensures Out() == old(Out()) + EncodeFrame(WsFrame(head, data)) && fresh(outData)
      ensures |EncodeFrame(WsFrame(head, data))| == frameSize
    {
      hide LengthField;
      var currentSize := if outData == null then 0 else outData.Length;
      var grown := Enlarge(frameSize);
      WriteHeader(grown, currentSize, head, small, |data|, payloadOffset);
      ghost var header := [head] + LengthField(|data|);
      assert grown[..currentSize + payloadOffset] == old(Out()) + header by {
        assert grown[..currentSize + payloadOffset]
            == grown[..currentSize] + grown[currentSize..currentSize + payloadOffset];
      }
      WritePayload(grown, currentSize + payloadOffset, data);
      outData := grown;
    }

    // The calloc or realloc of out_data.
    method Enlarge(more: nat) returns (grown: array<byte>)
      ensures fresh(grown) && grown.Length == |Out()| + more && grown[..|Out()|] == Out()
    {
      var currentSize := if outData == null then 0 else outData.Length;
      grown := new byte[currentSize + more];
      if outData != null {
        forall i | 0 <= i < currentSize { grown[i] := outData[i]; }
        assert grown[..currentSize] == outData[..];
      }
    }

    static method WriteHeader(out: array<byte>, at: nat, head: byte, small: int, len: int, payloadOffset: nat)
      requires 0 <= len <= MAX_PAYLOAD
      requires small == if len <= 125 then len else if len <= 0xFFFF then 126 else 127
      requires payloadOffset == if small == 126 then 4 else if small == 127 then 10 else 2
      requires at + payloadOffset <= out.Length
      modifies out
      ensures out[..at] == old(out[..at])
      ensures out[at..at + payloadOffset] == [head] + LengthField(len)
    {
      hide Be16, Be32, ToByte;
      out[at], out[at + 1] := head, ToByte(small);
      if small == 126 {
        WriteAt(out, at + 2, Be16(len));
      }
      if small == 127 {
        WriteAt(out, at + 2, Be32(0));
        WriteAt(out, at + 6, Be32(len));
      }
    }

    // A 16- or 32-bit store.
    static method WriteAt(out: array<byte>, at: nat, word: seq<byte>)
      requires at + |word| <= out.Length
      modifies out
      ensures forall k | 0 <= k < out.Length ::
        out[k] == if at <= k < at + |word| then word[k - at] else old(out[k])
    {
      forall i | 0 <= i < |word| {
        out[at + i] := word[i];
      }
    }

    // memcpy of the payload to the end of the buffer.
    static method WritePayload(out: array<byte>, at: nat, data: seq<byte>)
      requires out.Length == at + |data|
      modifies out
      ensures out[..] == old(out[..at]) + data
    {
      forall i | 0 <= i < |data| {
        out[at + i] := data[i];
      }
    }

    // ---- src/api.c ----

    method MakePingFrame() returns (r: int)
      modifies this`outData, this`history
      ensures (LinkOf(), r) == Protocol.Call(old(LinkOf()), Ping)
      ensures outData == old(outData) || fresh(outData)
    {
      r := MakeFragment([], 0x89);
    }

    method MakePongFrame(data: seq<byte>) returns (r: int)
      modifies this`outData, this`history
      ensures (LinkOf(), r) == Protocol.Call(old(LinkOf()), Pong(data))
      ensures outData == old(outData) || fresh(outData)
    {
      r := MakeFragment(data, 0x8A);
    }

    method MakeCloseFrameWithReason(code: uint16, reason: Reason) returns (r: int)
      modifies this`outData, this`history, this`flags
      ensures (LinkOf(), r) == Protocol.MakeClose(old(LinkOf()), code, reason)
      ensures outData == old(outData) || fresh(outData)
      ensures flags == old(flags).(sentClose := true)
    {
      var buf := CloseBuffer(code, reason);
      CloseBufferIff(code, reason);
      r := MakeFragment(buf[..CloseLen(reason)], HEAD_CLOSE);
      flags := flags.(sentClose := true);
    }

    method MakeCloseFrame() returns (r: int)
      modifies this`outData, this`history, this`flags
      ensures (LinkOf(), r) == Protocol.Call(old(LinkOf()), Close)
      ensures outData == old(outData) || fresh(outData)
      ensures SameParse(flags, old(flags))
    {
      r := MakeCloseFrameWithReason(CLOSE_NORMAL, []);
    }

    method MakeTextDataFrame(data: seq<byte>) returns (r: int)
      modifies this`outData, this`history
      ensures (LinkOf(), r) == Protocol.Call(old(LinkOf()), Text(data))
      ensures outData == old(outData) || fresh(outData)
    {
      if flags.continuousFrame { return -1; }
      r := MakeFragment(data, 0x81);
    }

    method MakeBinaryDataFrame(data: seq<byte>) returns (r: int)
      modifies this`outData, this`history
      ensures (LinkOf(), r) == Protocol.Call(old(LinkOf()), Binary(data))
      ensures outData == old(outData) || fresh(outData)
    {
      if flags.continuousFrame { return -1; }
      r := MakeFragment(data, 0x82);
    }

    method MakeInitTextContinuationFrame(data: seq<byte>) returns (r: int)
      modifies this`outData, this`history, this`flags
      ensures (LinkOf(), r) == Protocol.Call(old(LinkOf()), InitText(data))
      ensures outData == old(outData) || fresh(outData)
      ensures SameParse(flags, old(flags))
    {
      flags := flags.(continuousFrame := true);
      r := MakeFragment(data, 0x01);
    }

    method MakeInitBinaryContinuationFrame(data: seq<byte>) returns (r: int)
      modifies this`outData, this`history, this`flags
      ensures (LinkOf(), r) == Protocol.Call(old(LinkOf()), InitBinary(data))
      ensures outData == old(outData) || fresh(outData)
      ensures SameParse(flags, old(flags))
    {
      flags := flags.(continuousFrame := true);
      r := MakeFragment(data, 0x02);
    }

    method MakeContinuationFrame(data: seq<byte>) returns (r: int)
      modifies this`outData, this`history
      ensures (LinkOf(), r) == Protocol.Call(old(LinkOf()), Continue(data))
      ensures outData == old(outData) || fresh(outData)
    {
      r := MakeFragment(data, 0x00);
    }

    method MakeEndContinuationFrame(data: seq<byte>) returns (r: int)
      modifies this`outData, this`history, this`flags
      ensures (LinkOf(), r) == Protocol.Call(old(LinkOf()), End(data))
      ensures outData == old(outData) || fresh(outData)
      ensures SameParse(flags, old(flags))
    {
      flags := flags.(continuousFrame := false);
      r := MakeFragment(data, 0x80);
    }

    /** libwebsock_cleanup_outdata. */
    method CleanupOutdata()
      modifies this`outData, this`history
      ensures LinkOf() == CleanupOut(old(LinkOf())) && outData == null
    {
      outData := null;
      history := history.(prefix := [], flushed := |history.sent|);
    }

    // ---- onmessage ----

    // One call of the application into src/api.c.
    method MakeCall(call: ApiCall) returns (r: int)
      modifies this`outData, this`history, this`flags
      ensures (LinkOf(), r) == Protocol.Call(old(LinkOf()), call)
      ensures outData == old(outData) || fresh(outData)
      ensures SameParse(flags, old(flags))
    {
      match call
      case Ping => r := MakePingFrame();
      case Pong(data) => r := MakePongFrame(data);
      case Close => r := MakeCloseFrame();
      case CloseWithReason(code, reason) => r := MakeCloseFrameWithReason(code, reason);
      case Text(data) => r := MakeTextDataFrame(data);
      case Binary(data) => r := MakeBinaryDataFrame(data);
      case InitText(data) => r := MakeInitTextContinuationFrame(data);
      case InitBinary(data) => r := MakeInitBinaryContinuationFrame(data);
      case Continue(data) => r := MakeContinuationFrame(data);
      case End(data) => r := MakeEndContinuationFrame(data);
    }

    method OnMessage(msg: Message) returns (r: int)
      modifies this`context, this`outData, this`history, this`flags
      ensures (LinkOf(), r) == Deliver(onmessage, old(LinkOf()), msg)
      ensures outData == old(outData) || fresh(outData)
      ensures SameParse(flags, old(flags))
    {
      hide Protocol.Call;
      context := context + [msg];
      var reply := onmessage(context);
      ghost var start := LinkOf();
      var calls := reply.calls;
      while calls != []
        invariant RunCalls(LinkOf(), calls) == RunCalls(start, reply.calls)
        invariant outData == old(outData) || fresh(outData)
        invariant SameParse(flags, old(flags))
        decreases |calls|
      {
        var _ := MakeCall(calls[0]);
        calls := calls[1..];
      }
      return reply.ret;
    }

    // ---- libwebsock_error and the freeing of frames ----

    /** libwebsock_free_all_frames: back to the first frame, then forward; each object is freed once. */
    method FreeAllFrames()
      requires Chained()
      modifies this`live
      ensures live == {}
    {
      var current := currentFrame;
      if current == null {
        assert list.frames == [] && list.bufs == [];
        return;
      }
      ghost var k := |list.frames| - 1;
      assert ChainAt(k);
      while current.prev != null
        invariant 0 <= k < |list.frames| && current == list.frames[k]
        invariant current.prev == if k == 0 then null else list.frames[k - 1]
        decreases k
      {
        current := current.prev;
        k := k - 1;
        assert ChainAt(k);
      }
      CleanupFrames(current);
    }

    /** libwebsock_cleanup_frames from the first frame on. */
    method CleanupFrames(first: Frame)
      requires Chained() && list.frames != [] && first == list.frames[0]
      modifies this`live
      ensures live == {}
    {
      ghost var frames, bufs := list.frames, list.bufs;
      ghost var k := 0;
      var following: Frame? := first;
      assert frames[0..] == frames && bufs[0..] == bufs;
      while following != null
        invariant 0 <= k <= |frames|
        invariant following == if k < |frames| then frames[k] else null
        invariant live == Objects(frames[k..], bufs[k..])
        decreases |frames| - k
      {
        var freed := following;
        assert old(ChainAt(k));
        following := freed.next;
        TailObjects(frames, bufs, k);
        assert freed.rawdata in live;
        live := live - {freed.rawdata};
        assert freed in live;
        live := live - {freed};
        k := k + 1;
      }
    }

    /** Freeing a frame and its buffer leaves the objects of the rest of the list. */
    static lemma TailObjects(frames: seq<Frame>, bufs: seq<array<byte>>, k: nat)
      requires k < |frames| == |bufs| && Distinct(frames) && Distinct(bufs)
      ensures frames[k] in Objects(frames[k..], bufs[k..]) && bufs[k] in Objects(frames[k..], bufs[k..])
      ensures Objects(frames[k..], bufs[k..]) - {bufs[k]} - {frames[k]} == Objects(frames[k + 1..], bufs[k + 1..])
    {
      assert frames[k..] == [frames[k]] + frames[k + 1..];
      assert bufs[k..] == [bufs[k]] + bufs[k + 1..];
    }

    // Free every frame; current_frame = NULL.
    method DropFrames()
      requires Linked()
      modifies this`live, this`currentFrame, this`list
      ensures Linked() && list.raws == [] && currentFrame == null && live == {}
    {
      hide Frame.Holds;
      FreeAllFrames();
      currentFrame := null;
      list := Fragments([], [], []);
    }

    // The flag and the default onerror.
    method OnError(code: uint16) returns (r: int)
      modifies this`flags, this`history, this`outData
      ensures (LinkOf(), r) == Protocol.Error(old(LinkOf()), code) && flags.processingError
      ensures outData == old(outData) || fresh(outData)
      ensures SameParse(flags, old(flags))
    {
      hide Protocol.MakeClose;
      flags := flags.(processingError := true);
      history := history.(errors := history.errors + [code]);
      r := MakeCloseFrameWithReason(code, []);
    }

    /** libwebsock_error with the default onerror. */
    method Error(code: uint16) returns (r: int)
      requires Linked()
      modifies this`flags, this`history, this`outData, this`live, this`currentFrame, this`list
      ensures (LinkOf(), r) == Protocol.Error(old(LinkOf()), code) && flags.processingError
      ensures Abs() == Conn(LinkOf(), old(flags.receivingFragment), []) && currentFrame == null
      ensures Linked() && live == {} && SameParse(flags, old(flags))
      ensures outData == old(outData) || fresh(outData)
    {
      ListFacts();
      hide Protocol.MakeClose, Frame.Holds, LinkOf, Linked, Chained, ChainAt;
      r := OnError(code);
      DropFrames();
    }

    method FailAndCleanup() returns (r: int)
      requires Linked()
      modifies this`flags, this`history, this`outData, this`live, this`currentFrame, this`list
      ensures (LinkOf(), r) == Protocol.Fail(old(LinkOf())) && flags.processingError
      ensures (Abs(), r) == FailConn(old(Abs()))
      ensures Abs() == Conn(LinkOf(), old(flags.receivingFragment), []) && currentFrame == null
      ensures Linked() && live == {} && SameParse(flags, old(flags))
      ensures outData == old(outData) || fresh(outData)
      ensures Apart() && AtRest()
    {
      ListFacts();
      hide Protocol.MakeClose, Linked, Chained, ChainAt;
      flags := flags.(shouldClose := true);
      r := Error(CLOSE_PROTOCOL_ERROR);
    }

    /** What the invariant says of the list as a whole. */
    lemma ListFacts()
      ensures Linked() ==>
                && this !in live && |list.raws| == |list.bufs| == |list.frames|
                && currentFrame == (if list.frames == [] then null else list.frames[|list.frames| - 1])
                && (list.frames == [] ==> live == {})
    {
    }

    /** What the invariant says of frame `k`. */
    lemma FrameAt(k: int)
      ensures Linked() && 0 <= k < |list.frames| ==>
                && |list.raws| == |list.bufs| == |list.frames|
                && (k == |list.frames| - 1 ==> currentFrame == list.frames[k])
                && var f := list.frames[k];
                   && f in live && f.rawdata in live && f.rawdata == list.bufs[k] && f.Holds(list.raws[k])
                   && f.prev == (if k == 0 then null else list.frames[k - 1])
                   && f.next == (if k == |list.frames| - 1 then null else list.frames[k + 1])
    {
      hide Frame.Holds;
      if Linked() {
        assert ChainAt(k);
      }
    }

    /** Work on the frames leaves the link as it is. */
    twostate lemma LinkUnchanged()
      requires flags.(receivingFragment := false, needsMoreData := false)
            == old(flags).(receivingFragment := false, needsMoreData := false)
      requires closeInfo == old(closeInfo) && context == old(context) && history == old(history)
      requires outData == old(outData) && (outData != null ==> unchanged(outData))
      ensures LinkOf() == old(LinkOf())
    {
    }

    lemma LinkFlags()
      ensures LinkOf().error == LinkOf().Ended() == flags.processingError && !LinkOf().crashed
      ensures LinkOf().sentClose == flags.sentClose
    {
    }

    // ---- libwebsock_dispatch_message ----

    /** The backward pass: the first frame and the number of payload bytes in the list. */
    method SumLengths() returns (first: Frame, total: nat)
      requires Linked() && list.frames != [] && AllComplete(list.raws)
      ensures first == list.frames[0] && total == TotalFrom(list.raws, 0)
    {
      ListFacts();
      hide Frame.Holds, Complete, PayloadLen, Linked, Chained, ChainAt;
      ghost var raws := list.raws;
      var current := currentFrame;
      ghost var k := |raws| - 1;
      total := 0;
      FrameAt(k);
      while current.prev != null
        invariant 0 <= k < |raws| && current == list.frames[k]
        invariant current.prev == if k == 0 then null else list.frames[k - 1]
        invariant total == TotalFrom(raws, k + 1)
        decreases k
      {
        FrameAt(k);
        current.Finished(raws[k]);
        total := total + current.payloadLen;
        current := current.prev;
        k := k - 1;
        FrameAt(k);
      }
      FrameAt(0);
      current.Finished(raws[0]);
      total := total + current.payloadLen;
      first := current;
    }

    /** The forward pass: every payload unmasked, in list order. */
    method UnmaskAll(first: Frame, target: array<byte>)
      requires Linked() && list.frames != [] && AllComplete(list.raws) && first == list.frames[0]
      requires |list.raws| == |list.frames|
      requires target !in live && target.Length >= TotalFrom(list.raws, 0)
      modifies target
      ensures |Assemble(list.raws)| == TotalFrom(list.raws, 0)
      ensures target[..TotalFrom(list.raws, 0)] == Assemble(list.raws)
    {
      hide Frame.Holds, Complete, PayloadLen, Payload, Linked, Chained, ChainAt;
      ghost var raws := list.raws;
      var current: Frame? := first;
      var pos: nat := 0;
      ghost var k := 0;
      PassesAgree(raws);
      while current != null
        invariant 0 <= k <= |raws| && current == if k < |raws| then list.frames[k] else null
        invariant pos + TotalFrom(raws, k) == TotalFrom(raws, 0) <= target.Length
        invariant target[..pos] == AssembleTo(raws, k)
        invariant Linked() == old(Linked())
        decreases |raws| - k
      {
        FrameAt(k);
        current.Finished(raws[k]);
        current.UnmaskInto(target, pos, raws[k]);
        FrameAt(k);
        current.Finished(raws[k]);
        pos := pos + current.payloadLen;
        current := current.next;
        k := k + 1;
      }
    }

    method ClearReceiving()
      modifies this`flags
      ensures flags == old(flags).(receivingFragment := false) && LinkOf() == old(LinkOf())
      ensures LinkOf().sentClose == flags.sentClose
    {
      flags := flags.(receivingFragment := false);
    }

    /** libwebsock_dispatch_message. */
    method DispatchMessage() returns (r: int)
      requires Linked() && AllComplete(list.raws) && Apart()
      modifies this`flags, this`history, this`outData, this`live, this`currentFrame, this`list, this`context
      ensures (Abs(), r) == DispatchConn(onmessage, old(Abs()))
      ensures Linked() && fresh(live - old(live)) && flags.needsMoreData == old(flags.needsMoreData)
      ensures Apart()
      ensures AtRest()
    {
      ListFacts();
      hide Protocol.Error, Deliver, Frame.Holds, LinkOf, TextOk, Linked, Chained, ChainAt;
      ghost var raws, link := list.raws, LinkOf();
      ClearReceiving();
      if flags.sentClose { return 0; }
      if currentFrame == null { return -1; }
      assert Abs() == Conn(link, false, raws);
      var opcode, payload := AssembleMessage();
      if opcode == OP_TEXT {
        TerminatedString(Assemble(raws));
        var ok := Utf8.ValidateUtf8Sequence(payload);
        JudgeText(Assemble(raws));
        if !ok {
          assert LinkOf() == link;
          r := Error(CLOSE_WRONG_TYPE);
          assert (LinkOf(), r) == Protocol.Error(link, CLOSE_WRONG_TYPE);
          assert (Abs(), r) == ErrorConn(Conn(link, false, raws), CLOSE_WRONG_TYPE);
          assert ErrorConn(Conn(link, false, raws), CLOSE_WRONG_TYPE) == DispatchConn(onmessage, old(Abs()));
          return;
        }
      }
      assert payload[..|payload| - 1] == Assemble(raws);
      ghost var msg := Message(opcode, Assemble(raws));
      assert LinkOf() == link;
      r := HandOver(Message(opcode, payload[..|payload| - 1]));
      ListFacts();
      assert (LinkOf(), r) == Deliver(onmessage, link, msg);
      assert (Conn(LinkOf(), false, []), r) == DispatchConn(onmessage, old(Abs()));
    }

    // The end of the dispatcher: the frames are freed before the application sees the message.
    method HandOver(msg: Message) returns (r: int)
      requires Linked()
      modifies this`flags, this`history, this`outData, this`live, this`currentFrame, this`list, this`context
      ensures (LinkOf(), r) == Deliver(onmessage, old(LinkOf()), msg)
      ensures Linked() && list.frames == [] && live == {} && SameParse(flags, old(flags))
      ensures outData == old(outData) || fresh(outData)
    {
      ListFacts();
      hide Deliver, LinkOf, Frame.Holds, Linked, Chained, ChainAt;
      DropFrames();
      assert LinkOf() == old(LinkOf());
      ListFacts();
      r := OnMessage(msg);
    }

    /** The validator sees the payload with its terminating NUL. */
    static lemma JudgeText(m: seq<byte>)
      ensures Utf8.WellFormed(UpToNul(m + [0])) <==> TextOk(m)
    {
      TerminatedString(m);
    }

    // Both passes, and the terminating NUL.
    method AssembleMessage() returns (opcode: byte, payload: seq<byte>)
      requires Linked() && list.frames != [] && AllComplete(list.raws)
      ensures opcode == Opcode(list.raws[0][0])
      ensures payload == Assemble(list.raws) + [0]
    {
      hide Frame.Holds, Complete, PayloadLen, Payload;
      var first, total := SumLengths();
      first.Finished(list.raws[0]);
      opcode := first.opcode;
      var buffer := new byte[total + 1];
      UnmaskAll(first, buffer);
      buffer[total] := 0;
      payload := buffer[..];
    }

    /** A terminating NUL does not change the C string. */
    static lemma TerminatedString(m: seq<byte>)
      ensures UpToNul(m + [0]) == UpToNul(m) && 0 in m + [0]
    {
      var n := |UpToNul(m)|;
      assert (m + [0])[|m|] == 0;
      assert (m + [0])[..n] == m[..n];
      UpToNulIs(m + [0], n);
    }

    // ---- Changing only the last frame of the list ----

    ghost function Last(): (n: nat)
      reads this`list
      requires list.frames != []
    {
      |list.frames| - 1
    }

    /** The current frame now holds `raw`, perhaps in another buffer, and nothing else changed. */
    twostate predicate Refilled(new raw: seq<byte>)
      reads this, live
    {
      && old(Linked()) && old(list.frames) != [] && currentFrame == old(currentFrame) && currentFrame != null
      && currentFrame in live && currentFrame.rawdata in live
      && list == Fragments(old(list.frames), old(list.bufs)[old(Last()) := currentFrame.rawdata],
                           old(list.raws)[old(Last()) := raw])
      && live == old(live) - {old(currentFrame.rawdata)} + {currentFrame.rawdata}
      && currentFrame.Holds(raw)
      && currentFrame.prev == old(currentFrame.prev) && currentFrame.next == old(currentFrame.next)
      && var buf := old(currentFrame.rawdata);
         && (currentFrame.rawdata == buf || currentFrame.rawdata !in old(live))
         && forall o: object {:trigger o in old(live)} | o in old(live) && o != currentFrame && o != buf :: unchanged(o)
    }

    twostate lemma RefilledAt(new raw: seq<byte>, i: nat)
      requires Refilled(raw) && i < |list.frames|
      ensures ChainAt(i) && list.frames[i] in live && list.frames[i].rawdata in live
      ensures list.frames[i].Holds(list.raws[i])
    {
      hide Frame.Holds;
      var n := old(Last());
      assert old(ChainAt(n));
      if i < n {
        assert old(ChainAt(i));
        assert old(list.frames)[i] != old(list.frames)[n] && old(list.bufs)[i] != old(list.bufs)[n];
        assert old(list.frames[i].Holds(list.raws[i]));
      }
    }

    twostate lemma RefilledObjects(raw: seq<byte>)
      requires Refilled(raw)
      ensures |list.frames| == |list.bufs| == |list.raws| > 0 && currentFrame == list.frames[Last()]
      ensures Distinct(list.frames) && Distinct(list.bufs)
      ensures live == Objects(list.frames, list.bufs) && this !in live
    {
      hide Frame.Holds;
      assert old(ChainAt(Last()));
      ReplaceBuffer(list.frames, old(list.bufs), old(Last()), currentFrame.rawdata);
    }

    twostate lemma LastChanged(raw: seq<byte>)
      requires Refilled(raw)
      ensures Linked()
    {
      hide Frame.Holds, ChainAt;
      RefilledObjects(raw);
      forall i | 0 <= i < |list.frames|
        ensures ChainAt(i) && list.frames[i] in live && list.frames[i].rawdata in live
        ensures list.frames[i].Holds(list.raws[i])
      {
        RefilledAt(raw, i);
      }
      OutOfList();
    }

    /** Exchanging one buffer for a fresh one in the footprint. */
    static lemma ReplaceBuffer(frames: seq<Frame>, bufs: seq<array<byte>>, n: nat, buf: array<byte>)
      requires n < |bufs| && Distinct(bufs)
      requires buf == bufs[n] || buf !in Objects(frames, bufs)
      ensures Distinct(bufs[n := buf])
      ensures Objects(frames, bufs[n := buf]) == Objects(frames, bufs) - {bufs[n]} + {buf}
    {
      var now := bufs[n := buf];
      assert forall i | 0 <= i < |frames| :: (frames[i] as object) != bufs[n];
      forall i | 0 <= i < |bufs| && i != n ensures now[i] == bufs[i] && bufs[i] != bufs[n] && bufs[i] != buf {
        assert bufs[i] as object in Objects(frames, bufs);
      }
      forall o: object ensures o in Objects(frames, now) <==> o in Objects(frames, bufs) - {bufs[n]} + {buf} {
        if o in Objects(frames, now) && o !in frames {
          var i :| 0 <= i < |bufs| && now[i] == o;
        }
        if o in Objects(frames, bufs) - {bufs[n]} && o !in frames {
          var i :| 0 <= i < |bufs| && bufs[i] == o;
          assert now[i] == o;
        }
        if o == buf { assert now[n] == o; }
      }
    }

    // ---- libwebsock_handle_control_frame and the default control callback ----

    // The demasking loop on the current frame.
    method UnmaskCurrent() returns (ghost clearRaw: seq<byte>)
      requires Linked() && list.frames != [] && Complete(list.raws[Last()])
      requires Apart()
      modifies this`list, currentFrame.rawdata
      ensures Linked() && LinkOf() == old(LinkOf())
      ensures list == old(list).(raws := old(list.raws)[old(Last()) := clearRaw])
      ensures var f, payload := currentFrame, Payload(old(list.raws[Last()]));
              && f.payloadLen == |payload| && f.payloadOffset + f.payloadLen <= f.rawdata.Length
              && f.rawdata[f.payloadOffset..f.payloadOffset + f.payloadLen] == payload
    {
      hide LinkOf, Frame.Holds, Payload, Complete;
      ghost var n := Last();
      FrameAt(n);
      clearRaw := currentFrame.UnmaskInPlace(list.raws[n]);
      assert list.bufs[n := currentFrame.rawdata] == list.bufs;
      list := list.(raws := list.raws[n := clearRaw]);
      LastChanged(clearRaw);
    }

    // case WS_OPCODE_CLOSE
    method CloseReceived(payload: seq<byte>) returns (r: int)
      requires Linked() && |payload| <= 125 && !flags.processingError
      modifies this`flags, this`history, this`outData, this`live, this`currentFrame, this`list, this`closeInfo
      ensures (LinkOf(), r) == OnCloseFrame(old(LinkOf()), payload)
      ensures Linked() && SameParse(flags, old(flags))
      ensures outData == old(outData) || fresh(outData)
      ensures if flags.processingError then list.raws == [] && live == {}
              else list == old(list) && live == old(live) && currentFrame == old(currentFrame)
      ensures old(closeInfo).Some? ==> closeInfo == old(closeInfo)
    {
      ListFacts();
      hide Frame.Holds, Protocol.Error, Protocol.Fail, AnswerCloseFrame, Noted, Judge, LinkOf, Linked, Chained, ChainAt;
      if |payload| == 1 {
        r := FailAndCleanup();
        return;
      }
      NoteCloseInfo(payload);
      ghost var link := LinkOf();
      var verdict := JudgeCloseInfo();
      if verdict == BadCode {
        r := Error(CLOSE_PROTOCOL_ERROR);
      } else if verdict == BadReason {
        r := FailAndCleanup();
      } else {
        r := AnswerClose();
      }
    }

    method NoteCloseInfo(payload: seq<byte>)
      requires |payload| <= 125
      modifies this`closeInfo
      ensures LinkOf() == Noted(old(LinkOf()), payload) && (old(closeInfo).Some? ==> closeInfo == old(closeInfo))
    {
      if closeInfo.None? && |payload| >= 2 {
        closeInfo := PopulateCloseInfo(payload);
      }
    }

    method JudgeCloseInfo() returns (v: CloseVerdict)
      ensures v == Judge(LinkOf().closeInfo)
    {
      if closeInfo.None? { return Fine; }
      if BadCloseCode(closeInfo.value.code) { return BadCode; }
      var buffer := closeInfo.value.reason;
      assert buffer[123] == 0;
      var ok := Utf8.ValidateUtf8Sequence(buffer);
      return if ok then Fine else BadReason;
    }

    // The end of the close case.
    method AnswerClose() returns (r: int)
      modifies this`flags, this`history, this`outData
      ensures (LinkOf(), r) == AnswerCloseFrame(old(LinkOf()))
      ensures outData == old(outData) || fresh(outData)
      ensures SameParse(flags, old(flags)) && flags.processingError == old(flags.processingError)
    {
      hide OnClose;
      if !flags.sentClose {
        flags := flags.(receivedClose := true);
        r := OnCloseCallback();
      } else {
        return -1;
      }
    }

    // The default onclose.
    method OnCloseCallback() returns (r: int)
      modifies this`flags, this`history, this`outData
      ensures (LinkOf(), r) == OnClose(old(LinkOf()))
      ensures outData == old(outData) || fresh(outData)
      ensures flags == old(flags).(sentClose := true)
    {
      hide Protocol.MakeClose;
      if closeInfo.Some? {
        r := MakeCloseFrameWithReason(closeInfo.value.code, CString(closeInfo.value.reason));
      } else {
        r := MakeCloseFrameWithReason(CLOSE_NORMAL, []);
      }
    }

    method NoteControl(ghost f: WsFrame)
      modifies this`history
      ensures LinkOf() == old(LinkOf()).(controls := old(LinkOf()).controls + [f])
      ensures LinkOf().sentClose == flags.sentClose
    {
      history := history.(controls := history.controls + [f]);
    }

    /** libwebsock_default_control_callback on the current frame. */
    method ControlCallback() returns (r: int)
      requires Linked() && list.frames != [] && Complete(list.raws[Last()]) && !flags.processingError
      requires Apart()
      modifies this`flags, this`history, this`outData, this`live, this`currentFrame, this`list, this`closeInfo
      modifies currentFrame.rawdata
      ensures var raw := old(list.raws[Last()]);
              (LinkOf(), r) == OnControl(old(LinkOf()), WsFrame(raw[0], Payload(raw)))
      ensures Linked() && SameParse(flags, old(flags))
      ensures outData == old(outData) || fresh(outData)
      ensures if flags.processingError then list.raws == [] && live == {}
              else && live == old(live) && currentFrame == old(currentFrame)
                   && list.frames == old(list.frames) && list.bufs == old(list.bufs)
                   && |list.raws| == |old(list.raws)| && list.raws[..Last()] == old(list.raws)[..Last()]
      ensures old(closeInfo).Some? ==> closeInfo == old(closeInfo)
    {
      ListFacts();
      hide Frame.Holds, Protocol.Error, OnCloseFrame, LinkOf, Payload, Complete, Protocol.MakeFragment, Linked, Chained, ChainAt;
      ghost var raw := list.raws[Last()];
      FrameAt(Last());
      var ctl := currentFrame;
      ctl.Finished(raw);
      ghost var f := WsFrame(raw[0], Payload(raw));
      NoteControl(f);
      ghost var link := LinkOf();
      if flags.sentClose && ctl.opcode != OP_CLOSE {
        return 0;
      }
      if ctl.payloadLen > 125 {
        r := Error(CLOSE_PROTOCOL_ERROR);
        return;
      }
      ghost var _ := UnmaskCurrent();
      var payload := ctl.rawdata[ctl.payloadOffset..ctl.payloadOffset + ctl.payloadLen];
      assert LinkOf() == link && payload == f.payload;
      r := ControlSwitch(ctl.opcode, payload);
    }

    // The switch on the opcode.
    method ControlSwitch(opcode: byte, payload: seq<byte>) returns (r: int)
      requires Linked() && |payload| <= 125 && !flags.processingError
      modifies this`flags, this`history, this`outData, this`live, this`currentFrame, this`list, this`closeInfo
      ensures (LinkOf(), r) == SwitchControl(old(LinkOf()), opcode, payload)
      ensures Linked() && SameParse(flags, old(flags))
      ensures outData == old(outData) || fresh(outData)
      ensures if flags.processingError then list.raws == [] && live == {}
              else list == old(list) && live == old(live) && currentFrame == old(currentFrame)
      ensures old(closeInfo).Some? ==> closeInfo == old(closeInfo)
    {
      ListFacts();
      hide Frame.Holds, Protocol.Error, OnCloseFrame, LinkOf, Protocol.MakeFragment, Linked, Chained, ChainAt;
      if opcode == OP_CLOSE {
        r := CloseReceived(payload);
      } else if opcode == OP_PING {
        r := MakePongFrame(payload);
      } else if opcode == OP_PONG {
        r := 0;
      } else {
        r := Error(CLOSE_PROTOCOL_ERROR);
      }
    }

    /** libwebsock_handle_control_frame. */
    method HandleControlFrame() returns (r: int)
      requires Linked() && list.frames != [] && Complete(list.raws[Last()]) && !flags.processingError
      requires Apart()
      modifies this`flags, this`history, this`outData, this`live, this`currentFrame, this`list, this`closeInfo
      modifies currentFrame, currentFrame.rawdata
      ensures (Abs(), r) == ControlConn(old(Abs()))
      ensures Linked() && fresh(live - old(live)) && flags.needsMoreData == old(flags.needsMoreData)
      ensures Apart()
      ensures AtRest()
      ensures old(closeInfo).Some? ==> closeInfo == old(closeInfo)
    {
      ghost var n := Last();
      ghost var link, raws := LinkOf(), list.raws;
      ghost var f := WsFrame(raws[n][0], Payload(raws[n]));
      ListFacts();
      hide Frame.Holds, OnControl, LinkOf, Payload, Complete, Linked, Chained, ChainAt;
      r := ControlCallback();
      assert (LinkOf(), r) == OnControl(link, f);
      LinkFlags();
      ListFacts();
      if currentFrame != null {
        UpdateLast(list.raws, raws, n);
        ResetCurrent();
      }
    }

    static lemma UpdateLast(a: seq<seq<byte>>, b: seq<seq<byte>>, n: nat)
      requires |a| == |b| == n + 1 && a[..n] == b[..n]
      ensures a[n := []] == b[n := []]
    {
      assert a[n := []] == a[..n] + [[]] && b[n := []] == b[..n] + [[]];
    }

    method ResetCurrent()
      requires Linked() && list.frames != []
      requires Apart()
      modifies this`list, currentFrame`state, currentFrame`rawdataIdx
      ensures Linked() && list == old(list).(raws := old(list.raws)[old(Last()) := []])
      ensures LinkOf() == old(LinkOf()) && currentFrame.state == Start
    {
      ListFacts();
      hide LinkOf, Linked, Chained, ChainAt;
      ghost var n := Last();
      FrameAt(n);
      currentFrame.Reset();
      assert list.bufs[n := currentFrame.rawdata] == list.bufs;
      list := list.(raws := list.raws[n := []]);
      LastChanged([]);
    }

    /** libwebsock_new_continuation_frame. */
    method NewContinuationFrame() returns (r: int)
      requires Linked() && list.frames != []
      requires Apart()
      modifies this`flags, this`currentFrame, this`list, this`live, currentFrame`next
      ensures (Abs(), r) == ContinuationConn(old(Abs()))
      ensures Linked() && fresh(live - old(live)) && AtRest() && Apart()
      ensures flags == old(flags).(receivingFragment := true)
    {
      ListFacts();
      hide Frame.Holds, LinkOf, Linked, Chained, ChainAt;
      var current := currentFrame;
      var added := new Frame(current, 0);
      LinkIn(added);
      assert LinkOf() == old(LinkOf());
      SetReceiving();
      r := 0;
    }

    method SetReceiving()
      modifies this`flags
      ensures flags == old(flags).(receivingFragment := true) && LinkOf() == old(LinkOf())
    {
      flags := flags.(receivingFragment := true);
    }

    // Append a new frame to the list and make it current.
    method LinkIn(added: Frame)
      requires Linked() && list.frames != []
      requires added !in live && added.rawdata !in live && this !in {added as object, added.rawdata}
      requires added.Holds([]) && added.prev == currentFrame && added.next == null
      modifies this`currentFrame, this`list, this`live, currentFrame`next
      ensures Linked() && currentFrame == added
      ensures list.raws == old(list.raws) + [[]] && live == old(live) + {added, added.rawdata}
    {
      hide Frame.Holds;
      ghost var n := Last();
      FrameAt(n);
      currentFrame.SetNext(added, list.raws[n]);
      currentFrame := added;
      list := Fragments(list.frames + [added], list.bufs + [added.rawdata], list.raws + [[]]);
      live := live + {added, added.rawdata};
      Appended(added);
    }

    /** One frame was added behind the old current one, and nothing else changed. */
    twostate predicate Grown(new added: Frame)
      reads this, live, added, added.rawdata
    {
      && old(Linked()) && old(list.frames) != [] && this !in live
      && list == Fragments(old(list.frames) + [added], old(list.bufs) + [added.rawdata], old(list.raws) + [[]])
      && live == old(live) + {added, added.rawdata} && added !in old(live) && added.rawdata !in old(live)
      && currentFrame == added && added.Holds([]) && added.prev == old(currentFrame) && added.next == null
      && var last := old(currentFrame);
         && last in old(live) && last.next == added && last.prev == old(last.prev) && last.rawdata == old(last.rawdata)
         && last.rawdata in old(live) && last.Holds(old(list.raws)[old(Last())])
         && forall o: object {:trigger o in old(live)} | o in old(live) && o != last :: unchanged(o)
    }

    twostate lemma GrownAt(new added: Frame, i: nat)
      requires Grown(added) && i < |list.frames|
      ensures ChainAt(i) && list.frames[i] in live && list.frames[i].rawdata in live
      ensures list.frames[i].Holds(list.raws[i])
    {
      hide Frame.Holds;
      var n := old(Last());
      assert old(ChainAt(n));
      if i < n {
        assert old(ChainAt(i));
        assert old(list.frames)[i] != old(list.frames)[n] && old(list.bufs)[i] in old(live);
        assert old(list.frames[i].Holds(list.raws[i]));
      }
    }

    twostate lemma Appended(new added: Frame)
      requires Grown(added)
      ensures Linked()
    {
      hide Frame.Holds, ChainAt;
      AppendObjects(old(list.frames), old(list.bufs), added, added.rawdata);
      forall i | 0 <= i < |list.frames|
        ensures ChainAt(i) && list.frames[i] in live && list.frames[i].rawdata in live
        ensures list.frames[i].Holds(list.raws[i])
      {
        GrownAt(added, i);
      }
      OutOfList();
    }

    lemma OutOfList()
      ensures forall i | !(0 <= i < |list.frames|) :: ChainAt(i)
    {
    }

    static lemma AppendObjects(frames: seq<Frame>, bufs: seq<array<byte>>, f: Frame, b: array<byte>)
      requires Distinct(frames) && Distinct(bufs) && f !in Objects(frames, bufs) && b !in Objects(frames, bufs)
      ensures Distinct(frames + [f]) && Distinct(bufs + [b])
      ensures Objects(frames + [f], bufs + [b]) == Objects(frames, bufs) + {f, b}
    {
      assert forall i | 0 <= i < |frames| :: frames[i] as object in Objects(frames, bufs);
      assert forall i | 0 <= i < |bufs| :: bufs[i] as object in Objects(frames, bufs);
    }

    // ---- libwebsock_handle_recv ----

    // The table lookup and the call through it, which must not find a null pointer.
    method RunFrameFn() returns (r: int)
      requires Linked() && list.frames != [] && AllComplete(list.raws) && !flags.processingError && Apart()
      requires !Process(onmessage, Abs()).0.link.crashed
      modifies this, currentFrame, currentFrame.rawdata
      ensures (Abs(), r) == Process(onmessage, old(Abs()))
      ensures Linked() && Apart() && AtRest()
      ensures fresh(live - old(live)) && flags.needsMoreData == old(flags.needsMoreData)
      ensures old(closeInfo).Some? ==> closeInfo == old(closeInfo)
    {
      ListFacts();
      HeadByte();
      LinkFlags();
      ghost var c := Abs();
      CrashIsNull(onmessage, c);
      hide Frame.Holds, LinkOf, DispatchConn, ControlConn, Complete, FailConn, ContinuationConn;
      hide Linked, Chained, ChainAt, Lookup, AtRest, Apart;
      var fn := Lookup(flags.receivingFragment, currentFrame.rawdata[0]);
      if fn == ControlFn {
        r := HandleControlFrame();
      } else {
        r := CallFn(fn);
      }
    }

    // The calls that leave close_info alone.
    method CallFn(fn: FrameFn) returns (r: int)
      requires Linked() && list.frames != [] && AllComplete(list.raws) && !flags.processingError && Apart()
      requires fn != ControlFn && fn != NullFn
      modifies this`flags, this`history, this`outData, this`live, this`currentFrame, this`list, this`context
      modifies currentFrame`next
      ensures (Abs(), r) == if fn == DispatchFn then DispatchConn(onmessage, old(Abs()))
                            else if fn == ContinuationFn then ContinuationConn(old(Abs()))
                            else FailConn(old(Abs()))
      ensures Linked() && Apart() && AtRest()
      ensures fresh(live - old(live)) && flags.needsMoreData == old(flags.needsMoreData)
    {
      ListFacts();
      hide Frame.Holds, LinkOf, DispatchConn, Complete, FailConn, ContinuationConn, Linked, Chained, ChainAt;
      if fn == DispatchFn {
        r := DispatchMessage();
      } else if fn == ContinuationFn {
        r := NewContinuationFrame();
      } else {
        r := FailAndCleanup();
      }
    }

    /** The first byte of the current frame, as stored and as recorded. */
    lemma HeadByte()
      requires Linked() && list.frames != [] && AllComplete(list.raws)
      ensures currentFrame.rawdata.Length > 0 && |list.raws[Last()]| > 0
      ensures currentFrame.rawdata[0] == list.raws[Last()][0]
      ensures Lookup(Abs().receiving, Abs().Last()[0]) == Lookup(flags.receivingFragment, currentFrame.rawdata[0])
    {
      FrameAt(Last());
      hide Frame.Holds, Linked, Chained, ChainAt;
      currentFrame.Finished(list.raws[Last()]);
    }

    // A frame to receive into.
    method EnsureFrame()
      requires Linked() && Apart()
      modifies this`currentFrame, this`list, this`live
      ensures Linked() && Apart() && list.frames != [] && fresh(live - old(live))
      ensures list.raws == if old(list.raws) == [] then [[]] else old(list.raws)
    {
      hide Frame.Holds;
      if currentFrame == null {
        var current := new Frame(null, 0xFFFF_FFFF);
        currentFrame := current;
        list := Fragments([current], [current.rawdata], [[]]);
        live := {current, current.rawdata};
        assert ChainAt(0);
        OutOfList();
      }
    }

    // Store one byte in the current frame and read as much of its header as is there.
    method StoreByte(b: byte) returns (ready: bool)
      requires Linked() && list.frames != [] && Apart() && !Complete(list.raws[Last()])
      requires SizeOk(list.raws[Last()] + [b])
      modifies this`list, this`live, currentFrame, currentFrame.rawdata
      ensures Linked() && list.frames == old(list.frames) && fresh(live - old(live))
      ensures list.raws == old(list.raws)[Last() := old(list.raws[Last()]) + [b]]
      ensures ready <==> HeaderComplete(list.raws[Last()])
      ensures ready <==> currentFrame.state == LoadedMask
      ensures Apart() && LinkOf() == old(LinkOf())
    {
      ListFacts();
      hide LinkOf, Linked, Chained, ChainAt;
      ghost var n, raw := Last(), list.raws[Last()] + [b];
      FrameAt(n);
      ready := currentFrame.Take(b, list.raws[n]);
      list := list.(bufs := list.bufs[n := currentFrame.rawdata], raws := list.raws[n := raw]);
      live := live - {old(currentFrame.rawdata)} + {currentFrame.rawdata};
      LastChanged(raw);
      LinkUnchanged();
    }

    // The bulk memcpy into the current frame.
    method CopyBulk(data: seq<byte>)
      requires Linked() && list.frames != [] && Apart() && currentFrame.state == LoadedMask
      requires currentFrame.rawdataIdx + |data| <= currentFrame.size
      modifies this`list, currentFrame`rawdataIdx, currentFrame.rawdata
      ensures Linked() && list.frames == old(list.frames) && currentFrame.state == LoadedMask
      ensures list.raws == old(list.raws)[Last() := old(list.raws[Last()]) + data]
      ensures LinkOf() == old(LinkOf())
    {
      ListFacts();
      hide LinkOf, Linked, Chained, ChainAt;
      ghost var n, raw := Last(), list.raws[Last()] + data;
      FrameAt(n);
      currentFrame.Extend(data, list.raws[n]);
      assert list.bufs[n := currentFrame.rawdata] == list.bufs;
      list := list.(raws := list.raws[n := raw]);
      LastChanged(raw);
    }

    method SetNeedsMoreData(on: bool)
      modifies this`flags
      ensures flags == old(flags).(needsMoreData := on) && LinkOf() == old(LinkOf())
    {
      flags := flags.(needsMoreData := on);
    }

    /** NEEDS_MORE_DATA within the loop: set exactly while a payload is incomplete. */
    ghost predicate MarksPayload()
      reads this`flags, this`currentFrame, this`list, currentFrame
    {
      flags.needsMoreData <==>
        currentFrame != null && currentFrame.state == LoadedMask && list.raws != [] && !Complete(list.raws[|list.raws| - 1])
    }

    // The first half of a turn: allocate if need be, store one byte, read the header.
    method TakeByte(b: byte) returns (ready: bool)
      requires Linked() && Apart() && !Abs().Stalled() && SizeOk(Push(Abs(), b).Last())
      modifies this`flags, this`currentFrame, this`list, this`live, live
      ensures Linked() && Apart() && list.frames != [] && fresh(live - old(live)) && !flags.needsMoreData
      ensures Abs() == Push(old(Abs()), b)
      ensures ready <==> HeaderComplete(Abs().Last())
      ensures ready <==> currentFrame.state == LoadedMask
    {
      hide Frame.Holds, LinkOf, Complete, SizeOk, Linked, Chained, ChainAt;
      ghost var c := Abs();
      BeginByte(b);
      FrameAt(Last());
      ready := StoreByte(b);
      assert Abs() == Push(c, b);
    }

    method BeginByte(ghost b: byte)
      requires Linked() && Apart() && !Abs().Stalled()
      modifies this`flags, this`currentFrame, this`list, this`live
      ensures Linked() && Apart() && list.frames != [] && fresh(live - old(live)) && !flags.needsMoreData
      ensures LinkOf() == old(LinkOf()) && flags.receivingFragment == old(flags.receivingFragment)
      ensures list.raws == if old(list.raws) == [] then [[]] else old(list.raws)
      ensures !Complete(list.raws[Last()])
      ensures Push(Abs(), b) == Push(old(Abs()), b)
    {
      NotYetComplete();
      ListFacts();
      hide Frame.Holds, LinkOf, Complete, Linked, Chained, ChainAt;
      SetNeedsMoreData(false);
      EnsureFrame();
      ListFacts();
      assert LinkOf() == old(LinkOf());
      assert [] + [b] == [b];
    }

    lemma NotYetComplete()
      ensures !Complete([])
    {
    }

    // The second half of a turn: copy what the chunk holds of the payload.
    method FillFrame(data: seq<byte>, j: nat) returns (k: nat, full: bool)
      requires Linked() && Apart() && list.frames != [] && j <= |data|
      requires currentFrame.state == LoadedMask && HeaderComplete(Abs().Last())
      modifies this`list, currentFrame`rawdataIdx, currentFrame.rawdata
      ensures Linked() && Apart() && list.frames == old(list.frames) && currentFrame.state == LoadedMask
      ensures j <= k <= |data| && Abs() == PushAll(old(Abs()), data[j..k])
      ensures var raw := old(Abs()).Last();
              && |raw| <= FrameSize(raw) && (full <==> FrameSize(raw) <= |raw| + |data| - j)
              && k == if full then j + FrameSize(raw) - |raw| else |data|
    {
      hide Frame.Holds, LinkOf, Linked, Chained, ChainAt, FrameSize, HeaderComplete, Complete;
      ListFacts();
      LoadedFacts();
      var need := currentFrame.size - currentFrame.rawdataIdx;
      full := |data| - j >= need;
      k := if full then j + need else |data|;
      CopyBulk(data[j..k]);
    }

    /** Once the mask is loaded: where the frame under construction ends. */
    lemma LoadedFacts()
      requires Linked() && list.frames != [] && HeaderComplete(Abs().Last())
      ensures currentFrame.size == FrameSize(Abs().Last())
      ensures currentFrame.rawdataIdx == |Abs().Last()| <= FrameSize(Abs().Last())
    {
      FrameAt(Last());
    }

    /** Bytes from `i` to `j` of a chunk: allocate, store, read the header, copy the payload. Either the chunk
        or the header gave out, or the frame is complete. */
    method Gather(data: seq<byte>, i: nat, ghost ret: int) returns (j: nat, full: bool)
      requires Valid() && !flags.processingError && i < |data|
      requires Admissible(onmessage, Abs(), data[i..])
      modifies this`flags, this`currentFrame, this`list, this`live, live
      ensures Linked() && Apart() && fresh(live - old(live)) && i < j <= |data| && list.frames != []
      ensures !full ==> Gathered(old(Abs()), data[i..], ret, Abs(), data[j..]) && MarksPayload()
      ensures full ==> Completed(old(Abs()), data[i..], ret, Abs(), data[j..]) && !flags.needsMoreData
      ensures !flags.processingError
    {
      hide Frame.Holds, LinkOf, Linked, Chained, ChainAt, FrameSize, HeaderComplete, Process, Recv, Admissible;
      hide Ok, SizeOk, Complete, Gathered, Completed, MarksPayload;
      ListFacts();
      LinkFlags();
      ghost var c, rest := Abs(), data[i..];
      assert rest[0] == data[i] && rest[1..] == data[i + 1..];
      AdmissibleHead(onmessage, c, rest);
      var ready := TakeByte(data[i]);
      ListFacts();
      LinkFlags();
      if !ready {
        HeaderGathered(c, rest, ret);
        HeaderMarks();
        return i + 1, false;
      }
      FrameAt(Last());
      j, full := GatherPayload(data, i + 1, c, rest, ret);
    }

    // Of `rest`, what the client at `c` is given, the first byte is stored and the header complete.
    method GatherPayload(data: seq<byte>, i: nat, ghost c: Conn, ghost rest: seq<byte>, ghost ret: int)
      returns (j: nat, full: bool)
      requires Linked() && Apart() && list.frames != [] && !flags.needsMoreData && !flags.processingError
      requires 0 < i <= |data| && rest == data[i - 1..] && Abs() == Push(c, rest[0])
      requires currentFrame.state == LoadedMask && HeaderComplete(Abs().Last())
      requires Ok(c) && !c.link.Ended() && !c.Stalled() && Admissible(onmessage, c, rest)
      modifies this`flags, this`list, currentFrame`rawdataIdx, currentFrame.rawdata
      ensures Linked() && Apart() && i <= j <= |data| && list.frames != []
      ensures !full ==> Gathered(c, rest, ret, Abs(), data[j..]) && MarksPayload()
      ensures full ==> Completed(c, rest, ret, Abs(), data[j..]) && !flags.needsMoreData
      ensures !flags.processingError
    {
      hide Frame.Holds, LinkOf, Linked, Chained, ChainAt, FrameSize, HeaderComplete, Process, Recv, Admissible;
      hide Ok, SizeOk, Complete, Gathered, Completed, MarksPayload;
      ListFacts();
      LinkFlags();
      FrameAt(Last());
      j, full := FillFrame(data, i);
      ListFacts();
      LinkFlags();
      assert rest[1..j - i + 1] == data[i..j] && rest[j - i + 1..] == data[j..];
      if full {
        FullGathered(c, rest, ret, j - i + 1);
      } else {
        ShortGathered(c, rest, ret);
        assert rest[1..] == data[i..j] && data[j..] == [];
        SetNeedsMoreData(true);
        PayloadMarks();
      }
    }

    lemma HeaderMarks()
      requires !flags.needsMoreData && currentFrame != null && currentFrame.state != LoadedMask
      ensures MarksPayload()
    {
    }

    lemma PayloadMarks()
      requires flags.needsMoreData && currentFrame != null && currentFrame.state == LoadedMask
      requires list.raws != [] && !Complete(list.raws[|list.raws| - 1])
      ensures MarksPayload()
    {
    }

    /** The header is still incomplete. */
    lemma HeaderGathered(c: Conn, data: seq<byte>, ret: int)
      requires Ok(c) && !c.link.Ended() && !c.Stalled() && data != [] && Admissible(onmessage, c, data)
      requires !HeaderComplete(Push(c, data[0]).Last())
      ensures Gathered(c, data, ret, Push(c, data[0]), data[1..]) && !Push(c, data[0]).Stalled()
    {
      hide Process, Recv, Admissible, Ok, HeaderComplete, FrameSize;
      HeaderTurn(onmessage, c, data, ret);
    }

    /** The chunk is used up before the frame is complete. */
    lemma ShortGathered(c: Conn, data: seq<byte>, ret: int)
      requires Ok(c) && !c.link.Ended() && !c.Stalled() && data != [] && Admissible(onmessage, c, data)
      requires var raw := Push(c, data[0]).Last(); HeaderComplete(raw) && |raw| + |data| - 1 < FrameSize(raw)
      ensures var c1 := PushAll(Push(c, data[0]), data[1..]);
              Gathered(c, data, ret, c1, []) && !c1.Stalled()
    {
      hide Process, Recv, Admissible, Ok, HeaderComplete, FrameSize;
      var _ := ShortTurn(onmessage, c, data, ret);
    }

    /** The first `n` bytes complete the frame. */
    lemma FullGathered(c: Conn, data: seq<byte>, ret: int, n: nat)
      requires Ok(c) && !c.link.Ended() && !c.Stalled() && 0 < n <= |data| && Admissible(onmessage, c, data)
      requires var raw := Push(c, data[0]).Last();
               HeaderComplete(raw) && |raw| <= FrameSize(raw) && n == 1 + FrameSize(raw) - |raw|
      ensures Completed(c, data, ret, PushAll(Push(c, data[0]), data[1..n]), data[n..])
    {
      hide Process, Recv, Admissible, Ok, HeaderComplete, FrameSize, AllComplete;
      var _, _ := FrameTurn(onmessage, c, data, ret);
    }

    /** `data` takes the client from `c` to `c1`, `left` remaining, without a frame function having run. */
    ghost predicate Gathered(c: Conn, data: seq<byte>, ret: int, c1: Conn, left: seq<byte>)
    {
      && Ok(c) && Ok(c1) && Recv(onmessage, c, data, ret) == Recv(onmessage, c1, left, ret)
      && Admissible(onmessage, c1, left)
    }

    /** ... and the frame then current is complete: its frame function decides what happens. */
    ghost predicate Completed(c: Conn, data: seq<byte>, ret: int, c1: Conn, left: seq<byte>)
    {
      && Ok(c) && c1.raws != [] && AllComplete(c1.raws)
      && var (c2, r) := Process(onmessage, c1);
         && Ok(c2)
         && Recv(onmessage, c, data, ret) == (if r == -1 then (c2, -1) else Recv(onmessage, c2, left, r))
         && !c2.link.crashed && (r != -1 ==> Admissible(onmessage, c2, left))
    }

    /** One turn of the receive loop: bytes from `i` to `j` are used up, and `r` is the value to return if the
        loop stops here. */
    method Turn(data: seq<byte>, i: nat, ret: int) returns (j: nat, stop: bool, r: int)
      requires Valid() && !flags.processingError && i < |data|
      requires Admissible(onmessage, Abs(), data[i..])
      modifies this, live
      ensures Valid() && fresh(live - old(live)) && i < j <= |data| && MarksPayload()
      ensures Recv(onmessage, old(Abs()), data[i..], ret) == if stop then (Abs(), r) else Recv(onmessage, Abs(), data[j..], r)
      ensures !stop ==> Admissible(onmessage, Abs(), data[j..])
      ensures old(closeInfo).Some? ==> closeInfo == old(closeInfo)
    {
      hide Frame.Holds, LinkOf, Linked, Chained, ChainAt, Process, Admissible, Ok, Complete, Recv;
      ListFacts();
      var full;
      j, full := Gather(data, i, ret);
      if !full {
        return j, false, ret;
      }
      FrameAt(Last());
      ghost var c1 := Abs();
      r := RunFrameFn();
      assert (Abs(), r) == Process(onmessage, c1);
      stop := r == -1;
    }

    /** libwebsock_handle_recv: on any chunk, exactly the machine's state and return value; outside the error
        state NEEDS_MORE_DATA then tells whether a frame is under construction; close_info is never replaced. */
    method HandleRecv(data: seq<byte>) returns (r: int)
      requires Valid() && Admissible(onmessage, Abs(), data)
      modifies this, live
      ensures Valid() && fresh(live - old(live))
      ensures if data == [] then r == -1 && Abs() == old(Abs()) else (Abs(), r) == Recv(onmessage, old(Abs()), data, -1)
      ensures data != [] && !old(flags.processingError) ==>
                (flags.needsMoreData <==> currentFrame != null && !Abs().Stalled())
      ensures old(closeInfo).Some? ==> closeInfo == old(closeInfo)
    {
      hide Frame.Holds, LinkOf, Linked, Chained, ChainAt, Process, Admissible, Ok, Complete;
      if |data| == 0 {
        return -1;
      }
      r := -1;
      var i, stop := 0, false;
      assert data[0..] == data;
      while i < |data| && !stop
        invariant i <= |data| && Valid() && fresh(live - old(live))
        invariant if stop then (Abs(), r) == Recv(onmessage, old(Abs()), data, -1)
                  else && Recv(onmessage, Abs(), data[i..], r) == Recv(onmessage, old(Abs()), data, -1)
                       && Admissible(onmessage, Abs(), data[i..])
        invariant if i == 0 then flags.processingError == old(flags.processingError) && !stop
                  else !old(flags.processingError) && MarksPayload()
        invariant old(closeInfo).Some? ==> closeInfo == old(closeInfo)
        decreases |data| - i
      {
        LinkFlags();
        if flags.processingError {
          ListFacts();
          ErrorHoldsNothing(Abs());
          return 0;
        }
        i, stop, r := Turn(data, i, r);
      }
      ListFacts();
      MarkNeedsMore();
    }

    // The last statement of the receive function: a header is incomplete.
    method MarkNeedsMore()
      requires Linked() && MarksPayload()
      modifies this`flags
      ensures LinkOf() == old(LinkOf()) && flags == old(flags).(needsMoreData := flags.needsMoreData)
      ensures flags.needsMoreData <==> currentFrame != null && !Abs().Stalled()
    {
      hide Linked, Chained, ChainAt, LinkOf, Complete, Frame.Holds;
      ListFacts();
      NotYetComplete();
      CurrentState();
      if currentFrame != null && currentFrame.state != LoadedMask {
        SetNeedsMoreData(true);
      }
    }

    lemma CurrentState()
      ensures Linked() && list.raws != [] && Complete(list.raws[|list.raws| - 1]) ==> currentFrame.state == LoadedMask
    {
      hide Linked, Chained, ChainAt;
      FrameAt(|list.frames| - 1);
      ListFacts();
    }
  }
}
