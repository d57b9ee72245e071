// libwebsock_handle_recv as a function on values: the byte-at-a-time machine
// that the heap-allocated one in Engine is proved to compute.

module Machine {
  import opened Bytes
  import opened Wire
  import opened Protocol

  /** The raw bytes of every allocated frame in list order, the last being the one under construction. */
  datatype Conn = Conn(link: Link, receiving: bool, raws: seq<seq<byte>>)
  {
    function Last(): seq<byte>
      requires raws != []
    {
      raws[|raws| - 1]
    }

    /** The bytes of the frame under construction, if any. */
    function Partial(): seq<byte>
    {
      if raws == [] then [] else Last()
    }

    /** A finished frame is still current: a final data frame came after a close was sent. */
    predicate Stalled()
    {
      Complete(Partial())
    }
  }

  // ---- The dispatch table (src/websock.c:387-420) ----

  datatype FrameFn = DispatchFn | ControlFn | ContinuationFn | FailFn | NullFn

  /** The lower half of the table when no fragment is open, the upper half otherwise. The table has 512 entries
      but 31 rows of 16 initialisers: its last sixteen entries are null pointers. */
  function Lookup(inFragment: bool, head: byte): FrameFn
  {
    if head == 0x88 || head == 0x89 || head == 0x8A then ControlFn
    else if inFragment then
      if head >= 0xF0 then NullFn
      else if head == 0x00 then ContinuationFn else if head == 0x80 then DispatchFn else FailFn
    else
      if head == 0x01 || head == 0x02 then ContinuationFn
      else if head == 0x81 || head == 0x82 then DispatchFn else FailFn
  }

  // ---- The frame functions ----

  predicate CompleteTo(raws: seq<seq<byte>>, k: nat)
  {
    k <= |raws| && forall i | 0 <= i < k :: Complete(raws[i])
  }

  predicate AllComplete(raws: seq<seq<byte>>)
  {
    CompleteTo(raws, |raws|)
  }

  /** What the forward pass has written after `k` frames: their unmasked payloads in list order. */
  function AssembleTo(raws: seq<seq<byte>>, k: nat): (s: seq<byte>)
    requires CompleteTo(raws, k)
  {
    if k == 0 then [] else AssembleTo(raws, k - 1) + Payload(raws[k - 1])
  }

  function Assemble(raws: seq<seq<byte>>): (s: seq<byte>)
    requires AllComplete(raws)
  {
    AssembleTo(raws, |raws|)
  }

  /** What the backward pass has added up on reaching frame `k`, that one included. */
  function TotalFrom(raws: seq<seq<byte>>, k: nat): (n: nat)
    requires AllComplete(raws) && k <= |raws|
    decreases |raws| - k
  {
    if k == |raws| then 0 else PayloadLen(raws[k]) + TotalFrom(raws, k + 1)
  }

  /** libwebsock_error: the callback runs, then every frame is freed. */
  function ErrorConn(c: Conn, code: uint16): (Conn, int)
  {
    var (l, r) := Error(c.link, code);
    (Conn(l, c.receiving, []), r)
  }

  ghost function DispatchConn(app: App, c: Conn): (Conn, int)
    requires AllComplete(c.raws)
  {
    var c1 := c.(receiving := false);
    if c.link.sentClose then (c1, 0)
    else if c.raws == [] then (c1, -1)
    else
      var m := Message(Opcode(c.raws[0][0]), Assemble(c.raws));
      if m.opcode == OP_TEXT && !TextOk(m.payload) then ErrorConn(c1, CLOSE_WRONG_TYPE)
      else
        var (l, r) := Deliver(app, c.link, m);
        (Conn(l, false, []), r)
  }

  ghost function ControlConn(c: Conn): (Conn, int)
    requires c.raws != [] && Complete(c.Last())
  {
    var (l, r) := OnControl(c.link, WsFrame(c.Last()[0], Payload(c.Last())));
    (Conn(l, c.receiving, if l.error then [] else c.raws[|c.raws| - 1 := []]), r)
  }

  function ContinuationConn(c: Conn): (Conn, int)
  {
    (Conn(c.link, true, c.raws + [[]]), 0)
  }

  function FailConn(c: Conn): (Conn, int)
  {
    ErrorConn(c.(link := c.link.(shouldClose := true)), CLOSE_PROTOCOL_ERROR)
  }

  /** A call through a null pointer ends the process; what it held is gone. */
  function NullConn(c: Conn): (Conn, int)
  {
    (Conn(c.link.(crashed := true), c.receiving, []), -1)
  }

  ghost function Process(app: App, c: Conn): (Conn, int)
    requires c.raws != [] && AllComplete(c.raws)
  {
    match Lookup(c.receiving, c.Last()[0])
    case DispatchFn => DispatchConn(app, c)
    case ControlFn => ControlConn(c)
    case ContinuationFn => ContinuationConn(c)
    case FailFn => FailConn(c)
    case NullFn => NullConn(c)
  }

  // ---- One byte, one chunk ----

  /** A client stalls on a final data frame after a close was sent; the flag was cleared, the frames kept. */
  predicate StallOk(c: Conn)
    requires c.raws != [] && Complete(c.Last())
  {
    c.link.sentClose && !c.receiving && if |c.raws| >= 2 then c.Last()[0] == 0x80 else c.Last()[0] in {0x81, 0x82}
  }

  /** All frames but the one under construction are complete; the error state holds no frame, nor does a
      process at its end; and
      RECEIVING_FRAGMENT is set exactly when there is a previous frame. */
  predicate Ok(c: Conn)
  {
    && (c.raws != [] ==> CompleteTo(c.raws, |c.raws| - 1))
    && (c.link.Ended() ==> c.raws == [])
    && (!c.link.Ended() && !c.Stalled() ==> (c.receiving <==> |c.raws| >= 2))
    && (c.raws != [] && Complete(c.Last()) ==> StallOk(c))
  }

  function Push(c: Conn, b: byte): Conn
  {
    if c.raws == [] then c.(raws := [[b]]) else c.(raws := c.raws[|c.raws| - 1 := c.Last() + [b]])
  }

  /** The process comes to its end on the null entries and nowhere else. */
  lemma CrashIsNull(app: App, c: Conn)
    requires c.raws != [] && AllComplete(c.raws) && !c.link.crashed
    ensures |c.Last()| > 0
    ensures Process(app, c).0.link.crashed <==> Lookup(c.receiving, c.Last()[0]) == NullFn
  {
    assert |c.Last()| > 0;
    hide Payload, OnControl, Protocol.Error, TextOk, Complete;
  }

  /** The frame functions keep the invariant, on a frame just completed and on a stalled one. */
  lemma ProcessOk(app: App, c: Conn)
    requires c.raws != [] && AllComplete(c.raws) && !c.link.Ended()
    requires (c.receiving <==> |c.raws| >= 2) || StallOk(c)
    ensures Ok(Process(app, c).0)
  {
    assert |c.Last()| > 0 && !Complete([]);
    hide Complete, Payload, OnControl, Deliver, Protocol.Error, TextOk, DispatchConn, ControlConn;
    match Lookup(c.receiving, c.Last()[0])
    case DispatchFn => DispatchOk(app, c);
    case ControlFn => ControlOk(c);
    case ContinuationFn => assert forall i | 0 <= i < |c.raws| :: (c.raws + [[]])[i] == c.raws[i];
    case FailFn =>
    case NullFn =>
  }

  lemma DispatchOk(app: App, c: Conn)
    requires c.raws != [] && AllComplete(c.raws) && !c.link.Ended()
    requires |c.Last()| > 0 && Lookup(c.receiving, c.Last()[0]) == DispatchFn
    requires (c.receiving <==> |c.raws| >= 2) || StallOk(c)
    ensures Ok(DispatchConn(app, c).0)
  {
    hide Complete, Payload, Deliver, Protocol.Error, TextOk;
  }

  lemma ControlOk(c: Conn)
    requires c.raws != [] && AllComplete(c.raws) && !c.link.Ended() && (c.receiving <==> |c.raws| >= 2)
    ensures Ok(ControlConn(c).0)
  {
    assert !Complete([]);
    hide Complete, Payload, OnControl;
  }

  /** A stored byte keeps the invariant. */
  lemma PushOk(c: Conn, b: byte)
    requires Ok(c) && !c.link.Ended()
    ensures var c1 := Push(c, b);
            if !Complete(c1.Last()) then Ok(c1)
            else AllComplete(c1.raws) && ((c1.receiving <==> |c1.raws| >= 2) || StallOk(c1))
  {
    assert c.Partial() != [] ==> Push(c, b).Last()[0] == c.Partial()[0];
    assert Complete(c.Partial()) ==> |c.Partial()| > 0;
    assert Complete(c.Partial()) ==> Complete(c.Partial() + [b]) by { Extend(c.Partial(), [b]); }
    hide Complete;
  }

  /** One turn of the receive loop: the value a frame function returned, if one ran. A stalled client stores
      the byte behind its finished frame and runs a frame function on that frame again. */
  ghost function Step(app: App, c: Conn, b: byte): (r: (Conn, Option<int>))
    requires Ok(c)
    ensures Ok(r.0)
  {
    if c.link.Ended() then (c, None)
    else
      PushOk(c, b);
      var c1 := Push(c, b);
      if !Complete(c1.Last()) then (c1, None)
      else
        ProcessOk(app, c1);
        var (c2, r) := Process(app, c1);
        (c2, Some(r))
  }

  /** libwebsock_handle_recv on the rest of a chunk, `ret` being the value to return at its end. */
  ghost function Recv(app: App, c: Conn, data: seq<byte>, ret: int): (r: (Conn, int))
    requires Ok(c)
    ensures Ok(r.0)
    decreases |data|
  {
    if data == [] then (c, ret)
    else if c.link.Ended() then (c, 0)
    else
      match Step(app, c, data[0])
      case (c1, None) => Recv(app, c1, data[1..], ret)
      case (c1, Some(r)) => if r == -1 then (c1, -1) else Recv(app, c1, data[1..], r)
  }

  // ---- Within bounds ----

  /** The largest frame whose buffer size the C code can compute in a signed int. */
  const MAX_FRAME: int := 0x4000_0000

  predicate SizeOk(raw: seq<byte>)
  {
    HeaderComplete(raw) ==> FrameSize(raw) <= MAX_FRAME
  }

  /** What handle_recv asks of its input: no frame is longer than 2^30 bytes, none meets a null table entry, and
      nothing follows a final data frame that arrives after a close was sent. */
  ghost predicate Admissible(app: App, c: Conn, data: seq<byte>)
    requires Ok(c)
    decreases |data|
  {
    data == [] || c.link.Ended()
    || (&& !c.Stalled() && SizeOk(Push(c, data[0]).Last())
        && var (c1, r) := Step(app, c, data[0]);
           !c1.link.crashed && (r == Some(-1) || Admissible(app, c1, data[1..])))
  }

  lemma AdmissibleHead(app: App, c: Conn, data: seq<byte>)
    requires Ok(c) && Admissible(app, c, data) && data != [] && !c.link.Ended()
    ensures !c.Stalled() && SizeOk(Push(c, data[0]).Last())
  {
  }

  lemma ErrorHoldsNothing(c: Conn)
    requires Ok(c) && c.link.Ended()
    ensures c.raws == []
  {
  }

  // ---- Bulk copies ----

  function PushAll(c: Conn, data: seq<byte>): Conn
    requires c.raws != []
  {
    c.(raws := c.raws[|c.raws| - 1 := c.Last() + data])
  }

  /** A payload byte that does not complete its frame is only stored. */
  lemma StoreOnly(app: App, c: Conn, b: byte)
    requires Ok(c) && c.raws != [] && !c.link.Ended()
    requires HeaderComplete(c.Last()) && |c.Last()| + 1 < FrameSize(c.Last())
    ensures Ok(Push(c, b)) && Step(app, c, b) == (Push(c, b), None)
    ensures Push(c, b).Last() == c.Last() + [b]
    ensures HeaderComplete(c.Last() + [b]) && FrameSize(c.Last() + [b]) == FrameSize(c.Last())
  {
    hide Process, FrameSize, HeaderComplete;
    Extend(c.Last(), [b]);
  }

  /** Bytes that do not complete the frame only pile up, however many come at once. */
  lemma {:induction false} BulkCopy(app: App, c: Conn, data: seq<byte>, n: nat, ret: int)
    requires Ok(c) && c.raws != [] && !c.link.Ended() && n <= |data|
    requires HeaderComplete(c.Last()) && |c.Last()| + n < FrameSize(c.Last())
    ensures Ok(PushAll(c, data[..n]))
    ensures Recv(app, c, data, ret) == Recv(app, PushAll(c, data[..n]), data[n..], ret)
    ensures Admissible(app, c, data) ==> Admissible(app, PushAll(c, data[..n]), data[n..])
    decreases n
  {
    hide Step, FrameSize, HeaderComplete, Ok, SizeOk;
    if n == 0 {
      assert c.Last() + data[..0] == c.Last();
      assert PushAll(c, data[..0]) == c && data[0..] == data;
    } else {
      var c1 := Push(c, data[0]);
      StoreOnly(app, c, data[0]);
      BulkCopy(app, c1, data[1..], n - 1, ret);
      assert c.Last() + [data[0]] + data[1..][..n - 1] == c.Last() + data[..n];
      assert PushAll(c1, data[1..][..n - 1]) == PushAll(c, data[..n]);
      assert data[1..][n - 1..] == data[n..];
    }
  }

  /** A turn that ends before the header is there. */
  lemma HeaderTurn(app: App, c: Conn, data: seq<byte>, ret: int)
    requires Ok(c) && !c.link.Ended() && !c.Stalled() && data != []
    requires !HeaderComplete(Push(c, data[0]).Last())
    ensures Ok(Push(c, data[0])) && !Push(c, data[0]).Stalled()
    ensures Recv(app, c, data, ret) == Recv(app, Push(c, data[0]), data[1..], ret)
    ensures Admissible(app, c, data) ==> Admissible(app, Push(c, data[0]), data[1..])
  {
    hide Process, FrameSize, HeaderComplete, Ok;
    FirstByte(app, c, data, ret);
  }

  /** A turn that uses up the chunk before the frame is complete. */
  lemma ShortTurn(app: App, c: Conn, data: seq<byte>, ret: int) returns (c1: Conn)
    requires Ok(c) && !c.link.Ended() && !c.Stalled() && data != []
    requires var raw := Push(c, data[0]).Last(); HeaderComplete(raw) && |raw| + |data| - 1 < FrameSize(raw)
    ensures c1 == PushAll(Push(c, data[0]), data[1..])
    ensures Ok(c1) && !c1.Stalled() && Recv(app, c, data, ret) == Recv(app, c1, [], ret) && Admissible(app, c1, [])
  {
    hide Process, FrameSize, HeaderComplete, Ok;
    var first := Push(c, data[0]);
    c1 := PushAll(first, data[1..]);
    FirstByte(app, c, data, ret);
    var rest := data[1..];
    BulkCopy(app, first, rest, |rest|, ret);
    assert rest[..|rest|] == rest && rest[|rest|..] == [];
    Extend(first.Last(), rest);
  }

  /** The byte that completes a frame runs its frame function. */
  lemma LastByte(app: App, c: Conn, data: seq<byte>, ret: int)
    requires Ok(c) && !c.link.Ended() && !c.Stalled() && data != [] && Complete(Push(c, data[0]).Last())
    ensures AllComplete(Push(c, data[0]).raws)
    ensures var (c2, r) := Process(app, Push(c, data[0]));
            && Ok(c2)
            && Recv(app, c, data, ret) == (if r == -1 then (c2, -1) else Recv(app, c2, data[1..], r))
            && (Admissible(app, c, data) ==> !c2.link.crashed && (r != -1 ==> Admissible(app, c2, data[1..])))
  {
    hide Process, Complete;
    var (c2, r) := Process(app, Push(c, data[0]));
    assert Step(app, c, data[0]) == (c2, Some(r));
  }

  /** A turn that completes the frame: its frame function runs on exactly the frame's bytes. */
  lemma FrameTurn(app: App, c: Conn, data: seq<byte>, ret: int) returns (c1: Conn, n: nat)
    requires Ok(c) && !c.link.Ended() && !c.Stalled() && data != []
    requires var raw := Push(c, data[0]).Last();
             HeaderComplete(raw) && |raw| <= FrameSize(raw) <= |raw| + |data| - 1
    ensures n == FrameSize(Push(c, data[0]).Last()) - |Push(c, data[0]).Last()| < |data|
    ensures c1 == PushAll(Push(c, data[0]), data[1..1 + n]) && AllComplete(c1.raws)
    ensures var (c2, r) := Process(app, c1);
            && Ok(c2)
            && Recv(app, c, data, ret) == (if r == -1 then (c2, -1) else Recv(app, c2, data[1 + n..], r))
            && (Admissible(app, c, data) ==> !c2.link.crashed && (r != -1 ==> Admissible(app, c2, data[1 + n..])))
  {
    hide Process, FrameSize, HeaderComplete, SizeOk, Ok, Recv, Admissible;
    var first := Push(c, data[0]);
    n := FrameSize(first.Last()) - |first.Last()|;
    c1 := PushAll(first, data[1..1 + n]);
    if n == 0 {
      assert data[1..1 + n] == [] && first.Last() + [] == first.Last();
      assert c1 == first;
      LastByte(app, c, data, ret);
    } else {
      var rest := data[1..];
      var before := PushAll(first, rest[..n - 1]);
      FirstByte(app, c, data, ret);
      BulkCopy(app, first, rest, n - 1, ret);
      AlmostThere(first, rest, n);
      assert rest[..n] == data[1..1 + n];
      assert rest[n - 1..][0] == rest[n - 1] && rest[n - 1..][1..] == data[1 + n..];
      LastByte(app, before, rest[n - 1..], ret);
    }
  }

  /** A byte that does not complete the frame. */
  lemma FirstByte(app: App, c: Conn, data: seq<byte>, ret: int)
    requires Ok(c) && !c.link.Ended() && !c.Stalled() && data != [] && !Complete(Push(c, data[0]).Last())
    ensures Ok(Push(c, data[0])) && Recv(app, c, data, ret) == Recv(app, Push(c, data[0]), data[1..], ret)
    ensures Admissible(app, c, data) ==> Admissible(app, Push(c, data[0]), data[1..])
  {
    hide Process, Complete;
    assert Step(app, c, data[0]) == (Push(c, data[0]), None);
  }

  /** One byte short of the frame, and the byte that completes it. */
  lemma AlmostThere(c: Conn, data: seq<byte>, n: nat)
    requires c.raws != [] && 0 < n <= |data| && HeaderComplete(c.Last()) && FrameSize(c.Last()) == |c.Last()| + n
    ensures var before := PushAll(c, data[..n - 1]);
            !before.Stalled() && Push(before, data[n - 1]) == PushAll(c, data[..n])
    ensures Complete(PushAll(c, data[..n]).Last())
  {
    hide FrameSize, HeaderComplete;
    Extend(c.Last(), data[..n - 1]);
    Extend(c.Last(), data[..n]);
    assert data[..n - 1] + [data[n - 1]] == data[..n];
    assert c.Last() + data[..n - 1] + [data[n - 1]] == c.Last() + data[..n];
  }

  // ---- The two passes over the fragment list ----

  /** At every frame, what the forward pass has written and what the backward pass has counted add up. */
  lemma {:induction false} PassesAgreeAt(raws: seq<seq<byte>>, k: nat)
    requires AllComplete(raws) && k <= |raws|
    ensures |AssembleTo(raws, k)| + TotalFrom(raws, k) == |Assemble(raws)|
    decreases |raws| - k
  {
    if k < |raws| {
      PassesAgreeAt(raws, k + 1);
    }
  }

  /** The backward pass computes exactly the number of bytes the forward pass writes. */
  lemma PassesAgree(raws: seq<seq<byte>>)
    requires AllComplete(raws)
    ensures TotalFrom(raws, 0) == |Assemble(raws)|
  {
    PassesAgreeAt(raws, 0);
  }

  /** The bytes assembled from some frames do not depend on what stands after them. */
  lemma {:induction false} AssemblePrefix(a: seq<seq<byte>>, b: seq<seq<byte>>, k: nat)
    requires CompleteTo(a, k) && k <= |b| && a[..k] == b[..k]
    ensures CompleteTo(b, k) && AssembleTo(a, k) == AssembleTo(b, k)
  {
    assert forall i | 0 <= i < k :: b[i] == b[..k][i] == a[..k][i] == a[i];
    if k > 0 {
      assert a[..k - 1] == a[..k][..k - 1] == b[..k][..k - 1] == b[..k - 1];
      AssemblePrefix(a, b, k - 1);
    }
  }
}
