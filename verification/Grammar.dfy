// Which frame sequences are accepted: the rules of sections 5.4, 5.5, 7.4 and
// 8.1 of RFC 6455 stated on the list of frames alone; what the code overlooks;
// and the proof that a run ends in the error state exactly when a rule is
// broken, nothing is overlooked and the dispatch table has an entry.

module Grammar {
  import opened Bytes
  import opened Wire
  import opened Protocol
  import opened Session
  import opened Runs
  import Machine
  import Safety
  import Utf8

  // ---- The rules, by position in the list ----

  /** The last data frame before position `k`, or -1. */
  function LastData(fs: seq<WsFrame>, k: nat): (d: int)
    requires k <= |fs|
    ensures -1 <= d < k
  {
    if k == 0 then -1 else if !IsControl(fs[k - 1].head) then k - 1 else LastData(fs, k - 1)
  }

  /** A fragmented message is open at `k`: the last data frame before it had FIN clear. */
  predicate Open(fs: seq<WsFrame>, k: nat)
    requires k <= |fs|
  {
    var d := LastData(fs, k);
    d >= 0 && !Fin(fs[d].head)
  }

  /** Where the message that a data frame at `k` belongs to begins. */
  function Start(fs: seq<WsFrame>, k: nat): (i: nat)
    requires k <= |fs|
    ensures i <= k && (k < |fs| ==> i < |fs|) && (Open(fs, k) ==> i < |fs|)
    decreases k
  {
    if Open(fs, k) then Start(fs, LastData(fs, k)) else k
  }

  /** The payloads of the data frames from `i` up to `k`, in order. */
  function Body(fs: seq<WsFrame>, i: nat, k: nat): seq<byte>
    requires k <= |fs|
    decreases k
  {
    if k <= i then []
    else if IsControl(fs[k - 1].head) then Body(fs, i, k - 1)
    else Body(fs, i, k - 1) + fs[k - 1].payload
  }

  /** The codes a close frame may carry by section 7.4: those defined for the wire in section 7.4.1, and the
      ranges of section 7.4.2 for libraries and for private use. */
  predicate RfcCloseCode(code: int)
  {
    1000 <= code <= 1003 || 1007 <= code <= 1011 || 3000 <= code <= 4999
  }

  /** The code's own test lets through exactly these and every code from 5000 on. */
  lemma CloseCodeGap(code: uint16)
    ensures !BadCloseCode(code) <==> RfcCloseCode(code) || code >= 5000
  {
  }

  ghost predicate LegalClose(p: seq<byte>)
  {
    p == [] || (|p| >= 2 && RfcCloseCode(FromBe16(p[0], p[1])) && Utf8.WellFormed(p[2..]))
  }

  ghost predicate LegalControl(f: WsFrame)
  {
    |f.payload| <= 125 && (Opcode(f.head) == OP_CLOSE ==> LegalClose(f.payload))
  }

  predicate TextAt(fs: seq<WsFrame>, k: nat)
    requires k < |fs|
  {
    Opcode(fs[Start(fs, k)].head) == OP_TEXT
  }

  /** The message that ends with the data frame at `k`. */
  function WholeAt(fs: seq<WsFrame>, k: nat): seq<byte>
    requires k < |fs|
  {
    Body(fs, Start(fs, k), k + 1)
  }

  ghost predicate LegalAt(fs: seq<WsFrame>, k: nat)
    requires k < |fs|
  {
    && LegalHead(Open(fs, k), fs[k].head)
    && if IsControl(fs[k].head) then LegalControl(fs[k])
       else Fin(fs[k].head) && TextAt(fs, k) ==> Utf8.WellFormed(WholeAt(fs, k))
  }

  // ---- What the code overlooks ----

  /** Ill-formed data behind the first NUL of data well formed before it. */
  ghost predicate NulHides(s: seq<byte>)
  {
    var u := UpToNul(s);
    |u| < |s| && Utf8.WellFormed(u) && !Utf8.WellFormed(s[|u| + 1..])
  }

  /** A code of 5000 or more, or a reason ill-formed behind a NUL, and nothing else wrong. */
  ghost predicate OverlookedClose(p: seq<byte>)
  {
    && |p| >= 2
    && var code := FromBe16(p[0], p[1]);
       && (RfcCloseCode(code) || code >= 5000)
       && (NulHides(p[2..]) || (code >= 5000 && Utf8.WellFormed(UpToNul(p[2..]))))
  }

  ghost predicate OverlookedAt(fs: seq<WsFrame>, k: nat)
    requires k < |fs|
  {
    && LegalHead(Open(fs, k), fs[k].head)
    && if IsControl(fs[k].head)
       then Opcode(fs[k].head) == OP_CLOSE && |fs[k].payload| <= 125 && OverlookedClose(fs[k].payload)
       else Fin(fs[k].head) && TextAt(fs, k) && NulHides(WholeAt(fs, k))
  }

  /** Illegal, and not overlooked. */
  ghost predicate BadAt(fs: seq<WsFrame>, k: nat)
    requires k < |fs|
  {
    !LegalAt(fs, k) && !OverlookedAt(fs, k)
  }

  /** The frame for which the dispatch table holds a null pointer. */
  predicate NullAt(fs: seq<WsFrame>, k: nat)
    requires k < |fs|
  {
    NoEntry(Open(fs, k), fs[k].head)
  }

  // ---- The tests the code makes ----

  ghost predicate PassesClose(p: seq<byte>)
  {
    p == [] || (|p| >= 2 && !BadCloseCode(FromBe16(p[0], p[1])) && Utf8.WellFormed(UpToNul(p[2..])))
  }

  ghost predicate PassesAt(fs: seq<WsFrame>, k: nat)
    requires k < |fs|
  {
    && LegalHead(Open(fs, k), fs[k].head)
    && if IsControl(fs[k].head)
       then |fs[k].payload| <= 125 && (Opcode(fs[k].head) == OP_CLOSE ==> PassesClose(fs[k].payload))
       else Fin(fs[k].head) && TextAt(fs, k) ==> TextOk(WholeAt(fs, k))
  }

  /** The validator passes what is well formed and what a NUL hides, which are different things. */
  lemma NulGap(s: seq<byte>)
    ensures Utf8.WellFormed(UpToNul(s)) <==> Utf8.WellFormed(s) || NulHides(s)
    ensures !(Utf8.WellFormed(s) && NulHides(s))
  {
    Utf8.PartBeforeNul(s);
    hide Utf8.WellFormed;
  }

  /** What passes is what is legal and what is overlooked, which are different things. */
  lemma PassesIff(fs: seq<WsFrame>, k: nat)
    requires k < |fs|
    ensures PassesAt(fs, k) <==> LegalAt(fs, k) || OverlookedAt(fs, k)
    ensures !(LegalAt(fs, k) && OverlookedAt(fs, k))
    ensures NullAt(fs, k) ==> BadAt(fs, k)
  {
    var p := fs[k].payload;
    TableIsRules(Open(fs, k), fs[k].head);
    NulGap(WholeAt(fs, k));
    ClosePassesIff(p);
    hide Utf8.WellFormed, NulHides, PassesClose, LegalClose, OverlookedClose, WholeAt, Start, Body, Open;
  }

  lemma ClosePassesIff(p: seq<byte>)
    ensures PassesClose(p) <==> LegalClose(p) || OverlookedClose(p)
    ensures !(LegalClose(p) && OverlookedClose(p))
  {
    if |p| >= 2 {
      NulGap(p[2..]);
      CloseCodeGap(FromBe16(p[0], p[1]));
    }
    hide Utf8.WellFormed, NulHides, BadCloseCode, FromBe16;
  }

  /** At a bad frame: it is the text that is bad. */
  predicate BadText(fs: seq<WsFrame>, k: nat)
    requires k < |fs|
  {
    LegalHead(Open(fs, k), fs[k].head) && !IsControl(fs[k].head)
  }

  /** Bad text is answered with 1007, anything else that is illegal with 1002. */
  function ErrorCode(fs: seq<WsFrame>, k: nat): uint16
    requires k < |fs|
  {
    if BadText(fs, k) then CLOSE_WRONG_TYPE else CLOSE_PROTOCOL_ERROR
  }

  // ---- One frame ----

  /** A connected client before any close. */
  ghost predicate Running(l: Link)
  {
    l.connected && !l.Ended() && !l.sentClose && !l.receivedClose && l.closeInfo.None?
  }

  /** The message under way at position `k`. */
  function PendingAt(fs: seq<WsFrame>, k: nat): Option<Message>
    requires k <= |fs|
  {
    if Open(fs, k) then Some(Message(Opcode(fs[Start(fs, k)].head), Body(fs, Start(fs, k), k))) else None
  }

  lemma ExtendedAt(fs: seq<WsFrame>, k: nat, s: Session)
    requires k < |fs| && s.pending == PendingAt(fs, k) && !IsControl(fs[k].head)
    ensures Extended(s, fs[k]) == Message(Opcode(fs[Start(fs, k)].head), Body(fs, Start(fs, k), k + 1))
  {
    var i := Start(fs, k);
    assert Body(fs, i, k + 1) == Body(fs, i, k) + fs[k].payload;
    if !Open(fs, k) {
      assert Body(fs, k, k) == [];
    }
  }

  /** A control frame between fragments changes no message. */
  lemma PendingPastControl(fs: seq<WsFrame>, k: nat)
    requires k < |fs| && IsControl(fs[k].head)
    ensures PendingAt(fs, k + 1) == PendingAt(fs, k)
  {
    assert LastData(fs, k + 1) == LastData(fs, k);
  }

  lemma PendingPastData(fs: seq<WsFrame>, k: nat, s: Session)
    requires k < |fs| && !IsControl(fs[k].head) && s.pending == PendingAt(fs, k)
    ensures PendingAt(fs, k + 1) == if Fin(fs[k].head) then None else Some(Extended(s, fs[k]))
  {
    assert LastData(fs, k + 1) == k;
    if !Fin(fs[k].head) {
      assert Start(fs, k + 1) == Start(fs, k);
      ExtendedAt(fs, k, s);
    }
  }

  /** What an error adds: its code, and one close frame carrying it. */
  predicate Failed(l: Link, l1: Link, code: uint16)
  {
    l1.error && !l1.crashed && l1.errors == l.errors + [code] && l1.sent == l.sent + [WsFrame(HEAD_CLOSE, Be16(code))]
  }

  lemma ErrorFails(l: Link, code: uint16)
    requires Running(l)
    ensures Failed(l, Error(l, code).0, code)
  {
    hide EncodeFrame, Be16;
    assert ClosePayload(code, []) == Be16(code);
  }

  /** What the default control callback makes of a close payload. */
  lemma CloseJudged(p: seq<byte>)
    requires |p| <= 125 && |p| != 1
    ensures Judge(PopulateCloseInfo(p)) == Fine <==> PassesClose(p)
  {
    hide Utf8.WellFormed, FromBe16, BadCloseCode;
    if |p| >= 2 {
      ReasonIsTail(p);
    }
  }

  /** The reason kept in close_info is the rest of the payload up to its first NUL. */
  lemma ReasonIsTail(p: seq<byte>)
    requires 2 <= |p| <= 125
    ensures CString(PopulateCloseInfo(p).value.reason) == UpToNul(p[2..])
  {
    var tail := p[2..];
    var n := |UpToNul(tail)|;
    var buffer := PopulateCloseInfo(p).value.reason;
    assert buffer[..n] == tail[..n];
    assert n < |tail| ==> buffer[n] == tail[n];
    UpToNulIs(buffer, n);
  }

  /** A control frame fails exactly when it does not pass, and then with 1002; a passing ping or pong keeps the
      client running. */
  lemma ControlStep(l: Link, f: WsFrame)
    requires Running(l) && IsControl(f.head)
    ensures var l1 := OnControl(l, f).0;
            if |f.payload| <= 125 && (Opcode(f.head) == OP_CLOSE ==> PassesClose(f.payload))
            then !l1.Ended() && (Opcode(f.head) != OP_CLOSE ==> Running(l1))
            else Failed(l, l1, CLOSE_PROTOCOL_ERROR)
  {
    hide Error, EncodeFrame, OnCloseFrame, PassesClose;
    var l0 := l.(controls := l.controls + [f]);
    ErrorFails(l0, CLOSE_PROTOCOL_ERROR);
    ErrorFails(l0.(shouldClose := true), CLOSE_PROTOCOL_ERROR);
    if |f.payload| <= 125 && Opcode(f.head) == OP_CLOSE {
      CloseStep(l0, f.payload);
    }
  }

  lemma CloseStep(l: Link, p: seq<byte>)
    requires Running(l) && |p| <= 125
    ensures var l1 := OnCloseFrame(l, p).0;
            if PassesClose(p) then !l1.Ended() else Failed(l, l1, CLOSE_PROTOCOL_ERROR)
  {
    hide Error, Judge, Utf8.WellFormed, FromBe16;
    if |p| == 1 {
      ErrorFails(l.(shouldClose := true), CLOSE_PROTOCOL_ERROR);
    } else {
      CloseJudged(p);
      var l1 := l.(closeInfo := PopulateCloseInfo(p));
      ErrorFailsWithInfo(l1, CLOSE_PROTOCOL_ERROR);
      ErrorFailsWithInfo(l1.(shouldClose := true), CLOSE_PROTOCOL_ERROR);
    }
  }

  lemma ErrorFailsWithInfo(l: Link, code: uint16)
    requires Running(l.(closeInfo := None))
    ensures Failed(l, Error(l, code).0, code)
  {
    hide EncodeFrame, Be16;
    assert ClosePayload(code, []) == Be16(code);
  }

  // ---- Whole lists ----

  /** Before any close: the client runs on, and what it has assembled is the message under way. */
  ghost predicate Good(s: Session, fs: seq<WsFrame>, k: nat)
    requires k <= |fs|
  {
    Running(s.link) && s.pending == PendingAt(fs, k)
  }

  /** A frame ends the process where the table is null; otherwise it makes its client fail exactly when it does
      not pass. */
  lemma FrameStep(app: App, s: Session, fs: seq<WsFrame>, k: nat)
    requires Safety.Polite(app) && k < |fs| && Good(s, fs, k)
    ensures var s1 := Accept(app, s, fs[k]).0;
            if NullAt(fs, k) then s1.link == s.link.(crashed := true)
            else if !PassesAt(fs, k) then Failed(s.link, s1.link, ErrorCode(fs, k))
            else !s1.link.Ended() && (Opcode(fs[k].head) != OP_CLOSE ==> Good(s1, fs, k + 1))
  {
    hide Error, Deliver, OnControl, TextOk, PassesClose, PendingAt, Failed, Running, Safety.Polite;
    var f := fs[k];
    RunningFacts(s.link);
    assert s.pending.Some? == Open(fs, k) by { PendingShape(fs, k); }
    if NullAt(fs, k) {
    } else if !LegalHead(Open(fs, k), f.head) {
      FailFails(s.link);
    } else if IsControl(f.head) {
      ControlStep(s.link, f);
      PendingPastControl(fs, k);
    } else {
      ExtendedAt(fs, k, s);
      PendingPastData(fs, k, s);
      if Fin(f.head) {
        ErrorFails(s.link, CLOSE_WRONG_TYPE);
        DeliverRuns(app, s.link, Extended(s, f));
      }
    }
  }

  lemma PendingShape(fs: seq<WsFrame>, k: nat)
    requires k <= |fs|
    ensures PendingAt(fs, k).Some? == Open(fs, k)
  {
  }

  lemma RunningFacts(l: Link)
    requires Running(l)
    ensures !l.sentClose && !l.Ended()
  {
  }

  lemma FailFails(l: Link)
    requires Running(l)
    ensures Failed(l, Fail(l).0, CLOSE_PROTOCOL_ERROR)
  {
    hide Error;
    ErrorFails(l.(shouldClose := true), CLOSE_PROTOCOL_ERROR);
  }

  lemma DeliverRuns(app: App, l: Link, m: Message)
    requires Safety.Polite(app) && Running(l)
    ensures Running(Deliver(app, l, m).0) && !Deliver(app, l, m).0.Ended()
  {
    hide RunCalls, Call;
    var l1 := l.(delivered := l.delivered + [m]);
    assert Safety.NoClose(app(l1.delivered).calls);
    PoliteCallsRun(l1, app(l1.delivered).calls);
  }

  lemma {:induction false} PoliteCallsRun(l: Link, calls: seq<ApiCall>)
    requires Safety.NoClose(calls) && Running(l)
    ensures Running(RunCalls(l, calls))
    decreases |calls|
  {
    hide EncodeFrame;
    if calls != [] {
      var l1 := Call(l, calls[0]).0;
      assert !calls[0].Close? && !calls[0].CloseWithReason?;
      assert Running(l1);
      PoliteCallsRun(l1, calls[1..]);
    }
  }

  ghost predicate AllPass(fs: seq<WsFrame>, k: nat)
    requires k <= |fs|
  {
    forall j | 0 <= j < k :: PassesAt(fs, j)
  }

  predicate NoCloseBefore(fs: seq<WsFrame>, k: nat)
    requires k <= |fs|
  {
    forall j | 0 <= j < k :: Opcode(fs[j].head) != OP_CLOSE
  }

  /** Along passing frames with no close among them the client runs on. */
  lemma {:induction false} LegalRuns(app: App, s: Session, fs: seq<WsFrame>, k: nat)
    requires Safety.Polite(app) && Running(s.link) && s.pending.None? && k <= |fs|
    requires AllPass(fs, k) && NoCloseBefore(fs, k)
    ensures Good(AcceptAll(app, s, fs[..k]), fs, k)
    decreases k
  {
    hide Accept, PassesAt, Running, Safety.Polite, Start, Body, NullAt;
    if k > 0 {
      LegalRuns(app, s, fs, k - 1);
      var s1 := AcceptAll(app, s, fs[..k - 1]);
      assert fs[..k] == fs[..k - 1] + [fs[k - 1]];
      AcceptOne(app, s, fs[..k - 1], fs[k - 1]);
      RunningFacts(s1.link);
      PassesIff(fs, k - 1);
      FrameStep(app, s1, fs, k - 1);
    }
  }

  /** The first frame that is illegal and not overlooked. */
  ghost predicate FirstBad(fs: seq<WsFrame>, k: int)
  {
    0 <= k < |fs| && BadAt(fs, k) && forall j | 0 <= j < k :: !BadAt(fs, j)
  }

  lemma {:induction false} FindBad(fs: seq<WsFrame>, k: nat) returns (j: nat)
    requires k <= |fs|
    ensures j <= k && AllPass(fs, j) && (forall i | 0 <= i < j :: !BadAt(fs, i))
    ensures j < k ==> FirstBad(fs, j) && !PassesAt(fs, j)
    decreases k
  {
    if k == 0 { return 0; }
    hide PassesAt, BadAt;
    j := FindBad(fs, k - 1);
    PassesIsNotBad(fs, k - 1);
    if j == k - 1 && !BadAt(fs, k - 1) {
      j := k;
    }
  }

  lemma PassesIsNotBad(fs: seq<WsFrame>, k: nat)
    requires k < |fs|
    ensures PassesAt(fs, k) <==> !BadAt(fs, k)
  {
    PassesIff(fs, k);
    hide PassesAt, LegalAt, OverlookedAt;
  }

  /** What the first bad frame brings about. */
  ghost predicate EndsWith(l: Link, l1: Link, fs: seq<WsFrame>, k: nat)
    requires k < |fs|
  {
    if NullAt(fs, k) then l1 == l.(crashed := true) && !l1.error else Failed(l, l1, ErrorCode(fs, k))
  }

  /** The first bad frame decides how a run ends: with a call through a null pointer, nothing being sent; or with
      one close frame, 1007 for bad text and 1002 otherwise, as the last thing sent. */
  lemma FirstIllegalDecides(app: App, s: Session, fs: seq<WsFrame>, j: nat)
    requires Safety.Polite(app) && Running(s.link) && s.pending.None?
    requires FirstBad(fs, j) && NoCloseBefore(fs, j)
    ensures var l1, l2 := AcceptAll(app, s, fs[..j]).link, AcceptAll(app, s, fs).link;
            !l1.Ended() && EndsWith(l1, l2, fs, j) && l2.Ended()
    ensures var l1, l2 := AcceptAll(app, s, fs[..j]).link, AcceptAll(app, s, fs).link;
            l2.sent == if NullAt(fs, j) then l1.sent
                       else l1.sent + [WsFrame(0x88, if BadText(fs, j) then [0x03, 0xEF] else [0x03, 0xEA])]
  {
    hide PassesAt, BadAt, Accept, Running, Failed, Safety.Polite, ErrorCode;
    forall i | 0 <= i <= j ensures PassesAt(fs, i) <==> i < j { PassesIsNotBad(fs, i); }
    var s1 := AcceptAll(app, s, fs[..j]);
    LegalRuns(app, s, fs, j);
    RunningFacts(s1.link);
    FrameStep(app, s1, fs, j);
    var s2 := Accept(app, s1, fs[j]).0;
    if !NullAt(fs, j) {
      FailedFacts(s1.link, s2.link, ErrorCode(fs, j));
      FailedSends(s1.link, s2.link, fs, j);
    }
    AcceptOne(app, s, fs[..j], fs[j]);
    assert fs[..j] + [fs[j]] == fs[..j + 1] && fs[..j + 1] + fs[j + 1..] == fs;
    AcceptAllSplit(app, s, fs[..j + 1], fs[j + 1..]);
    ErrorStops(app, s2, fs[j + 1..]);
  }

  lemma FailedSends(l: Link, l1: Link, fs: seq<WsFrame>, k: nat)
    requires k < |fs| && Failed(l, l1, ErrorCode(fs, k))
    ensures l1.sent == l.sent + [WsFrame(0x88, if BadText(fs, k) then [0x03, 0xEF] else [0x03, 0xEA])]
  {
    CodeBytes();
    hide Be16, LegalHead, IsControl, Open;
  }

  lemma FailedFacts(l: Link, l1: Link, code: uint16)
    requires Failed(l, l1, code)
    ensures l1.error && !l1.crashed
  {
  }

  /** Without a bad frame a run does not end. */
  lemma NoneBad(app: App, s: Session, fs: seq<WsFrame>)
    requires Safety.Polite(app) && Running(s.link) && s.pending.None?
    requires fs != [] ==> NoCloseBefore(fs, |fs| - 1)
    requires AllPass(fs, |fs|)
    ensures !AcceptAll(app, s, fs).link.Ended()
  {
    hide PassesAt, Accept, Running, Failed, Safety.Polite, NullAt;
    if fs == [] {
      RunningFacts(s.link);
    } else {
      var n := |fs| - 1;
      LegalRuns(app, s, fs, n);
      RunningFacts(AcceptAll(app, s, fs[..n]).link);
      PassesIff(fs, n);
      FrameStep(app, AcceptAll(app, s, fs[..n]), fs, n);
    }
  }

  /** Acceptance is exactly the grammar: as long as no close came before the last frame, a run over any list
      of frames ends in the error state if and only if some frame is illegal where it stands, not overlooked, and
      the first such frame has a table entry; if it has none, and only then, the run ends in a call through a
      null pointer. */
  lemma ErrorIffIllegal(app: App, s: Session, fs: seq<WsFrame>)
    requires Safety.Polite(app) && Running(s.link) && s.pending.None?
    requires fs != [] ==> NoCloseBefore(fs, |fs| - 1)
    ensures AcceptAll(app, s, fs).link.error <==> exists k :: FirstBad(fs, k) && !NullAt(fs, k)
    ensures AcceptAll(app, s, fs).link.crashed <==> exists k :: FirstBad(fs, k) && NullAt(fs, k)
    ensures AcceptAll(app, s, fs).link.Ended() <==> exists k :: 0 <= k < |fs| && BadAt(fs, k)
  {
    hide BadAt, PassesAt, Accept, Running, Safety.Polite, NullAt, Failed;
    var j := FindBad(fs, |fs|);
    if j < |fs| {
      FirstIllegalDecides(app, s, fs, j);
      var l1, l2 := AcceptAll(app, s, fs[..j]).link, AcceptAll(app, s, fs).link;
      if !NullAt(fs, j) { FailedFacts(l1, l2, ErrorCode(fs, j)); }
    } else {
      NoneBad(app, s, fs);
    }
  }

  /** The rules themselves are enforced exactly - an error if and only if some frame is illegal - unless the first
      bad frame meets a null entry, or no frame is bad but one is overlooked. */
  lemma RulesEnforcedIff(app: App, s: Session, fs: seq<WsFrame>)
    requires Safety.Polite(app) && Running(s.link) && s.pending.None?
    requires fs != [] ==> NoCloseBefore(fs, |fs| - 1)
    ensures (AcceptAll(app, s, fs).link.error <==> exists k :: 0 <= k < |fs| && !LegalAt(fs, k)) <==>
              && !(exists k :: FirstBad(fs, k) && NullAt(fs, k))
              && ((exists k :: 0 <= k < |fs| && OverlookedAt(fs, k)) ==> exists k :: 0 <= k < |fs| && BadAt(fs, k))
  {
    hide Accept, Running, Safety.Polite, AcceptAll, LegalAt, OverlookedAt, NullAt;
    ErrorIffIllegal(app, s, fs);
    var j := FindBad(fs, |fs|);
    if j < |fs| {
      assert forall k | FirstBad(fs, k) :: k == j;
      assert !LegalAt(fs, j) && BadAt(fs, j);
    } else {
      forall k | 0 <= k < |fs| ensures OverlookedAt(fs, k) <==> !LegalAt(fs, k) {
        PassesIff(fs, k);
        assert !BadAt(fs, k);
      }
      assert !exists k :: FirstBad(fs, k);
    }
  }

  // ---- Any run, closes and all ----

  /** The run gets as far as frame `k`. */
  ghost predicate ReachedAt(app: App, s: Session, fs: seq<WsFrame>, k: int)
  {
    0 <= k < |fs| && !AcceptAll(app, s, fs[..k]).link.Ended()
  }

  /** No frame that is reached completes data after a close was sent. */
  ghost predicate NoneStuck(app: App, s: Session, fs: seq<WsFrame>)
  {
    forall k | ReachedAt(app, s, fs, k) :: !Stuck(AcceptAll(app, s, fs[..k]), fs[k])
  }

  /** As long as a run goes on, a message is under way exactly when the last data frame had FIN clear. */
  lemma {:induction false} PendingIsOpen(app: App, s: Session, fs: seq<WsFrame>, k: nat)
    requires s.pending.None? && k <= |fs| && NoneStuck(app, s, fs) && !AcceptAll(app, s, fs[..k]).link.Ended()
    ensures AcceptAll(app, s, fs[..k]).pending.Some? <==> Open(fs, k)
    decreases k
  {
    hide Accept, Stuck;
    if k > 0 {
      var s1 := AcceptAll(app, s, fs[..k - 1]);
      assert fs[..k] == fs[..k - 1] + [fs[k - 1]];
      AcceptOne(app, s, fs[..k - 1], fs[k - 1]);
      assert ReachedAt(app, s, fs, k - 1);
      PendingIsOpen(app, s, fs, k - 1);
      FrameOpens(app, s1, fs[k - 1]);
    }
  }

  lemma FrameOpens(app: App, s: Session, f: WsFrame)
    requires !Stuck(s, f) && !Accept(app, s, f).0.link.Ended()
    ensures Accept(app, s, f).0.pending.Some? <==> if IsControl(f.head) then s.pending.Some? else !Fin(f.head)
  {
    hide Error, Fail, OnControl, Deliver, TextOk;
  }

  /** A run ends in a call through a null pointer if and only if a frame it gets as far as has a first byte of
      0xF0 or more while a message is open. */
  lemma NullCallIff(app: App, s: Session, fs: seq<WsFrame>)
    requires s.pending.None? && !s.link.Ended() && NoneStuck(app, s, fs)
    ensures AcceptAll(app, s, fs).link.crashed <==> exists k :: ReachedAt(app, s, fs, k) && NullAt(fs, k)
  {
    hide Accept, NullAt, NoneStuck;
    forall k | ReachedAt(app, s, fs, k)
      ensures AcceptAll(app, s, fs[..k + 1]).link.crashed <==> NullAt(fs, k)
    {
      PendingIsOpen(app, s, fs, k);
      assert fs[..k] + [fs[k]] == fs[..k + 1];
      AcceptOne(app, s, fs[..k], fs[k]);
      NullFrame(app, AcceptAll(app, s, fs[..k]), fs, k);
    }
    forall k | ReachedAt(app, s, fs, k) && NullAt(fs, k) ensures AcceptAll(app, s, fs).link.crashed {
      assert fs[..k + 1] + fs[k + 1..] == fs;
      AcceptAllSplit(app, s, fs[..k + 1], fs[k + 1..]);
      ErrorStops(app, AcceptAll(app, s, fs[..k + 1]), fs[k + 1..]);
    }
    if AcceptAll(app, s, fs).link.crashed {
      var k := LastReached(app, s, fs);
    }
  }

  lemma NullFrame(app: App, s: Session, fs: seq<WsFrame>, k: nat)
    requires k < |fs| && !s.link.Ended() && (s.pending.Some? <==> Open(fs, k))
    ensures Accept(app, s, fs[k]).0.link.crashed <==> NullAt(fs, k)
  {
    hide Error, Fail, OnControl, Deliver, TextOk;
    assert forall m :: Deliver(app, s.link, m).0.crashed == s.link.crashed by { DeliverGoesOn(app, s.link); }
  }

  lemma DeliverGoesOn(app: App, l: Link)
    ensures forall m :: Deliver(app, l, m).0.crashed == l.crashed
  {
  }

  /** Where a run that ends does so. */
  lemma {:induction false} LastReached(app: App, s: Session, fs: seq<WsFrame>) returns (k: nat)
    requires !s.link.Ended() && AcceptAll(app, s, fs).link.Ended()
    ensures ReachedAt(app, s, fs, k) && AcceptAll(app, s, fs[..k + 1]) == AcceptAll(app, s, fs)
    decreases |fs|
  {
    hide Accept;
    var n := |fs| - 1;
    var a := fs[..n];
    if AcceptAll(app, s, a).link.Ended() {
      k := LastReached(app, s, a);
      assert a[..k] == fs[..k] && a[..k + 1] == fs[..k + 1];
    } else {
      k := n;
      assert fs[..n + 1] == fs;
    }
  }

  // ---- Inputs on which the rules are not enforced ----

  /** A close the rules forbid and the code takes: code 5000. */
  lemma HighCodePasses(app: App, s: Session)
    requires Safety.Polite(app) && Running(s.link) && s.pending.None?
    ensures var f := WsFrame(HEAD_CLOSE, Be16(5000));
            !LegalAt([f], 0) && !Accept(app, s, f).0.link.Ended()
  {
    var f := WsFrame(HEAD_CLOSE, Be16(5000));
    assert f.payload[2..] == [] && UpToNul([]) == [];
    Utf8.AutomatonIsGrammar([]);
    hide Utf8.WellFormed, Accept, Running, Failed, Safety.Polite, Be16;
    assert OverlookedClose(f.payload);
    assert OverlookedAt([f], 0);
    PassesIff([f], 0);
    assert Good(s, [f], 0);
    FrameStep(app, s, [f], 0);
  }

  /** Text the rules forbid and the code delivers: a NUL and a byte that no UTF-8 contains. */
  lemma NulTextPasses(app: App, s: Session)
    requires Safety.Polite(app) && Running(s.link) && s.pending.None?
    ensures var f := WsFrame(0x81, [0, 0xFF]);
            !LegalAt([f], 0) && !Accept(app, s, f).0.link.Ended()
  {
    var f := WsFrame(0x81, [0, 0xFF]);
    NulTextIllegal(f);
    assert Good(s, [f], 0);
    hide Accept, Running, Failed, Safety.Polite, PassesAt, LegalAt, Good;
    PassesIff([f], 0);
    FrameStep(app, s, [f], 0);
  }

  lemma NulTextIllegal(f: WsFrame)
    requires f == WsFrame(0x81, [0, 0xFF])
    ensures !LegalAt([f], 0) && PassesAt([f], 0)
  {
    Utf8.VerdictMissesTail();
    assert !IsControl(f.head) && Fin(f.head) && Opcode(f.head) == OP_TEXT && Rsv(f.head) == 0;
    Single(f);
    hide Utf8.WellFormed, Start, Body, WholeAt, Open, UpToNul;
  }

  lemma Single(f: WsFrame)
    requires !IsControl(f.head)
    ensures !Open([f], 0) && Start([f], 0) == 0 && WholeAt([f], 0) == f.payload
  {
    hide IsControl;
    assert Body([f], 0, 0) == [] && [] + f.payload == f.payload;
    assert Body([f], 0, 1) == Body([f], 0, 0) + f.payload;
  }

  /** A fragment of text, and a frame whose first byte is 0xFF. */
  const NULL_CALL: seq<WsFrame> := [WsFrame(0x01, []), WsFrame(0xFF, [])]

  /** Frames that end the process: the second finds no function in the table. */
  lemma NullCalled(app: App, s: Session)
    requires Safety.Polite(app) && Running(s.link) && s.pending.None?
    ensures AcceptAll(app, s, NULL_CALL).link.crashed && !AcceptAll(app, s, NULL_CALL).link.error
  {
    var fs := NULL_CALL;
    NullShape();
    hide Accept, Running, Failed, Safety.Polite, BadAt, AcceptAll;
    PassesIff(fs, 0);
    PassesIff(fs, 1);
    PassesIsNotBad(fs, 0);
    assert FirstBad(fs, 1) && NullAt(fs, 1);
    ErrorIffIllegal(app, s, fs);
    FirstIllegalDecides(app, s, fs, 1);
  }

  lemma NullShape()
    ensures PassesAt(NULL_CALL, 0) && NullAt(NULL_CALL, 1) && NoCloseBefore(NULL_CALL, 1)
  {
  }

  // ---- The same on bytes, in any chunks ----

  /** Any smooth stream, in any chunks, is the run over its frames. */
  lemma ChunksRun(app: App, c: Machine.Conn, chunks: seq<seq<byte>>)
    requires Machine.Ok(c) && c.Partial() == [] && Smooth(app, View(c), Flatten(chunks))
    ensures RecvAll(app, c, chunks).link == AcceptAll(app, View(c), FramesOf(Flatten(chunks))).link
  {
    hide Accept, Smooth, Decode, RecvAll;
    var bytes := Flatten(chunks);
    assert c.Partial() + bytes == bytes;
    NoFrame();
    Streaming(app, c, chunks);
    DecodeIsAcceptAll(app, View(c), bytes);
  }

  ghost predicate StartsRun(app: App, c: Machine.Conn, chunks: seq<seq<byte>>)
    requires Machine.Ok(c)
  {
    && Safety.Polite(app) && Running(c.link) && c.Partial() == [] && View(c).pending.None?
    && Smooth(app, View(c), Flatten(chunks))
  }

  lemma ChunksErrorIffIllegal(app: App, c: Machine.Conn, chunks: seq<seq<byte>>)
    requires Machine.Ok(c) && StartsRun(app, c, chunks)
    requires var fs := FramesOf(Flatten(chunks)); fs != [] ==> NoCloseBefore(fs, |fs| - 1)
    ensures var fs, l := FramesOf(Flatten(chunks)), RecvAll(app, c, chunks).link;
            && (l.error <==> exists k :: FirstBad(fs, k) && !NullAt(fs, k))
            && (l.crashed <==> exists k :: FirstBad(fs, k) && NullAt(fs, k))
  {
    hide FirstBad, NullAt, Accept, Running, Smooth, RecvAll, Safety.Polite, AcceptAll, FramesOf;
    ChunksRun(app, c, chunks);
    ErrorIffIllegal(app, View(c), FramesOf(Flatten(chunks)));
  }

  /** How the first bad frame ends the run, for bytes in any chunks. */
  lemma ChunksFirstIllegal(app: App, c: Machine.Conn, chunks: seq<seq<byte>>, j: nat)
    requires Machine.Ok(c) && StartsRun(app, c, chunks)
    requires var fs := FramesOf(Flatten(chunks)); FirstBad(fs, j) && NoCloseBefore(fs, j)
    ensures var fs := FramesOf(Flatten(chunks));
            EndsWith(AcceptAll(app, View(c), fs[..j]).link, RecvAll(app, c, chunks).link, fs, j)
  {
    hide BadAt, Accept, Running, Smooth, RecvAll, Safety.Polite, AcceptAll, FramesOf, ErrorCode, Failed, EndsWith;
    ChunksRun(app, c, chunks);
    FirstIllegalDecides(app, View(c), FramesOf(Flatten(chunks)), j);
  }

  lemma {:induction false} SmoothNoneStuck(app: App, s: Session, bytes: seq<byte>)
    requires Smooth(app, s, bytes)
    ensures NoneStuck(app, s, FramesOf(bytes))
    decreases |bytes|
  {
    assert ParseFrame(bytes).Some? ==> HeaderComplete(bytes) && FrameSize(bytes) <= |bytes|;
    hide Accept, Stuck, Complete, HeaderComplete, FrameSize, AcceptAll;
    var fs := FramesOf(bytes);
    if fs != [] && !s.link.Ended() {
      var rest := bytes[FrameSize(bytes)..];
      var s1 := Accept(app, s, fs[0]).0;
      SmoothNoneStuck(app, s1, rest);
      forall k | ReachedAt(app, s, fs, k) ensures !Stuck(AcceptAll(app, s, fs[..k]), fs[k]) {
        RunFromFirst(app, s, fs, k);
        if k > 0 { assert ReachedAt(app, s1, fs[1..], k - 1); }
      }
    } else {
      forall k | ReachedAt(app, s, fs, k) ensures false { ErrorStops(app, s, fs[..k]); }
    }
  }

  lemma RunFromFirst(app: App, s: Session, fs: seq<WsFrame>, k: nat)
    requires k < |fs| && !s.link.Ended()
    ensures AcceptAll(app, s, fs[..k]) ==
              if k == 0 then s else AcceptAll(app, Accept(app, s, fs[0]).0, fs[1..][..k - 1])
  {
    hide Accept;
    if k > 0 {
      AcceptOne(app, s, [], fs[0]);
      assert [] + [fs[0]] == [fs[0]] && fs[..k] == [fs[0]] + fs[1..][..k - 1];
      AcceptAllSplit(app, s, [fs[0]], fs[1..][..k - 1]);
    }
  }

  /** A client at a frame boundary outside a message calls a null pointer, on a smooth stream in any chunks, if and
      only if a frame it gets as far as has a first byte of 0xF0 or more while a message is open. */
  lemma ChunksNullCallIff(app: App, c: Machine.Conn, chunks: seq<seq<byte>>)
    requires Machine.Ok(c) && c.Partial() == [] && View(c).pending.None? && !c.link.Ended()
    requires Smooth(app, View(c), Flatten(chunks))
    ensures var fs := FramesOf(Flatten(chunks));
            RecvAll(app, c, chunks).link.crashed <==> exists k :: ReachedAt(app, View(c), fs, k) && NullAt(fs, k)
  {
    assert View(c).link == c.link;
    hide ReachedAt, NullAt, NoneStuck, Smooth, RecvAll, AcceptAll, FramesOf;
    ChunksRun(app, c, chunks);
    SmoothNoneStuck(app, View(c), Flatten(chunks));
    NullCallIff(app, View(c), FramesOf(Flatten(chunks)));
  }

  /** Where every run starts: the handshake leaves a client that is running, ready for a message and within
      the invariant of Safety, with the response standing before the frames to come. */
  lemma HandshakeStartsRun(response: seq<byte>)
    ensures var l := Handshaken(INITIAL, response);
            Running(l) && Safety.Inv(l) && l.out == response && l.sent == [] && !l.continuous && !l.shouldClose
  {
    assert INITIAL.sent[0..] == [];
  }
}
