// Runs over lists of frames, and the frames in a byte stream.

module Runs {
  import opened Bytes
  import opened Wire
  import opened Protocol
  import opened Session
  import Machine

  /** The session after all the frames, or the error that stopped it. */
  ghost function AcceptAll(app: App, s: Session, fs: seq<WsFrame>): Session
  {
    if fs == [] then s
    else
      var s1 := AcceptAll(app, s, fs[..|fs| - 1]);
      if s1.link.Ended() then s1 else Accept(app, s1, fs[|fs| - 1]).0
  }

  lemma AcceptOne(app: App, s: Session, fs: seq<WsFrame>, f: WsFrame)
    ensures AcceptAll(app, s, fs + [f]) ==
              var s1 := AcceptAll(app, s, fs); if s1.link.Ended() then s1 else Accept(app, s1, f).0
  {
    assert (fs + [f])[..|fs|] == fs;
  }

  lemma {:induction false} AcceptAllSplit(app: App, s: Session, a: seq<WsFrame>, b: seq<WsFrame>)
    ensures AcceptAll(app, s, a + b) == AcceptAll(app, AcceptAll(app, s, a), b)
    decreases |b|
  {
    hide Accept;
    if b == [] {
      assert a + b == a;
    } else {
      var n := |b| - 1;
      AcceptAllSplit(app, s, a, b[..n]);
      assert a + b == (a + b[..n]) + [b[n]];
      AcceptOne(app, s, a + b[..n], b[n]);
    }
  }

  lemma {:induction false} ErrorStops(app: App, s: Session, fs: seq<WsFrame>)
    requires s.link.Ended()
    ensures AcceptAll(app, s, fs) == s
  {
    if fs != [] {
      ErrorStops(app, s, fs[..|fs| - 1]);
    }
  }

  // ---- The frames of a stream ----

  function FramesOf(bytes: seq<byte>): seq<WsFrame>
    decreases |bytes|
  {
    match ParseFrame(bytes)
    case None => []
    case Some(f) => [f] + FramesOf(bytes[FrameSize(bytes)..])
  }

  /** The stream decoder takes the frames of the stream one after the other. */
  lemma {:induction false} DecodeIsAcceptAll(app: App, s: Session, bytes: seq<byte>)
    ensures Decode(app, s, bytes).0 == AcceptAll(app, s, FramesOf(bytes))
    decreases |bytes|
  {
    hide Accept, HeaderComplete, PayloadLen, Payload;
    if s.link.Ended() {
      ErrorStops(app, s, FramesOf(bytes));
    } else if Complete(bytes) {
      var f, rest := ParseFrame(bytes).value, bytes[FrameSize(bytes)..];
      var s1 := Accept(app, s, f).0;
      DecodeIsAcceptAll(app, s1, rest);
      AcceptAllSplit(app, s, [f], FramesOf(rest));
      AcceptOne(app, s, [], f);
      assert [] + [f] == [f];
    }
  }

  // ---- Client streams ----

  /** A key and a MASK bit for each frame. */
  datatype Masking = Masking(key: seq<byte>, bit: bool)

  predicate Keyed(ms: seq<Masking>)
  {
    forall i | 0 <= i < |ms| :: |ms[i].key| == 4
  }

  /** The bytes a client sends for these frames. */
  function ClientStream(fs: seq<WsFrame>, ms: seq<Masking>): (s: seq<byte>)
    requires |fs| == |ms| && Keyed(ms) && Encodable(fs)
  {
    if fs == [] then [] else ClientFrame(fs[0], ms[0].key, ms[0].bit) + ClientStream(fs[1..], ms[1..])
  }

  /** What a client makes of the bytes an encoder left in out_data: each frame masked with its key. */
  function MaskStream(out: seq<byte>, ms: seq<Masking>): seq<byte>
    requires Keyed(ms)
    decreases |out|
  {
    match ServerHeader(out)
    case None => []
    case Some(h) =>
      if ms == [] || |out| < h.0 + h.1 then []
      else Masked(out[..h.0 + h.1], h.0, ms[0].key, ms[0].bit) + MaskStream(out[h.0 + h.1..], ms[1..])
  }

  lemma EncodeAllFirst(fs: seq<WsFrame>)
    requires Encodable(fs) && fs != []
    ensures EncodeAll(fs) == EncodeFrame(fs[0]) + EncodeAll(fs[1..])
    decreases |fs|
  {
    hide EncodeFrame;
    var n := |fs| - 1;
    if n > 0 {
      EncodeAllFirst(fs[..n]);
      assert fs[..n][1..] == fs[1..][..n - 1];
    }
  }

  /** From the bytes of the output buffer to the bytes of the client stream. */
  lemma {:induction false} MaskStreamIs(fs: seq<WsFrame>, ms: seq<Masking>)
    requires |fs| == |ms| && Keyed(ms) && Encodable(fs)
    ensures MaskStream(EncodeAll(fs), ms) == ClientStream(fs, ms)
    decreases |fs|
  {
    hide EncodeFrame, ClientFrame, ServerHeader, EncodeAll;
    if fs == [] {
      assert EncodeAll(fs) == [] by { NothingEncoded(fs); }
      NoHeader();
    } else {
      var e, rest := EncodeFrame(fs[0]), EncodeAll(fs[1..]);
      EncodeAllFirst(fs);
      ClientFrameIsMasked(fs[0], ms[0].key, ms[0].bit);
      HeaderStays(e, rest);
      assert (e + rest)[..|e|] == e && (e + rest)[|e|..] == rest;
      MaskStreamIs(fs[1..], ms[1..]);
    }
  }

  lemma NothingEncoded(fs: seq<WsFrame>)
    requires fs == []
    ensures Encodable(fs) && EncodeAll(fs) == []
  {
  }

  lemma NoHeader()
    ensures ServerHeader([]) == None
  {
  }

  /** The decoder finds in a client's stream exactly the frames the client sent, and nothing else. */
  lemma {:induction false} ClientStreamFrames(fs: seq<WsFrame>, ms: seq<Masking>)
    requires |fs| == |ms| && Keyed(ms) && Encodable(fs)
    ensures FramesOf(ClientStream(fs, ms)) == fs
    decreases |fs|
  {
    hide ClientFrame, Complete, FrameSize, HeaderComplete;
    if fs == [] {
      NoFrame();
    } else {
      var first, rest := ClientFrame(fs[0], ms[0].key, ms[0].bit), ClientStream(fs[1..], ms[1..]);
      DecodeClientFrame(fs[0], ms[0].key, ms[0].bit, rest);
      assert (first + rest)[|first|..] == rest;
      ClientStreamFrames(fs[1..], ms[1..]);
    }
  }

  /** ... and breaks off at a frame boundary. */
  lemma {:induction false} ClientStreamEnds(app: App, s: Session, fs: seq<WsFrame>, ms: seq<Masking>)
    requires |fs| == |ms| && Keyed(ms) && Encodable(fs)
    ensures Decode(app, s, ClientStream(fs, ms)).1 == []
    decreases |fs|
  {
    hide ClientFrame, Complete, FrameSize, HeaderComplete, Accept;
    if fs == [] {
      NoFrame();
    } else {
      var first, rest := ClientFrame(fs[0], ms[0].key, ms[0].bit), ClientStream(fs[1..], ms[1..]);
      DecodeClientFrame(fs[0], ms[0].key, ms[0].bit, rest);
      assert (first + rest)[|first|..] == rest;
      ClientStreamEnds(app, Accept(app, s, fs[0]).0, fs[1..], ms[1..]);
    }
  }

  /** Smooth, on a list of frames. */
  ghost predicate SmoothAll(app: App, s: Session, fs: seq<WsFrame>)
    decreases |fs|
  {
    s.link.Ended() || fs == []
    || (var (s1, r) := Accept(app, s, fs[0]);
        !Stuck(s, fs[0]) && (r == -1 && !s1.link.Ended() ==> |fs| == 1) && SmoothAll(app, s1, fs[1..]))
  }

  lemma {:induction false} ClientStreamSmooth(app: App, s: Session, fs: seq<WsFrame>, ms: seq<Masking>)
    requires |fs| == |ms| && Keyed(ms) && Encodable(fs) && SmoothAll(app, s, fs)
    ensures Smooth(app, s, ClientStream(fs, ms))
    decreases |fs|
  {
    hide ClientFrame, Complete, FrameSize, HeaderComplete, Accept, Stuck;
    if fs == [] {
      NoFrame();
    } else if !s.link.Ended() {
      var first, rest := ClientFrame(fs[0], ms[0].key, ms[0].bit), ClientStream(fs[1..], ms[1..]);
      DecodeClientFrame(fs[0], ms[0].key, ms[0].bit, rest);
      assert (first + rest)[|first|..] == rest;
      ClientStreamSmooth(app, Accept(app, s, fs[0]).0, fs[1..], ms[1..]);
    }
  }

  /** A client's stream, received in any chunks, is the run over its frames. */
  lemma StreamRuns(app: App, c: Machine.Conn, fs: seq<WsFrame>, ms: seq<Masking>, chunks: seq<seq<byte>>)
    requires Machine.Ok(c) && c.Partial() == []
    requires |fs| == |ms| && Keyed(ms) && Encodable(fs) && SmoothAll(app, View(c), fs)
    requires Flatten(chunks) == ClientStream(fs, ms)
    ensures var c1 := RecvAll(app, c, chunks);
            View(c1) == AcceptAll(app, View(c), fs) && c1.Partial() == []
  {
    hide AcceptAll, SmoothAll, RecvAll, ClientStream, Decode, Smooth, Flatten;
    var bytes := ClientStream(fs, ms);
    assert c.Partial() + bytes == bytes;
    NoFrame();
    ClientStreamSmooth(app, View(c), fs, ms);
    Streaming(app, c, chunks);
    DecodeIsAcceptAll(app, View(c), bytes);
    ClientStreamFrames(fs, ms);
    ClientStreamEnds(app, View(c), fs, ms);
  }
}
