// When the way a stream is cut into chunks matters: a frame function that
// returns -1 drops the rest of its chunk (src/websock.c:482-486).

module Chunking {
  import opened Bytes
  import opened Wire
  import opened Protocol
  import opened Machine
  import opened Session

  // ---- Any run ----

  /** The chunks in turn: the bytes a chunk breaks off in stand before the next one. */
  ghost function DecodeChunks(app: App, s: Session, left: seq<byte>, chunks: seq<seq<byte>>): (Session, seq<byte>)
    decreases |chunks|
  {
    if chunks == [] then (s, left)
    else
      var (s1, left1) := DecodeChunk(app, s, left + chunks[0]);
      DecodeChunks(app, s1, left1, chunks[1..])
  }

  ghost predicate CalmChunks(app: App, s: Session, left: seq<byte>, chunks: seq<seq<byte>>)
    decreases |chunks|
  {
    chunks == []
    || (&& Calm(app, s, left + chunks[0])
        && var (s1, left1) := DecodeChunk(app, s, left + chunks[0]);
           CalmChunks(app, s1, left1, chunks[1..]))
  }

  /** What any sequence of chunks does, whatever the callbacks return: the chunk decoder on each in turn. */
  lemma {:induction false} AnyRun(app: App, c: Conn, chunks: seq<seq<byte>>)
    requires Ok(c) && !c.Stalled() && CalmChunks(app, View(c), c.Partial(), chunks)
    ensures var c1 := RecvAll(app, c, chunks);
            !c1.Stalled() && (View(c1), c1.Partial()) == DecodeChunks(app, View(c), c.Partial(), chunks)
    decreases |chunks|
  {
    hide Complete, Ok, View, DecodeChunk, Calm, Recv;
    if chunks != [] {
      RecvDecodes(app, c, chunks[0], -1);
      AnyRun(app, Recv(app, c, chunks[0], -1).0, chunks[1..]);
    }
  }

  // ---- Exactly when the cutting does not matter ----

  /** No frame of the stream completes data after a close was sent. */
  ghost predicate NeverStuck(app: App, s: Session, bytes: seq<byte>)
    decreases |bytes|
  {
    s.link.Ended()
    || match ParseFrame(bytes)
       case None => true
       case Some(f) => !Stuck(s, f) && NeverStuck(app, Accept(app, s, f).0, bytes[FrameSize(bytes)..])
  }

  lemma {:induction false} NeverStuckIsCalm(app: App, s: Session, a: seq<byte>, b: seq<byte>)
    requires NeverStuck(app, s, a + b)
    ensures Calm(app, s, a)
    decreases |a|
  {
    hide Accept, Payload, PayloadLen, HeaderComplete, Stuck;
    if !s.link.Ended() && Complete(a) {
      Extend(a, b);
      var n := FrameSize(a);
      assert a + b == a[..n] + (a[n..] + b) && (a + b)[n..] == a[n..] + b;
      assert ParseFrame(a + b) == ParseFrame(a);
      NeverStuckIsCalm(app, Accept(app, s, ParseFrame(a).value).0, a[n..], b);
    }
  }

  /** When a frame returns -1 with bytes after it, those bytes are lost if they come in its chunk, be they
      all of them or all but the last. */
  lemma {:induction false} LosesTail(app: App, s: Session, bytes: seq<byte>)
    requires NeverStuck(app, s, bytes) && !Smooth(app, s, bytes)
    ensures bytes != []
    ensures var (s1, left) := DecodeChunk(app, s, bytes);
            left == [] && !s1.link.Ended() && DecodeChunk(app, s, bytes[..|bytes| - 1]) == (s1, [])
    decreases |bytes|
  {
    hide Accept, Payload, PayloadLen, HeaderComplete, Stuck;
    var f := ParseFrame(bytes).value;
    var n := FrameSize(bytes);
    var (s1, r) := Accept(app, s, f);
    var rest := bytes[n..];
    NoFrame();
    assert rest != [];
    var a, last := bytes[..|bytes| - 1], bytes[|bytes| - 1..];
    assert bytes == a + last;
    FrameInPrefix(a, last);
    assert a[n..] == rest[..|rest| - 1];
    if r != -1 || s1.link.Ended() {
      LosesTail(app, s1, rest);
    }
  }

  /** A frame that ends before the last byte is a frame without it. */
  lemma FrameInPrefix(a: seq<byte>, b: seq<byte>)
    requires Complete(a + b) && FrameSize(a + b) <= |a|
    ensures ParseFrame(a) == ParseFrame(a + b) && ParseFrame(a).Some? && FrameSize(a) == FrameSize(a + b)
  {
    var n := FrameSize(a + b);
    var raw := (a + b)[..n];
    assert a[..n] == raw && a + b == raw + (a + b)[n..] && a == raw + a[n..];
    PrefixComplete(a + b);
    Extend(raw, (a + b)[n..]);
    Extend(raw, a[n..]);
  }

  lemma PrefixComplete(s: seq<byte>)
    requires Complete(s)
    ensures Complete(s[..FrameSize(s)]) && FrameSize(s[..FrameSize(s)]) == FrameSize(s)
  {
    hide FromBe16, FromBe32, Low7;
    var raw := s[..FrameSize(s)];
    assert PayloadOffset(raw) == PayloadOffset(s);
    assert PayloadLen(raw) == PayloadLen(s);
  }

  /** Cut this way, the stream ends as the whole-stream decoder says. */
  ghost predicate AsDecoded(app: App, c: Conn, bytes: seq<byte>, chunks: seq<seq<byte>>)
    requires Ok(c)
  {
    Flatten(chunks) == bytes ==> Refines(app, c, bytes, RecvAll(app, c, chunks))
  }

  /** Every way of cutting a stream gives the state of the whole-stream decoder if and only if no frame
      function returns -1, short of an error, while bytes are still to come. */
  lemma ChunkingIff(app: App, c: Conn, bytes: seq<byte>)
    requires Ok(c) && !c.Stalled() && NeverStuck(app, View(c), c.Partial() + bytes)
    ensures (forall chunks :: AsDecoded(app, c, bytes, chunks)) <==> Smooth(app, View(c), c.Partial() + bytes)
  {
    hide Smooth, Ok, View, Refines, RecvAll, NeverStuck;
    if Smooth(app, View(c), c.Partial() + bytes) {
      forall chunks ensures AsDecoded(app, c, bytes, chunks) {
        if Flatten(chunks) == bytes { Streaming(app, c, chunks); }
      }
    } else {
      var one, two := CutsDiffer(app, c, bytes);
      assert !(AsDecoded(app, c, bytes, one) && AsDecoded(app, c, bytes, two));
    }
  }

  /** Two ways of cutting that end differently: in one chunk, and with the last byte apart. */
  lemma CutsDiffer(app: App, c: Conn, bytes: seq<byte>) returns (one: seq<seq<byte>>, two: seq<seq<byte>>)
    requires Ok(c) && !c.Stalled() && NeverStuck(app, View(c), c.Partial() + bytes)
    requires !Smooth(app, View(c), c.Partial() + bytes)
    ensures Flatten(one) == Flatten(two) == bytes
    ensures !(Refines(app, c, bytes, RecvAll(app, c, one)) && Refines(app, c, bytes, RecvAll(app, c, two)))
  {
    HasBytes(app, c, bytes);
    hide Smooth, Ok, View, RecvAll, NeverStuck, Decode, CalmChunks, DecodeChunks;
    var a, last := bytes[..|bytes| - 1], bytes[|bytes| - 1..];
    one, two := [bytes], [a, last];
    assert two[1..] == [last] && Flatten([last]) == last + [] && Flatten(two) == a + Flatten([last]);
    assert bytes == a + last;
    CutsDecode(app, View(c), c.Partial(), a, last);
    AnyRun(app, c, one);
    AnyRun(app, c, two);
  }

  lemma CutsDecode(app: App, s: Session, left: seq<byte>, a: seq<byte>, last: seq<byte>)
    requires |last| == 1 && NeverStuck(app, s, left + (a + last)) && !Smooth(app, s, left + (a + last))
    ensures CalmChunks(app, s, left, [a + last]) && CalmChunks(app, s, left, [a, last])
    ensures DecodeChunks(app, s, left, [a + last]).1 == [] && DecodeChunks(app, s, left, [a, last]).1 == last
  {
    hide Smooth, NeverStuck, DecodeChunk, Calm;
    var stream := left + (a + last);
    assert stream + [] == stream && left + a + last == stream && stream[..|stream| - 1] == left + a;
    LosesTail(app, s, stream);
    NeverStuckIsCalm(app, s, stream, []);
    NeverStuckIsCalm(app, s, left + a, last);
    OneByteWaits(app, DecodeChunk(app, s, stream).0, last);
    assert [] + last == last && [a, last][1..] == [last];
    LastChunk(app, s, left, a + last);
    LastChunk(app, DecodeChunk(app, s, stream).0, [], last);
  }

  lemma LastChunk(app: App, s: Session, left: seq<byte>, chunk: seq<byte>)
    ensures DecodeChunks(app, s, left, [chunk]) == DecodeChunk(app, s, left + chunk)
    ensures CalmChunks(app, s, left, [chunk]) == Calm(app, s, left + chunk)
  {
    hide DecodeChunk, Calm;
    assert [chunk][1..] == [];
  }

  lemma HasBytes(app: App, c: Conn, bytes: seq<byte>)
    requires Ok(c) && !c.Stalled() && !Smooth(app, View(c), c.Partial() + bytes)
    ensures bytes != []
  {
    assert bytes == [] ==> c.Partial() + bytes == c.Partial();
  }

  lemma OneByteWaits(app: App, s: Session, bytes: seq<byte>)
    requires |bytes| == 1 && !s.link.Ended()
    ensures Calm(app, s, bytes) && DecodeChunk(app, s, bytes) == (s, bytes)
  {
  }

  /** Two chunks of which the first breaks off nowhere. */
  lemma TwoChunks(app: App, c: Conn, a: seq<byte>, b: seq<byte>)
    requires Ok(c) && !c.Stalled() && c.Partial() == [] && Calm(app, View(c), a)
    requires var (s1, left) := DecodeChunk(app, View(c), a); left == [] && Calm(app, s1, b)
    ensures View(RecvAll(app, c, [a, b])) == DecodeChunk(app, DecodeChunk(app, View(c), a).0, b).0
  {
    hide RecvAll, DecodeChunk, Calm, View, Ok;
    assert [] + a == a && [] + b == b && [a, b][1..] == [b];
    LastChunk(app, DecodeChunk(app, View(c), a).0, [], b);
    AnyRun(app, c, [a, b]);
  }

  // ---- An input on which it matters ----

  /** An application that turns every message down. */
  const REJECTING: App := ms => Reply([], -1)

  const EMPTY_BINARY: WsFrame := WsFrame(0x82, [])

  const CONNECTED: Link := Handshaken(INITIAL, [])

  lemma Rejected(s: Session)
    requires s.link.connected && !s.link.Ended() && !s.link.sentClose && s.pending.None?
    ensures Accept(REJECTING, s, EMPTY_BINARY)
         == (s.(link := s.link.(delivered := s.link.delivered + [Message(OP_BINARY, [])])), -1)
    ensures !Stuck(s, EMPTY_BINARY)
  {
  }

  /** Two empty messages to an application that returns -1: in one chunk the second is lost, in two it is not. */
  lemma ChunkingMatters()
    ensures var m := ClientFrame(EMPTY_BINARY, [0, 0, 0, 0], true);
            var c := Conn(CONNECTED, false, []);
            && |RecvAll(REJECTING, c, [m + m]).link.delivered| == 1
            && |RecvAll(REJECTING, c, [m, m]).link.delivered| == 2
  {
    var m := ClientFrame(EMPTY_BINARY, [0, 0, 0, 0], true);
    var c := Conn(CONNECTED, false, []);
    var s := View(c);
    var s1 := Accept(REJECTING, s, EMPTY_BINARY).0;
    NoFrame();
    hide RecvAll, ClientFrame, Accept, Complete, FrameSize, DecodeChunk, Calm;
    MessageChunk(s, m);
    Rejected(s);
    MessageChunk(s, []);
    Rejected(s1);
    MessageChunk(s1, []);
    assert [m, m][1..] == [m] && [] + m == m && [] + (m + m) == m + m && m + [] == m;
    LastChunk(REJECTING, s, [], m + m);
    LastChunk(REJECTING, s1, [], m);
    AnyRun(REJECTING, c, [m + m]);
    AnyRun(REJECTING, c, [m, m]);
  }

  /** A chunk that begins with such a message ends with it. */
  lemma MessageChunk(s: Session, rest: seq<byte>)
    requires s.link.connected && !s.link.Ended() && !s.link.sentClose && s.pending.None?
    ensures var m := ClientFrame(EMPTY_BINARY, [0, 0, 0, 0], true);
            && DecodeChunk(REJECTING, s, m + rest) == (Accept(REJECTING, s, EMPTY_BINARY).0, [])
            && Calm(REJECTING, s, m + rest)
  {
    hide ClientFrame, Accept, Complete, FrameSize, Stuck;
    DecodeClientFrame(EMPTY_BINARY, [0, 0, 0, 0], true, rest);
    Rejected(s);
  }
}
