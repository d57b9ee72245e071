// Frames on the wire (section 5.2 of RFC 6455): the masked frames the decoder
// reads and the unmasked frames the encoder writes.

module Wire {
  import opened Bytes

  const OP_CONTINUE: byte := 0x0
  const OP_TEXT: byte := 0x1
  const OP_BINARY: byte := 0x2
  const OP_CLOSE: byte := 0x8
  const OP_PING: byte := 0x9
  const OP_PONG: byte := 0xA

  /** The longest payload libwebsock_make_fragment accepts. */
  const MAX_PAYLOAD: int := 0xFFFF_FFF0

  /** A frame without its length and mask: the FIN/RSV/opcode byte and the clear payload. */
  datatype WsFrame = WsFrame(head: byte, payload: seq<byte>)

  predicate Fin(head: byte) { head & 0x80 == 0x80 }

  function Rsv(head: byte): byte { head & 0x70 }

  function Opcode(head: byte): byte { head & 0x0F }

  // ---- Masked frames, as the decoder reads them ----

  function Low7(b: byte): (n: int)
    ensures 0 <= n <= 127
  {
    (b & 0x7F) as int
  }

  function ShortLen(raw: seq<byte>): (n: int)
    requires |raw| >= 2
    ensures 0 <= n <= 127
  {
    Low7(raw[1])
  }

  function MaskOffset(raw: seq<byte>): (n: nat)
    requires |raw| >= 2
  {
    if ShortLen(raw) == 126 then 4 else if ShortLen(raw) == 127 then 10 else 2
  }

  function PayloadOffset(raw: seq<byte>): (n: nat)
    requires |raw| >= 2
  {
    MaskOffset(raw) + 4
  }

  /** The length field; of a 64-bit length only the low word is read. */
  function PayloadLen(raw: seq<byte>): (n: nat)
    requires |raw| >= 2 && |raw| >= MaskOffset(raw)
  {
    if ShortLen(raw) == 126 then FromBe16(raw[2], raw[3])
    else if ShortLen(raw) == 127 then FromBe32(raw[6], raw[7], raw[8], raw[9])
    else ShortLen(raw)
  }

  predicate HeaderComplete(raw: seq<byte>)
  {
    |raw| >= 2 && |raw| >= PayloadOffset(raw)
  }

  function FrameSize(raw: seq<byte>): (n: nat)
    requires HeaderComplete(raw)
    ensures n >= 6
  {
    PayloadOffset(raw) + PayloadLen(raw)
  }

  predicate Complete(raw: seq<byte>)
  {
    HeaderComplete(raw) && |raw| >= FrameSize(raw)
  }

  function Key(raw: seq<byte>): (k: seq<byte>)
    requires HeaderComplete(raw)
    ensures |k| == 4
  {
    raw[MaskOffset(raw)..PayloadOffset(raw)]
  }

  function Payload(raw: seq<byte>): (p: seq<byte>)
    requires Complete(raw)
    ensures |p| == PayloadLen(raw)
  {
    Unmask(Key(raw), raw[PayloadOffset(raw)..FrameSize(raw)])
  }

  /** The first frame of a byte stream, if it is all there. */
  function ParseFrame(bytes: seq<byte>): Option<WsFrame>
  {
    if Complete(bytes) then Some(WsFrame(bytes[0], Payload(bytes))) else None
  }

  /** What a prefix says about its frame does not change as more bytes arrive. */
  lemma Extend(raw: seq<byte>, more: seq<byte>)
    ensures |raw| >= 2 ==> PayloadOffset(raw + more) == PayloadOffset(raw)
    ensures |raw| >= 2 && |raw| >= MaskOffset(raw) ==> PayloadLen(raw + more) == PayloadLen(raw)
    ensures HeaderComplete(raw) ==> HeaderComplete(raw + more) && Key(raw + more) == Key(raw)
    ensures HeaderComplete(raw) ==> FrameSize(raw + more) == FrameSize(raw)
    ensures Complete(raw) ==> Complete(raw + more) && Payload(raw + more) == Payload(raw)
  {
    hide FromBe16, FromBe32;
    var all := raw + more;
    if |raw| >= 2 {
      assert all[1] == raw[1];
      if |raw| >= MaskOffset(raw) {
        assert forall i | 0 <= i < MaskOffset(raw) :: all[i] == raw[i];
      }
      if HeaderComplete(raw) {
        assert all[MaskOffset(raw)..PayloadOffset(raw)] == raw[MaskOffset(raw)..PayloadOffset(raw)];
        if Complete(raw) {
          assert all[PayloadOffset(raw)..FrameSize(raw)] == raw[PayloadOffset(raw)..FrameSize(raw)];
        }
      }
    }
  }

  /** The header is a function of the bytes before the payload. */
  lemma SameHeader(a: seq<byte>, b: seq<byte>)
    requires HeaderComplete(a) && |a| == |b| && a[..PayloadOffset(a)] == b[..PayloadOffset(a)]
    ensures HeaderComplete(b) && b[0] == a[0] && ShortLen(b) == ShortLen(a) && MaskOffset(b) == MaskOffset(a)
    ensures PayloadLen(b) == PayloadLen(a) && FrameSize(b) == FrameSize(a) && Key(b) == Key(a)
  {
    hide FromBe16, FromBe32;
    var head := a[..PayloadOffset(a)];
    Extend(head, a[PayloadOffset(a)..]);
    Extend(head, b[PayloadOffset(a)..]);
    assert a == head + a[PayloadOffset(a)..] && b == head + b[PayloadOffset(a)..];
  }

  /** Octet i of the payload is unmasked with octet i modulo 4 of the key (section 5.3). */
  lemma PayloadAt(raw: seq<byte>, i: nat)
    requires Complete(raw) && i < PayloadLen(raw)
    ensures Payload(raw)[i] == raw[PayloadOffset(raw) + i] ^ raw[MaskOffset(raw) + i % 4]
  {
    hide FromBe16, FromBe32;
  }

  /** Section 5.2's length: all eight bytes of the longest form count. */
  function RfcPayloadLen(raw: seq<byte>): (n: nat)
    requires |raw| >= 2 && |raw| >= MaskOffset(raw)
  {
    if ShortLen(raw) == 127
    then FromBe32(raw[2], raw[3], raw[4], raw[5]) * 0x1_0000_0000 + FromBe32(raw[6], raw[7], raw[8], raw[9])
    else PayloadLen(raw)
  }

  /** The decoder reads the length the peer wrote exactly when the high word is zero. */
  lemma LengthReadIff(raw: seq<byte>)
    requires |raw| >= 2 && |raw| >= MaskOffset(raw)
    ensures PayloadLen(raw) == RfcPayloadLen(raw)
       <==> (ShortLen(raw) == 127 ==> raw[2] == raw[3] == raw[4] == raw[5] == 0)
  {
    if ShortLen(raw) == 127 {
      ZeroBe16(raw[2], raw[3]);
      ZeroBe16(raw[4], raw[5]);
    }
  }

  lemma ZeroBe16(hi: byte, lo: byte)
    ensures FromBe16(hi, lo) == 0 <==> hi == 0 && lo == 0
  {
    assert (hi as int) as byte == hi && (lo as int) as byte == lo;
  }

  // ---- Unmasked frames, as the encoder writes them ----

  function LengthField(len: int): (s: seq<byte>)
    requires 0 <= len <= MAX_PAYLOAD
    ensures |s| == if len <= 125 then 1 else if len <= 0xFFFF then 3 else 9
  {
    if len <= 125 then [ToByte(len)]
    else if len <= 0xFFFF then [126] + Be16(len)
    else [127] + Be32(0) + Be32(len)
  }

  function EncodeFrame(f: WsFrame): (s: seq<byte>)
    requires |f.payload| <= MAX_PAYLOAD
  {
    [f.head] + LengthField(|f.payload|) + f.payload
  }

  predicate Encodable(fs: seq<WsFrame>)
  {
    forall i | 0 <= i < |fs| :: |fs[i].payload| <= MAX_PAYLOAD
  }

  /** The output buffer after the given frames were made, in order. */
  function EncodeAll(fs: seq<WsFrame>): (s: seq<byte>)
    requires Encodable(fs)
  {
    if fs == [] then [] else EncodeAll(fs[..|fs| - 1]) + EncodeFrame(fs[|fs| - 1])
  }

  lemma {:induction false} EncodeAllAppend(fs: seq<WsFrame>, f: WsFrame)
    requires Encodable(fs) && |f.payload| <= MAX_PAYLOAD
    ensures Encodable(fs + [f]) && EncodeAll(fs + [f]) == EncodeAll(fs) + EncodeFrame(f)
  {
    assert (fs + [f])[..|fs|] == fs;
  }

  lemma {:induction false} EncodeAllSplit(a: seq<WsFrame>, b: seq<WsFrame>)
    requires Encodable(a) && Encodable(b)
    ensures Encodable(a + b) && EncodeAll(a + b) == EncodeAll(a) + EncodeAll(b)
    decreases |b|
  {
    EncodableParts(a, b);
    hide EncodeFrame, Encodable;
    if b == [] {
      assert a + b == a;
    } else {
      hide EncodeAll;
      var b0, f := b[..|b| - 1], b[|b| - 1];
      assert b == b0 + [f];
      EncodeAllSplit(a, b0);
      EncodeOneMore(a, b0, f);
    }
  }

  lemma EncodeOneMore(a: seq<WsFrame>, b: seq<WsFrame>, f: WsFrame)
    requires Encodable(a) && Encodable(b) && Encodable(a + b) && |f.payload| <= MAX_PAYLOAD
    requires EncodeAll(a + b) == EncodeAll(a) + EncodeAll(b)
    ensures Encodable(b + [f]) && Encodable(a + (b + [f]))
    ensures EncodeAll(a + (b + [f])) == EncodeAll(a) + EncodeAll(b + [f])
  {
    hide EncodeFrame, Encodable, EncodeAll;
    assert a + (b + [f]) == (a + b) + [f];
    EncodeAllAppend(a + b, f);
    EncodeAllAppend(b, f);
  }

  lemma EncodableParts(a: seq<WsFrame>, b: seq<WsFrame>)
    requires Encodable(a) && Encodable(b)
    ensures Encodable(a + b)
    ensures b != [] ==> Encodable(b[..|b| - 1]) && |b[|b| - 1].payload| <= MAX_PAYLOAD
  {
  }

  // An independent reader of unmasked frames, following section 5.2.

  /** Where the payload starts and how long it is, by the whole 64-bit length. */
  function ServerHeader(s: seq<byte>): Option<(nat, nat)>
  {
    if |s| < 2 then None
    else if s[1] == 126 then if |s| < 4 then None else Some((4, FromBe16(s[2], s[3])))
    else if s[1] == 127 then
      if |s| < 10 then None
      else Some((10, FromBe32(s[2], s[3], s[4], s[5]) * 0x1_0000_0000 + FromBe32(s[6], s[7], s[8], s[9])))
    else Some((2, s[1] as int))
  }

  /** Section 5.2: the shortest of the three length forms must be used. */
  predicate MinimalForm(header: (nat, nat))
  {
    header.0 == if header.1 <= 125 then 2 else if header.1 <= 0xFFFF then 4 else 10
  }

  /** All frames of a complete unmasked stream; None when bytes are left over or a length is not minimal. */
  function ReadAll(s: seq<byte>): (r: Option<seq<WsFrame>>)
    decreases |s|
  {
    if s == [] then Some([])
    else
      match ServerHeader(s)
      case None => None
      case Some(h) =>
        if |s| < h.0 + h.1 || !MinimalForm(h) then None
        else
          match ReadAll(s[h.0 + h.1..])
          case None => None
          case Some(rest) => Some([WsFrame(s[0], s[h.0..h.0 + h.1])] + rest)
  }

  lemma EncodedHeader(f: WsFrame, rest: seq<byte>)
    requires |f.payload| <= MAX_PAYLOAD
    ensures var s := EncodeFrame(f) + rest;
            var h := ServerHeader(s);
            && h.Some? && MinimalForm(h.value)
            && h.value.0 + h.value.1 == |EncodeFrame(f)|
            && s[0] == f.head && s[h.value.0..h.value.0 + h.value.1] == f.payload
  {
    hide FromBe16, FromBe32, Be16, Be32, ToByte;
    var len := |f.payload|;
    var s := EncodeFrame(f) + rest;
    var field := LengthField(len);
    assert forall i | 0 <= i < |field| :: s[1 + i] == field[i];
    if 125 < len <= 0xFFFF {
      var be := Be16(len);
      assert s[2] == field[1] == be[0] && s[3] == field[2] == be[1];
    } else if len > 0xFFFF {
      var zero, be := Be32(0), Be32(len);
      assert s[2..6] == zero by { assert field[1..5] == zero; }
      assert s[6..10] == be by { assert field[5..9] == be; }
      assert s[2] == zero[0] && s[3] == zero[1] && s[4] == zero[2] && s[5] == zero[3];
      assert s[6] == be[0] && s[7] == be[1] && s[8] == be[2] && s[9] == be[3];
    } else {
      assert s[1] == field[0];
    }
  }

  lemma ReadPrepend(f: WsFrame, rest: seq<byte>, tail: seq<WsFrame>)
    requires |f.payload| <= MAX_PAYLOAD && ReadAll(rest) == Some(tail)
    ensures ReadAll(EncodeFrame(f) + rest) == Some([f] + tail)
  {
    EncodedHeader(f, rest);
    assert (EncodeFrame(f) + rest)[|EncodeFrame(f)|..] == rest;
  }

  lemma {:induction false} ReadEncoded(fs: seq<WsFrame>, rest: seq<byte>, tail: seq<WsFrame>)
    requires Encodable(fs) && ReadAll(rest) == Some(tail)
    ensures ReadAll(EncodeAll(fs) + rest) == Some(fs + tail)
  {
    hide EncodeFrame, ReadAll;
    if fs == [] {
      assert EncodeAll(fs) + rest == rest && fs + tail == tail;
    } else {
      var n := |fs| - 1;
      var last := EncodeFrame(fs[n]);
      ReadPrepend(fs[n], rest, tail);
      ReadEncoded(fs[..n], last + rest, [fs[n]] + tail);
      assert EncodeAll(fs) + rest == EncodeAll(fs[..n]) + (last + rest);
      assert fs[..n] + ([fs[n]] + tail) == fs + tail;
    }
  }

  /** The output stream is uniquely decodable: the reader recovers exactly the frames made. */
  lemma OutputDecodes(fs: seq<WsFrame>)
    requires Encodable(fs)
    ensures ReadAll(EncodeAll(fs)) == Some(fs)
  {
    assert ReadAll([]) == Some([]);
    ReadEncoded(fs, [], []);
    assert EncodeAll(fs) + [] == EncodeAll(fs) && fs + [] == fs;
  }

  // ---- From encoder to decoder ----

  /** A frame as a client sends it: the encoder's bytes with a key at the payload offset and the payload
      masked; `bit` is the MASK bit, which the decoder ignores. */
  function ClientFrame(f: WsFrame, key: seq<byte>, bit: bool): (s: seq<byte>)
    requires |f.payload| <= MAX_PAYLOAD && |key| == 4
  {
    var field := LengthField(|f.payload|);
    var first := if bit then field[0] | 0x80 else field[0];
    [f.head, first] + field[1..] + key + Unmask(key, f.payload)
  }

  /** The same from the encoder's bytes alone: `h` is where their payload starts. */
  function Masked(e: seq<byte>, h: nat, key: seq<byte>, bit: bool): seq<byte>
    requires 2 <= h <= |e| && |key| == 4
  {
    [e[0], if bit then e[1] | 0x80 else e[1]] + e[2..h] + key + Unmask(key, e[h..])
  }

  /** ... and masked with it: in a client's frame the key stands before the payload, and octet i is masked with
      octet i modulo 4 of the key. */
  lemma ClientFrameAt(f: WsFrame, key: seq<byte>, bit: bool, i: nat)
    requires |f.payload| <= MAX_PAYLOAD && |key| == 4 && i < |f.payload|
    ensures var s := ClientFrame(f, key, bit);
            var n := |s| - |f.payload|;
            n >= 6 && s[n - 4..n] == key && s[n + i] == f.payload[i] ^ key[i % 4]
  {
    hide LengthField;
    var s, field := ClientFrame(f, key, bit), LengthField(|f.payload|);
    assert s[1 + |field|..5 + |field|] == key;
    assert s[5 + |field|..] == Unmask(key, f.payload);
  }

  lemma HeaderStays(s: seq<byte>, rest: seq<byte>)
    requires ServerHeader(s).Some?
    ensures ServerHeader(s + rest) == ServerHeader(s)
  {
    hide FromBe16, FromBe32;
    assert forall i | 0 <= i < |s| :: (s + rest)[i] == s[i];
  }

  lemma ClientFrameIsMasked(f: WsFrame, key: seq<byte>, bit: bool)
    requires |f.payload| <= MAX_PAYLOAD && |key| == 4
    ensures var e := EncodeFrame(f);
            var h := ServerHeader(e);
            h.Some? && h.value.0 + h.value.1 == |e| && ClientFrame(f, key, bit) == Masked(e, h.value.0, key, bit)
  {
    EncodedHeader(f, []);
    assert EncodeFrame(f) + [] == EncodeFrame(f);
    hide ServerHeader;
    MaskedAt(f, key, bit, ServerHeader(EncodeFrame(f)).value.0);
  }

  lemma MaskedAt(f: WsFrame, key: seq<byte>, bit: bool, h: nat)
    requires |f.payload| <= MAX_PAYLOAD && |key| == 4 && h == |EncodeFrame(f)| - |f.payload|
    ensures 2 <= h && ClientFrame(f, key, bit) == Masked(EncodeFrame(f), h, key, bit)
  {
    hide LengthField, Unmask;
    var e, field := EncodeFrame(f), LengthField(|f.payload|);
    assert h == 1 + |field|;
    assert e[2..h] == field[1..] && e[h..] == f.payload && e[1] == field[0];
  }

  lemma LowBits(n: int, b: byte)
    requires 0 <= n <= 127 && b == ToByte(n)
    ensures ((b | 0x80) & 0x7F) as int == n && (b & 0x7F) as int == n
  {
    assert b as int == n;
    assert b < 128;
    assert (b | 0x80) & 0x7F == b && b & 0x7F == b;
  }

  /** The header of a client frame, byte by byte. */
  lemma ClientHeader(f: WsFrame, key: seq<byte>, bit: bool)
    requires |f.payload| <= MAX_PAYLOAD && |key| == 4
    ensures var s := ClientFrame(f, key, bit);
            HeaderComplete(s) && s[0] == f.head && Key(s) == key && FrameSize(s) == |s|
            && PayloadLen(s) == RfcPayloadLen(s) == |f.payload|
  {
    hide FromBe16, FromBe32, Be16, Be32, ToByte, Unmask;
    var len := |f.payload|;
    var s := ClientFrame(f, key, bit);
    var field := LengthField(len);
    LowBits(if len <= 125 then len else if len <= 0xFFFF then 126 else 127, field[0]);
    assert s[1] == if bit then field[0] | 0x80 else field[0];
    assert forall i | 1 <= i < |field| :: s[1 + i] == field[i];
    if 125 < len <= 0xFFFF {
      var be := Be16(len);
      assert s[2] == field[1] == be[0] && s[3] == field[2] == be[1];
    } else if len > 0xFFFF {
      var zero, be := Be32(0), Be32(len);
      assert field[1..5] == zero && field[5..9] == be;
      assert s[2] == zero[0] && s[3] == zero[1] && s[4] == zero[2] && s[5] == zero[3];
      assert s[6] == be[0] && s[7] == be[1] && s[8] == be[2] && s[9] == be[3];
    }
    assert MaskOffset(s) == 1 + |field|;
    assert s[1 + |field|..5 + |field|] == key;
  }

  /** Round trip: what the encoder writes and a client masks, the decoder reads back, whatever follows. */
  lemma DecodeClientFrame(f: WsFrame, key: seq<byte>, bit: bool, rest: seq<byte>)
    requires |f.payload| <= MAX_PAYLOAD && |key| == 4
    ensures var s := ClientFrame(f, key, bit);
            Complete(s + rest) && FrameSize(s + rest) == |s| && ParseFrame(s + rest) == Some(f)
  {
    var s := ClientFrame(f, key, bit);
    ClientHeader(f, key, bit);
    assert s[PayloadOffset(s)..FrameSize(s)] == Unmask(key, f.payload);
    UnmaskInvolution(key, f.payload);
    Extend(s, rest);
  }

  // ---- The examples of section 5.7 of RFC 6455 ----

  const HELLO: seq<byte> := [0x48, 0x65, 0x6C, 0x6C, 0x6F]

  /** A single-frame unmasked text message, its two fragments, and the headers of 256 bytes and 64KiB. */
  lemma EncodedExamples(k: seq<byte>, m: seq<byte>)
    requires |k| == 256 && |m| == 65536
    ensures EncodeFrame(WsFrame(0x81, HELLO)) == [0x81, 0x05, 0x48, 0x65, 0x6C, 0x6C, 0x6F]
    ensures EncodeFrame(WsFrame(0x01, [0x48, 0x65, 0x6C])) == [0x01, 0x03, 0x48, 0x65, 0x6C]
    ensures EncodeFrame(WsFrame(0x80, [0x6C, 0x6F])) == [0x80, 0x02, 0x6C, 0x6F]
    ensures EncodeFrame(WsFrame(0x82, k)) == [0x82, 0x7E, 0x01, 0x00] + k
    ensures EncodeFrame(WsFrame(0x82, m)) == [0x82, 0x7F, 0x00, 0x00, 0x00, 0x00, 0x00, 0x01, 0x00, 0x00] + m
  {
    Fields();
    hide LengthField;
  }

  lemma Fields()
    ensures LengthField(5) == [0x05] && LengthField(3) == [0x03] && LengthField(2) == [0x02]
    ensures LengthField(256) == [0x7E, 0x01, 0x00]
    ensures LengthField(65536) == [0x7F, 0x00, 0x00, 0x00, 0x00, 0x00, 0x01, 0x00, 0x00]
  {
    LowFields();
    Field16();
    Field64();
    hide ToByte, Be16, Be32;
  }

  lemma Field16()
    ensures LengthField(256) == [0x7E, 0x01, 0x00]
  {
    LowFields();
    Be16Is(256, 1, 0);
    hide Be16, Be32, ToByte, FromBe16;
  }

  lemma Field64()
    ensures LengthField(65536) == [0x7F, 0x00, 0x00, 0x00, 0x00, 0x00, 0x01, 0x00, 0x00]
  {
    LowFields();
    Words64();
    hide Be16, Be32, ToByte, FromBe16;
  }

  lemma Words64()
    ensures Be32(0) == [0, 0, 0, 0] && Be32(65536) == [0, 1, 0, 0]
  {
    LowFields();
    Be16Is(0, 0, 0);
    Be16Is(1, 0, 1);
    WordIs(0, 0, 0);
    WordIs(65536, 1, 0);
    hide Be16, Be32, ToByte, FromBe16, FromBe32;
  }

  lemma WordIs(n: int, hi: int, lo: int)
    requires 0 <= hi < 0x1_0000 && 0 <= lo < 0x1_0000 && n == hi * 0x1_0000 + lo
    ensures Be32(n) == Be16(hi) + Be16(lo)
  {
    hide Be16, FromBe16;
    assert n / 0x1_0000 == hi && n % 0x1_0000 == lo;
  }

  lemma LowFields()
    ensures ToByte(5) == 0x05 && ToByte(3) == 0x03 && ToByte(2) == 0x02
    ensures FromBe16(0, 0) == 0 && FromBe16(0, 1) == 1 && FromBe16(1, 0) == 256
  {
  }

  /** A single-frame masked text message, and the masked reply to a ping. */
  lemma MaskedExamples()
    ensures ParseFrame([0x81, 0x85, 0x37, 0xFA, 0x21, 0x3D, 0x7F, 0x9F, 0x4D, 0x51, 0x58]) == Some(WsFrame(0x81, HELLO))
    ensures ParseFrame([0x8A, 0x85, 0x37, 0xFA, 0x21, 0x3D, 0x7F, 0x9F, 0x4D, 0x51, 0x58]) == Some(WsFrame(0x8A, HELLO))
  {
    MaskedHello(0x81);
    MaskedHello(0x8A);
  }

  lemma MaskedHello(head: byte)
    ensures ParseFrame([head, 0x85, 0x37, 0xFA, 0x21, 0x3D, 0x7F, 0x9F, 0x4D, 0x51, 0x58]) == Some(WsFrame(head, HELLO))
  {
    var raw: seq<byte> := [head, 0x85, 0x37, 0xFA, 0x21, 0x3D, 0x7F, 0x9F, 0x4D, 0x51, 0x58];
    assert Low7(0x85) == 5;
    hide Low7, Unmask;
    assert Complete(raw) && PayloadLen(raw) == 5 && PayloadOffset(raw) == 6 && MaskOffset(raw) == 2;
    PayloadAt(raw, 0);
    PayloadAt(raw, 1);
    PayloadAt(raw, 2);
    PayloadAt(raw, 3);
    PayloadAt(raw, 4);
    assert Payload(raw) == HELLO;
  }
}
