// The accept key of libwebsock_populate_handshake: base64(SHA-1(key ++ GUID))
// of section 4.2.2 of RFC 6455, computed through a hexadecimal detour.

module Handshake {
  import opened Bytes
  import Base64
  import Sha1

  /** GID, in ASCII: 258EAFA5-E914-47DA-95CA-C5AB0DC85B11. */
  const GUID: seq<byte> :=
    [50, 53, 56, 69, 65, 70, 65, 53, 45, 69, 57, 49] +
    [52, 45, 52, 55, 68, 65, 45, 57, 53, 67, 65, 45] +
    [67, 53, 65, 66, 48, 68, 67, 56, 53, 66, 49, 49]

  // ---- Words as bytes, and as hexadecimal ----

  /** Byte `k` of a word, most significant first. */
  function ByteAt(w: bv32, k: nat): byte
    requires k < 4
  {
    if k == 0 then (w >> 24) as byte
    else if k == 1 then ((w >> 16) & 0xFF) as byte
    else if k == 2 then ((w >> 8) & 0xFF) as byte
    else (w & 0xFF) as byte
  }

  function WordBytes(w: bv32): (s: seq<byte>)
    ensures |s| == 4
  {
    [ByteAt(w, 0), ByteAt(w, 1), ByteAt(w, 2), ByteAt(w, 3)]
  }

  /** These are the big-endian bytes by which SHA-1 reads a word. */
  lemma WordBytesInverse(w: bv32)
    ensures var s := WordBytes(w); Sha1.WordOf(s[0], s[1], s[2], s[3]) == w
  {
  }

  /** Words as bytes, in order. */
  function BytesOf(ws: seq<bv32>): (s: seq<byte>)
    ensures |s| == 4 * |ws|
  {
    if ws == [] then [] else WordBytes(ws[0]) + BytesOf(ws[1..])
  }

  function Words(d: Sha1.Sum): seq<bv32> { [d.a, d.b, d.c, d.d, d.e] }

  function DigestBytes(d: Sha1.Sum): (s: seq<byte>)
    ensures |s| == 20
  {
    BytesOf(Words(d))
  }

  function HexDigit(n: byte): char
    requires n < 16
  {
    if n == 0 then '0'
    else if n == 1 then '1'
    else if n == 2 then '2'
    else if n == 3 then '3'
    else if n == 4 then '4'
    else if n == 5 then '5'
    else if n == 6 then '6'
    else if n == 7 then '7'
    else if n == 8 then '8'
    else if n == 9 then '9'
    else if n == 10 then 'a'
    else if n == 11 then 'b'
    else if n == 12 then 'c'
    else if n == 13 then 'd'
    else if n == 14 then 'e'
    else 'f'
  }

  function HexValue(c: char): (n: byte)
    ensures n < 16
  {
    if c == '0' then 0
    else if c == '1' then 1
    else if c == '2' then 2
    else if c == '3' then 3
    else if c == '4' then 4
    else if c == '5' then 5
    else if c == '6' then 6
    else if c == '7' then 7
    else if c == '8' then 8
    else if c == '9' then 9
    else if c == 'a' then 10
    else if c == 'b' then 11
    else if c == 'c' then 12
    else if c == 'd' then 13
    else if c == 'e' then 14
    else 15
  }

  /** The two digits of byte `k`. */
  function HighDigit(w: bv32, k: nat): (n: byte)
    requires k < 4
    ensures n < 16
  {
    if k == 0 then (w >> 28) as byte
    else if k == 1 then ((w >> 20) & 0xF) as byte
    else if k == 2 then ((w >> 12) & 0xF) as byte
    else ((w >> 4) & 0xF) as byte
  }

  function LowDigit(w: bv32, k: nat): (n: byte)
    requires k < 4
    ensures n < 16
  {
    if k == 0 then ((w >> 24) & 0xF) as byte
    else if k == 1 then ((w >> 16) & 0xF) as byte
    else if k == 2 then ((w >> 8) & 0xF) as byte
    else (w & 0xF) as byte
  }

  /** %08x. */
  function Hex(w: bv32): (t: string)
    ensures |t| == 8
  {
    [HexDigit(HighDigit(w, 0)), HexDigit(LowDigit(w, 0)), HexDigit(HighDigit(w, 1)), HexDigit(LowDigit(w, 1)),
     HexDigit(HighDigit(w, 2)), HexDigit(LowDigit(w, 2)), HexDigit(HighDigit(w, 3)), HexDigit(LowDigit(w, 3))]
  }

  /** %02hhx. */
  function Scanned(hi: char, lo: char): byte
  {
    (HexValue(hi) << 4) | HexValue(lo)
  }

  lemma HexInverse(n: byte)
    requires n < 16
    ensures HexValue(HexDigit(n)) == n
  {
  }

  lemma DigitsJoin(w: bv32, k: nat)
    requires k < 4
    ensures (HighDigit(w, k) << 4) | LowDigit(w, k) == ByteAt(w, k)
  {
  }

  /** Printing a word in hexadecimal and scanning it two digits at a time gives its bytes. */
  lemma HexScans(w: bv32, k: nat)
    requires k < 4
    ensures Scanned(Hex(w)[2 * k], Hex(w)[2 * k + 1]) == WordBytes(w)[k]
  {
    hide HexDigit, HexValue, HighDigit, LowDigit, ByteAt;
    HexInverse(HighDigit(w, k));
    HexInverse(LowDigit(w, k));
    DigitsJoin(w, k);
  }

  /** Words printed one after the other. */
  function HexOf(ws: seq<bv32>): (t: string)
    ensures |t| == 8 * |ws|
  {
    if ws == [] then [] else Hex(ws[0]) + HexOf(ws[1..])
  }

  lemma {:induction false} HexOfScans(ws: seq<bv32>, n: nat)
    requires n < 4 * |ws|
    ensures Scanned(HexOf(ws)[2 * n], HexOf(ws)[2 * n + 1]) == BytesOf(ws)[n]
    decreases |ws|
  {
    hide Hex, WordBytes, Scanned;
    if n < 4 {
      HexScans(ws[0], n);
    } else {
      HexOfScans(ws[1..], n - 4);
    }
  }

  // ---- The accept key ----

  /** sizeof(concat). */
  const CONCAT: nat := 1024

  /** Section 4.2.2 of RFC 6455. */
  function AcceptKey(key: seq<byte>): string
    requires |key| + |GUID| < Sha1.MAX_BYTES
  {
    Base64.Encoded(DigestBytes(Sha1.Digest(key + GUID)))
  }

  lemma AcceptKeyLength(key: seq<byte>)
    requires |key| < CONCAT
    ensures |AcceptKey(key)| == 28
  {
    Base64.DecodeEncode(DigestBytes(Sha1.Digest(key + GUID)));
  }

  /** A client that decodes the accept key finds the digest of its own key and the GUID. */
  lemma AcceptKeyDecodes(key: seq<byte>)
    requires |key| < CONCAT
    ensures Base64.Decoded(AcceptKey(key)) == DigestBytes(Sha1.Digest(key + GUID))
  {
    Base64.DecodeEncode(DigestBytes(Sha1.Digest(key + GUID)));
  }

  /** The two strncat calls: the zeroed buffer then holds key ++ GID, and strlen finds exactly that. */
  method Concatenate(key: seq<byte>) returns (concat: array<byte>, length: nat)
    requires 0 !in key && |key| + |GUID| < CONCAT
    ensures fresh(concat) && concat.Length == CONCAT
    ensures length == |key| + |GUID| && concat[..length] == key + GUID
  {
    concat := new byte[CONCAT](_ => 0);
    forall i | 0 <= i < |key| { concat[i] := key[i]; }
    forall i | 0 <= i < |GUID| { concat[|key| + i] := GUID[i]; }
    assert concat[..|key| + |GUID|] == key + GUID;
    GuidHasNoNul();
    assert forall i | 0 <= i < |key| + |GUID| :: concat[i] == (key + GUID)[i] != 0;
    length := 0;
    while concat[length] != 0
      invariant length <= |key| + |GUID|
      decreases CONCAT - length
    {
      length := length + 1;
    }
  }

  lemma GuidHasNoNul()
    ensures 0 !in GUID
  {
  }

  /** The accept key as the handshake computes it: a C string of 28 characters at the start of base64buf. */
  method ComputeAccept(key: seq<byte>) returns (base64buf: array<char>)
    requires 0 !in key && |key| + |GUID| < CONCAT
    ensures base64buf.Length == 256
    ensures base64buf[..28] == AcceptKey(key) && base64buf[28] == '\0'
  {
    hide Sha1.Digest, Base64.Encoded, BytesOf;
    var ws := HashKey(key);
    var sha1mac := ScanDigest(ws);
    base64buf := new char[256];
    var _ := Base64.Base64Encode(sha1mac, base64buf);
  }

  // From SHA1Reset to SHA1Result.
  method HashKey(key: seq<byte>) returns (ws: seq<bv32>)
    requires 0 !in key && |key| + |GUID| < CONCAT
    ensures ws == Words(Sha1.Digest(key + GUID))
  {
    hide Sha1.Digest, Sha1.SHA1Context.Valid;
    var shactx := new Sha1.SHA1Context();
    var concat, length := Concatenate(key);
    shactx.Input(concat[..length]);
    assert shactx.message == key + GUID;
    var _ := shactx.Result();
    var digest := shactx.messageDigest;
    ws := [digest[0], digest[1], digest[2], digest[3], digest[4]];
  }

  // sprintf and the loop of sscanf calls.
  method ScanDigest(ws: seq<bv32>) returns (sha1mac: seq<byte>)
    requires |ws| == 5
    ensures sha1mac == BytesOf(ws)
  {
    hide Hex, HexOf, BytesOf, Scanned;
    var sha1buf := HexOf(ws);
    sha1mac := [];
    for n := 0 to |sha1buf| / 2
      invariant sha1mac == BytesOf(ws)[..n]
    {
      HexOfScans(ws, n);
      sha1mac := sha1mac + [Scanned(sha1buf[2 * n], sha1buf[2 * n + 1])];
    }
  }
}
