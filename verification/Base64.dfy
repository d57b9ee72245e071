// src/base64.c: the encoder and the forgiving decoder (section 3 of RFC 3548).

module Base64 {
  import opened Bytes

  const PAD: char := '='

  // ---- The alphabet ----

  /** BASE64_CHARS[v]. */
  function CharOf(v: int): (c: char)
    requires 0 <= v < 64
    ensures CharValue(c) == v
  {
    if v < 26 then (v + 65) as char
    else if v < 52 then (v + 71) as char
    else if v < 62 then (v - 4) as char
    else if v == 62 then '+'
    else '/'
  }

  /** _base64_char_value: the place in the alphabet, or -1. */
  function CharValue(c: char): (v: int)
    ensures -1 <= v < 64
  {
    if 'A' <= c <= 'Z' then c as int - 65
    else if 'a' <= c <= 'z' then c as int - 71
    else if '0' <= c <= '9' then c as int + 4
    else if c == '+' then 62
    else if c == '/' then 63
    else -1
  }

  /** Table 1 of RFC 3548. */
  const ALPHABET: string := "ABCDEFGHIJKLMNOP" + "QRSTUVWXYZabcdef" + "ghijklmnopqrstuv" + "wxyz0123456789+/"

  lemma Row0(s: string)
    requires s == "ABCDEFGHIJKLMNOP"
    ensures forall i | 0 <= i < 16 :: CharOf(0 + i) == s[i]
  {
    assert s[0] == 'A' && s[1] == 'B' && s[2] == 'C' && s[3] == 'D' && s[4] == 'E' && s[5] == 'F';
    assert s[6] == 'G' && s[7] == 'H' && s[8] == 'I' && s[9] == 'J' && s[10] == 'K' && s[11] == 'L';
    assert s[12] == 'M' && s[13] == 'N' && s[14] == 'O' && s[15] == 'P';
  }

  lemma Row1(s: string)
    requires s == "QRSTUVWXYZabcdef"
    ensures forall i | 0 <= i < 16 :: CharOf(16 + i) == s[i]
  {
    assert s[0] == 'Q' && s[1] == 'R' && s[2] == 'S' && s[3] == 'T' && s[4] == 'U' && s[5] == 'V';
    assert s[6] == 'W' && s[7] == 'X' && s[8] == 'Y' && s[9] == 'Z' && s[10] == 'a' && s[11] == 'b';
    assert s[12] == 'c' && s[13] == 'd' && s[14] == 'e' && s[15] == 'f';
  }

  lemma Row2(s: string)
    requires s == "ghijklmnopqrstuv"
    ensures forall i | 0 <= i < 16 :: CharOf(32 + i) == s[i]
  {
    assert s[0] == 'g' && s[1] == 'h' && s[2] == 'i' && s[3] == 'j' && s[4] == 'k' && s[5] == 'l';
    assert s[6] == 'm' && s[7] == 'n' && s[8] == 'o' && s[9] == 'p' && s[10] == 'q' && s[11] == 'r';
    assert s[12] == 's' && s[13] == 't' && s[14] == 'u' && s[15] == 'v';
  }

  lemma Row3(s: string)
    requires s == "wxyz0123456789+/"
    ensures forall i | 0 <= i < 16 :: CharOf(48 + i) == s[i]
  {
    assert s[0] == 'w' && s[1] == 'x' && s[2] == 'y' && s[3] == 'z' && s[4] == '0' && s[5] == '1';
    assert s[6] == '2' && s[7] == '3' && s[8] == '4' && s[9] == '5' && s[10] == '6' && s[11] == '7';
    assert s[12] == '8' && s[13] == '9' && s[14] == '+' && s[15] == '/';
  }

  /** The letters are those of the standard's table, in its order. */
  lemma AlphabetIs(v: int)
    requires 0 <= v < 64
    ensures |ALPHABET| == 64 && CharOf(v) == ALPHABET[v]
  {
    Row0("ABCDEFGHIJKLMNOP");
    Row1("QRSTUVWXYZabcdef");
    Row2("ghijklmnopqrstuv");
    Row3("wxyz0123456789+/");
    hide CharOf, CharValue;
  }

  /** -1 is for exactly the characters outside the table; any other value is the character's place in it. */
  lemma ValueIsPlace(c: char)
    ensures |ALPHABET| == 64 && (CharValue(c) == -1 <==> c !in ALPHABET)
    ensures CharValue(c) >= 0 ==> ALPHABET[CharValue(c)] == c
  {
    AlphabetIs(0);
    if CharValue(c) >= 0 {
      CharOfInverse(c);
      AlphabetIs(CharValue(c));
    } else if c in ALPHABET {
      hide CharOf, CharValue;
      var v :| 0 <= v < 64 && ALPHABET[v] == c;
      AlphabetIs(v);
    }
  }

  lemma CharOfInverse(c: char)
    requires CharValue(c) >= 0
    ensures CharOf(CharValue(c)) == c
  {
  }

  // ---- Encoding ----

  /** Three bytes as one 24-bit group. */
  function Group(b0: byte, b1: byte, b2: byte): (n: int)
    ensures 0 <= n < 0x100_0000
  {
    (b0 as int * 256 + b1 as int) * 256 + b2 as int
  }

  /** A 24-bit group as four 6-bit letters, most significant first. */
  function Quad(n: int): (q: string)
    requires 0 <= n < 0x100_0000
    ensures |q| == 4
  {
    [CharOf(n / 0x4_0000), CharOf(n / 0x1000 % 64), CharOf(n / 64 % 64), CharOf(n % 64)]
  }

  /** The encoding without its padding. */
  function Letters(s: seq<byte>): (t: string)
    decreases |s|
  {
    if |s| >= 3 then Quad(Group(s[0], s[1], s[2])) + Letters(s[3..])
    else if |s| == 2 then Quad(Group(s[0], s[1], 0))[..3]
    else if |s| == 1 then Quad(Group(s[0], 0, 0))[..2]
    else []
  }

  function Padding(k: nat): (t: string)
    ensures |t| == k && forall i | 0 <= i < k :: t[i] == PAD
  {
    seq(k, _ => PAD)
  }

  /** 4 * ceil(n / 3). */
  function Size(n: nat): nat
  {
    (n + 2) / 3 * 4
  }

  function Encoded(s: seq<byte>): string
  {
    Letters(s) + Padding((3 - |s| % 3) % 3)
  }

  // ---- Decoding ----

  /** A letter of the alphabet or the pad character: what the decoder does not skip. */
  predicate Counts(c: char) { c == PAD || CharValue(c) >= 0 }

  /** How many pad characters end the quadruple. */
  function Pads(q: string): (e: nat)
    requires |q| == 4
    ensures e <= 4
  {
    if q[3] != PAD then 0 else if q[2] != PAD then 1 else if q[1] != PAD then 2 else if q[0] != PAD then 3 else 4
  }

  function SixBits(c: char): (v: int)
    ensures 0 <= v < 64
  {
    if CharValue(c) < 0 then 0 else CharValue(c)
  }

  function QuadValue(q: string): (n: int)
    requires |q| == 4
    ensures 0 <= n < 0x100_0000
  {
    ((SixBits(q[0]) * 64 + SixBits(q[1])) * 64 + SixBits(q[2])) * 64 + SixBits(q[3])
  }

  function BytesOf(n: int): (s: seq<byte>)
    requires 0 <= n < 0x100_0000
    ensures |s| == 3
  {
    [ToByte(n / 0x1_0000), ToByte(n / 256 % 256), ToByte(n % 256)]
  }

  predicate Foreign(q: string, n: nat)
    requires n <= |q|
  {
    exists i | 0 <= i < n :: CharValue(q[i]) < 0
  }

  /** One quadruple: nothing if a character before the final pads is foreign, else the leading bytes. */
  function DecodedQuad(q: string): (s: seq<byte>)
    requires |q| == 4
    ensures |s| <= 3
  {
    if Foreign(q, 4 - Pads(q)) || Pads(q) >= 3 then [] else BytesOf(QuadValue(q))[..3 - Pads(q)]
  }

  function Filter(s: string): (t: string)
  {
    if s == [] then []
    else if Counts(s[0]) then [s[0]] + Filter(s[1..])
    else Filter(s[1..])
  }

  /** Quadruples are decoded as long as they give three bytes. */
  function DecodedQuads(t: string): (s: seq<byte>)
    decreases |t|
  {
    if |t| < 4 then []
    else
      var d := DecodedQuad(t[..4]);
      if |d| == 3 then d + DecodedQuads(t[4..]) else d
  }

  /** base64_decode on a C string: other characters count for nothing, and four pads are appended. */
  function Decoded(s: string): seq<byte>
  {
    DecodedQuads(Filter(s) + Padding(4))
  }

  // ---- The decoder inverts the encoder ----

  lemma QuadInverse(n: int)
    requires 0 <= n < 0x100_0000
    ensures var q := Quad(n);
            && QuadValue(q) == n && (forall i | 0 <= i < 4 :: CharValue(q[i]) >= 0)
            && CharValue(q[2]) == n / 64 % 64 && CharValue(q[3]) == n % 64
  {
    hide CharValue, CharOf;
    Sextets(n);
  }

  lemma Sextets(n: int)
    requires 0 <= n < 0x100_0000
    ensures n == ((n / 0x4_0000 * 64 + n / 0x1000 % 64) * 64 + n / 64 % 64) * 64 + n % 64
  {
    var a := n / 64;
    var b := a / 64;
    assert n / 0x1000 == b && n / 0x4_0000 == b / 64;
  }

  lemma GroupInverse(b0: byte, b1: byte, b2: byte)
    ensures BytesOf(Group(b0, b1, b2)) == [b0, b1, b2]
  {
    hide ToByte, Group;
    GroupDigits(b0, b1, b2);
    var s := BytesOf(Group(b0, b1, b2));
    SameByte(s[0], b0);
    SameByte(s[1], b1);
    SameByte(s[2], b2);
  }

  lemma GroupDigits(b0: byte, b1: byte, b2: byte)
    ensures var n := Group(b0, b1, b2);
            n / 0x1_0000 == b0 as int && n / 256 % 256 == b1 as int && n % 256 == b2 as int
  {
    Octets(b0 as int, b1 as int, b2 as int);
  }

  lemma SameByte(a: byte, b: byte)
    requires a as int == b as int
    ensures a == b
  {
    assert (a as int) as byte == a && (b as int) as byte == b;
  }

  lemma Octets(x: int, y: int, z: int)
    requires 0 <= x < 256 && 0 <= y < 256 && 0 <= z < 256
    ensures var n := (x * 256 + y) * 256 + z;
            n / 0x1_0000 == x && n / 256 % 256 == y && n % 256 == z
  {
  }

  /** A full quadruple gives back its three bytes, a padded one the bytes it stands for. */
  lemma QuadDecodes(b0: byte, b1: byte, b2: byte, n: nat)
    requires 1 <= n <= 3 && (n < 3 ==> b2 == 0) && (n < 2 ==> b1 == 0)
    ensures DecodedQuad(Quad(Group(b0, b1, b2))[..n + 1] + Padding(3 - n)) == [b0, b1, b2][..n]
  {
    var g := Group(b0, b1, b2);
    var q, r := Quad(g), Quad(g)[..n + 1] + Padding(3 - n);
    QuadInverse(g);
    GroupInverse(b0, b1, b2);
    PaddedValue(b0, b1, b2, n);
    hide CharValue, CharOf, Quad, Group, BytesOf, QuadValue, SixBits;
    assert forall i | 0 <= i <= n :: r[i] == q[i];
    PadIsForeign();
    assert Pads(r) == 3 - n;
  }

  lemma PadIsForeign()
    ensures CharValue(PAD) == -1
  {
  }

  lemma PaddedValue(b0: byte, b1: byte, b2: byte, n: nat)
    requires 1 <= n <= 3 && (n < 3 ==> b2 == 0) && (n < 2 ==> b1 == 0)
    ensures QuadValue(Quad(Group(b0, b1, b2))[..n + 1] + Padding(3 - n)) == Group(b0, b1, b2)
  {
    var g := Group(b0, b1, b2);
    var q, r := Quad(g), Quad(g)[..n + 1] + Padding(3 - n);
    QuadInverse(g);
    LowSextets(b0, b1, b2);
    PadIsForeign();
    hide CharValue, CharOf, Quad, Group;
    assert forall i | 0 <= i <= n :: r[i] == q[i];
    assert forall i | 0 <= i < 4 :: SixBits(r[i]) == SixBits(q[i]);
  }

  lemma LowSextets(b0: byte, b1: byte, b2: byte)
    ensures b2 == 0 ==> Group(b0, b1, b2) % 64 == 0
    ensures b2 == 0 && b1 == 0 ==> Group(b0, b1, b2) / 64 % 64 == 0
  {
    if b2 == 0 {
      Multiple(b0 as int * 256 + b1 as int);
      if b1 == 0 {
        assert Group(b0, b1, b2) / 64 == b0 as int * 1024;
      }
    }
  }

  lemma Multiple(m: int)
    ensures m * 256 % 64 == 0
  {
  }

  /** However many pads follow the letters, at least four, decoding stops with exactly the bytes encoded. */
  lemma {:induction false} LettersDecode(s: seq<byte>, k: nat)
    requires k >= 4
    ensures DecodedQuads(Letters(s) + Padding(k)) == s
    decreases |s|
  {
    hide Group, Quad, DecodedQuad;
    var t := Letters(s) + Padding(k);
    if |s| >= 3 {
      QuadDecodes(s[0], s[1], s[2], 3);
      LettersDecode(s[3..], k);
      var q := Quad(Group(s[0], s[1], s[2]));
      assert t[..4] == q == q[..4] + Padding(0);
      assert t[4..] == Letters(s[3..]) + Padding(k);
      assert s == [s[0], s[1], s[2]] + s[3..];
    } else if |s| == 2 {
      QuadDecodes(s[0], s[1], 0, 2);
      assert t[..4] == Quad(Group(s[0], s[1], 0))[..3] + Padding(1);
    } else if |s| == 1 {
      QuadDecodes(s[0], 0, 0, 1);
      assert t[..4] == Quad(Group(s[0], 0, 0))[..2] + Padding(2);
    } else {
      assert t[..4] == Padding(4);
      AllPads();
    }
  }

  lemma AllPads()
    ensures DecodedQuad(Padding(4)) == []
  {
    assert Pads(Padding(4)) == 4;
  }

  /** The decoder is forgiving: whatever is interspersed outside the alphabet, and however many of the pads
      are missing or extra, the letters of an encoding decode to the bytes encoded. */
  lemma DecoderForgives(u: string, s: seq<byte>, k: nat)
    requires Filter(u) == Letters(s) + Padding(k)
    ensures Decoded(u) == s
  {
    LettersDecode(s, k + 4);
    assert Filter(u) + Padding(4) == Letters(s) + Padding(k + 4);
  }

  predicate AllCount(s: string) { forall i | 0 <= i < |s| :: Counts(s[i]) }

  lemma {:induction false} FilterKeeps(s: string)
    requires AllCount(s)
    ensures Filter(s) == s
  {
    if s != [] {
      assert AllCount(s[1..]) by { assert forall i | 0 <= i < |s| - 1 :: s[1..][i] == s[i + 1]; }
      FilterKeeps(s[1..]);
    }
  }

  /** The encoding is made of letters and is two or three characters short of a quadruple exactly when
      one or two bytes are left over. */
  lemma {:induction false} LettersShape(s: seq<byte>)
    ensures |Letters(s)| + (3 - |s| % 3) % 3 == Size(|s|)
    ensures forall i | 0 <= i < |Letters(s)| :: CharValue(Letters(s)[i]) >= 0
    decreases |s|
  {
    hide CharValue, CharOf, Group, Quad, Size;
    SizeStep(|s|);
    if |s| >= 3 {
      QuadInverse(Group(s[0], s[1], s[2]));
      LettersShape(s[3..]);
    } else if |s| == 2 {
      QuadInverse(Group(s[0], s[1], 0));
    } else if |s| == 1 {
      QuadInverse(Group(s[0], 0, 0));
    }
  }

  /** Base64 inverse: decoding an encoding gives back the bytes, for every length; the encoding is
      4 * ceil(n / 3) characters of the alphabet and the pad. */
  lemma DecodeEncode(s: seq<byte>)
    ensures |Encoded(s)| == Size(|s|) && AllCount(Encoded(s))
    ensures Decoded(Encoded(s)) == s
  {
    hide CharValue;
    LettersShape(s);
    FilterKeeps(Encoded(s));
    DecoderForgives(Encoded(s), s, (3 - |s| % 3) % 3);
  }

  // ---- The encoder in place ----

  /** _base64_encode_triple: fills target[at..at + 4] from the last letter to the first. */
  method EncodeTriple(triple: seq<byte>, target: array<char>, at: nat)
    requires |triple| == 3 && at + 4 <= target.Length
    modifies target
    ensures target[at..at + 4] == Quad(Group(triple[0], triple[1], triple[2]))
    ensures target[..at] == old(target[..at]) && target[at + 4..] == old(target[at + 4..])
  {
    hide CharOf, CharValue;
    ghost var g := Group(triple[0], triple[1], triple[2]);
    var tripleValue: int := triple[0] as int;
    tripleValue := tripleValue * 256 + triple[1] as int;
    tripleValue := tripleValue * 256 + triple[2] as int;
    hide Group;
    assert tripleValue == g;
    for i := 0 to 4
      invariant 0 <= tripleValue < 0x100_0000
      invariant tripleValue == Dropped(g, i)
      invariant forall j | 0 <= j < i :: target[at + 3 - j] == CharOf(Dropped(g, j) % 64)
      invariant target[..at] == old(target[..at]) && target[at + 4..] == old(target[at + 4..])
    {
      target[at + 3 - i] := CharOf(tripleValue % 64);
      tripleValue := tripleValue / 64;
    }
    QuadDropped(g);
  }

  /** The group without its last `i` sextets. */
  function Dropped(n: int, i: nat): (r: int)
    requires 0 <= n < 0x100_0000
    ensures 0 <= r < 0x100_0000
  {
    if i == 0 then n else Dropped(n, i - 1) / 64
  }

  lemma QuadDropped(n: int)
    requires 0 <= n < 0x100_0000
    ensures Quad(n) == [CharOf(Dropped(n, 3) % 64), CharOf(Dropped(n, 2) % 64), CharOf(Dropped(n, 1) % 64), CharOf(n % 64)]
  {
    hide CharOf;
    assert Dropped(n, 1) == n / 64;
    assert Dropped(n, 2) == n / 64 / 64 == n / 0x1000;
    assert Dropped(n, 3) == n / 64 / 64 / 64 == n / 0x4_0000;
    assert n / 0x4_0000 < 64;
  }

  /** The values of a size_t. */
  const SIZE_T: int := 0x1_0000_0000_0000_0000

  /** The test of base64_encode, in which targetlen - 1 wraps at zero. */
  predicate TooSmall(n: nat, targetlen: nat)
  {
    Size(n) > (targetlen + SIZE_T - 1) % SIZE_T
  }

  /** The test refuses what does not fit, characters and terminator, exactly when the target is not empty. */
  lemma TooSmallIff(n: nat, targetlen: nat)
    requires Size(n) < SIZE_T && targetlen < SIZE_T
    ensures (TooSmall(n, targetlen) <==> Size(n) + 1 > targetlen) <==> targetlen > 0
  {
    hide Size;
    if targetlen > 0 { LessOne(targetlen); }
  }

  lemma LessOne(targetlen: nat)
    requires 0 < targetlen < SIZE_T
    ensures (targetlen + SIZE_T - 1) % SIZE_T == targetlen - 1
  {
  }

  /** An empty target is never refused, although not even the terminator fits. */
  lemma EmptyTargetPasses(n: nat)
    requires Size(n) < SIZE_T
    ensures !TooSmall(n, 0)
  {
    hide Size;
    assert (0 + SIZE_T - 1) % SIZE_T == SIZE_T - 1;
  }

  /** What comes of a call: 0 is returned, or 1, or the first write is already outside the target. */
  datatype EncodeResult = DoesNotFit | Terminated | PastTheEnd

  /** base64_encode: of a target that is not empty, refused exactly when the characters and the terminator do
      not fit; otherwise the buffer holds the encoding and a NUL, and nothing after them is touched. An empty
      target is not refused, and written past. */
  method Base64Encode(source: seq<byte>, target: array<char>) returns (r: EncodeResult)
    requires Size(|source|) < SIZE_T && target.Length < SIZE_T
    modifies target
    ensures r == PastTheEnd <==> target.Length == 0
    ensures r == DoesNotFit <==> 0 < target.Length <= Size(|source|)
    ensures r != Terminated ==> target[..] == old(target[..])
    ensures var n := Size(|source|);
            r == Terminated ==>
              target[..n] == Encoded(source) && target[n] == '\0' && target[n + 1..] == old(target[n + 1..])
  {
    TooSmallIff(|source|, target.Length);
    EmptyTargetPasses(|source|);
    if TooSmall(|source|, target.Length) {
      return DoesNotFit;
    }
    if target.Length == 0 {
      return PastTheEnd;
    }
    EncodeInto(source, target);
    return Terminated;
  }

  // The part of base64_encode after its test.
  method EncodeInto(source: seq<byte>, target: array<char>)
    requires Size(|source|) < target.Length
    modifies target
    ensures var n := Size(|source|);
            target[..n] == Encoded(source) && target[n] == '\0' && target[n + 1..] == old(target[n + 1..])
  {
    hide CharOf, CharValue, Quad, Group, Letters, Encoded, Size;
    DecodeEncode(source);
    ghost var size := Size(|source|);
    var done, at := 0, 0;
    assert source[0..] == source;
    while |source| - done >= 3
      invariant done <= |source| && at + Size(|source| - done) == size
      invariant target[..at] + Encoded(source[done..]) == Encoded(source)
      invariant target[size + 1..] == old(target[size + 1..])
    {
      ghost var before := target[..];
      SizeStep(|source| - done);
      EncodeTriple(source[done..done + 3], target, at);
      Spliced(before, target[..], at, size + 1);
      EncodedStep(source, done, before[..at], target[at..at + 4]);
      done, at := done + 3, at + 4;
    }
    SizeStep(|source| - done);
    if |source| - done > 0 {
      ghost var before := target[..];
      EncodeRest(source[done..], target, at);
      Spliced(before, target[..], at, size + 1);
      at := at + 4;
    } else {
      assert Encoded(source[done..]) == [] by { NothingEncoded(source[done..]); }
    }
    target[at] := '\0';
  }

  lemma NothingEncoded(s: seq<byte>)
    requires s == []
    ensures Encoded(s) == []
  {
  }

  lemma EncodedStep(source: seq<byte>, done: nat, prefix: string, quad: string)
    requires done + 3 <= |source| && prefix + Encoded(source[done..]) == Encoded(source)
    requires quad == Quad(Group(source[done], source[done + 1], source[done + 2]))
    ensures prefix + quad + Encoded(source[done + 3..]) == Encoded(source)
  {
    var s := source[done..];
    assert s[3..] == source[done + 3..];
    FirstQuad(s, quad);
    hide Encoded;
    assert prefix + (quad + Encoded(s[3..])) == prefix + quad + Encoded(s[3..]);
  }

  lemma FirstQuad(s: seq<byte>, quad: string)
    requires |s| >= 3 && quad == Quad(Group(s[0], s[1], s[2]))
    ensures Encoded(s) == quad + Encoded(s[3..])
  {
    hide Quad, Group;
    assert Letters(s) == quad + Letters(s[3..]);
  }

  lemma SizeStep(n: nat)
    ensures Size(n) == if n >= 3 then Size(n - 3) + 4 else if n == 0 then 0 else 4
  {
  }

  /** Four characters were written at `at`. */
  lemma Spliced(before: string, after: string, at: nat, end: nat)
    requires |before| == |after| && at + 4 <= end <= |after|
    requires after[..at] == before[..at] && after[at + 4..] == before[at + 4..]
    ensures after[..at + 4] == before[..at] + after[at..at + 4] && after[end..] == before[end..]
  {
    assert after[end..] == after[at + 4..][end - at - 4..];
  }

  /** The last one or two bytes: a quadruple whose unused letters are overwritten by pads. */
  method EncodeRest(rest: seq<byte>, target: array<char>, at: nat)
    requires 1 <= |rest| <= 2 && at + 4 <= target.Length
    modifies target
    ensures target[at..at + 4] == Encoded(rest)
    ensures target[..at] == old(target[..at]) && target[at + 4..] == old(target[at + 4..])
  {
    hide CharOf, CharValue, Quad, Group;
    var temp := rest + seq(3 - |rest|, _ => 0 as byte);
    EncodeTriple(temp, target, at);
    target[at + 3] := PAD;
    if |rest| == 1 {
      target[at + 2] := PAD;
    }
  }

  // ---- The decoder in place ----

  /** _base64_decode_triple: the checks run from the last character to the first. */
  method DecodeTriple(quadruple: string, result: array<byte>) returns (bytesToDecode: int)
    requires |quadruple| == 4 && result.Length == 3
    modifies result
    ensures 0 <= bytesToDecode <= 3 && result[..bytesToDecode] == DecodedQuad(quadruple)
  {
    hide CharValue, QuadValue, BytesOf;
    ghost var pads := Pads(quadruple);
    PadIsForeign();
    var charValue := new int[4];
    for i := 0 to 4
      invariant forall j | 0 <= j < i :: charValue[j] == CharValue(quadruple[j])
    {
      charValue[i] := CharValue(quadruple[i]);
    }
    var onlyEqualsYet := true;
    bytesToDecode := 3;
    for i := 4 downto 0
      invariant onlyEqualsYet <==> pads >= 4 - i
      invariant bytesToDecode == if pads >= 4 - i then i - 1 else 3 - pads
      invariant forall j | 0 <= j < i :: charValue[j] == CharValue(quadruple[j])
      invariant forall j | i <= j < 4 :: charValue[j] == SixBits(quadruple[j])
      invariant forall j | i <= j < 4 - pads :: CharValue(quadruple[j]) >= 0
    {
      if charValue[i] < 0 {
        if onlyEqualsYet && quadruple[i] == PAD {
          charValue[i] := 0;
          bytesToDecode := bytesToDecode - 1;
          continue;
        }
        return 0;
      }
      onlyEqualsYet := false;
    }
    if bytesToDecode < 0 {
      bytesToDecode := 0;
    }
    var tripleValue := charValue[0];
    tripleValue := tripleValue * 64 + charValue[1];
    tripleValue := tripleValue * 64 + charValue[2];
    tripleValue := tripleValue * 64 + charValue[3];
    SplitValue(quadruple, tripleValue);
    SplitBytes(tripleValue, result, bytesToDecode);
  }

  lemma SplitValue(q: string, v: int)
    requires |q| == 4 && v == ((SixBits(q[0]) * 64 + SixBits(q[1])) * 64 + SixBits(q[2])) * 64 + SixBits(q[3])
    ensures v == QuadValue(q)
  {
  }

  /** The leading bytes of the value, from the last to the first. */
  method SplitBytes(value: int, result: array<byte>, count: nat)
    requires 0 <= value < 0x100_0000 && result.Length == 3 && count <= 3
    modifies result
    ensures result[..count] == BytesOf(value)[..count]
  {
    hide BytesOf;
    var tripleValue := value;
    for i := count to 3
      invariant tripleValue == Shifted(value, i - count)
    {
      tripleValue := tripleValue / 256;
    }
    for i := count downto 0
      invariant tripleValue == Shifted(value, 3 - i)
      invariant forall j | i <= j < count :: result[j] == BytesOf(value)[j]
    {
      ByteAt(value, i);
      result[i] := ToByte(tripleValue % 256);
      tripleValue := tripleValue / 256;
    }
  }

  function Shifted(n: int, k: nat): int
  {
    if k == 0 then n else Shifted(n, k - 1) / 256
  }

  lemma ByteAt(n: int, i: nat)
    requires 0 <= n < 0x100_0000 && i < 3
    ensures BytesOf(n)[i] == ToByte(Shifted(n, 2 - i) % 256)
  {
    hide ToByte, Shifted;
    ShiftedIs(n);
  }

  lemma ShiftedIs(n: int)
    requires 0 <= n < 0x100_0000
    ensures Shifted(n, 0) == n && Shifted(n, 1) == n / 256
    ensures Shifted(n, 2) % 256 == Shifted(n, 2) == n / 0x1_0000
  {
    assert Shifted(n, 1) == n / 256;
    assert Shifted(n, 2) == n / 256 / 256 == n / 0x1_0000;
  }

  /** The characters still to be decoded at place `p` of the padded source. */
  function Pending(source: string, p: nat): string
    requires p <= |source| + 4
  {
    Filter((source + Padding(4))[p..])
  }

  lemma PendingStep(source: string, p: nat)
    requires p < |source| + 4
    ensures var c := (source + Padding(4))[p];
            Pending(source, p) == if Counts(c) then [c] + Pending(source, p + 1) else Pending(source, p + 1)
  {
    hide Counts;
    var body := source + Padding(4);
    assert body[p..][0] == body[p] && body[p..][1..] == body[p + 1..];
  }

  lemma {:induction false} FilterPadded(s: string, k: nat)
    ensures Filter(s + Padding(k)) == Filter(s) + Padding(k)
    decreases |s| + k
  {
    if s == [] {
      FilterKeeps(Padding(k));
      assert s + Padding(k) == Padding(k);
    } else {
      FilterPadded(s[1..], k);
      assert (s + Padding(k))[1..] == s[1..] + Padding(k);
    }
  }

  lemma PendingAll(source: string)
    ensures DecodedQuads(Pending(source, 0)) == Decoded(source)
  {
    FilterPadded(source, 4);
    assert (source + Padding(4))[0..] == source + Padding(4);
  }

  /** Four characters that are not skipped. The reading place never passes the appended pads: a quadruple
      that used one of them holds a pad. */
  method NextQuadruple(src: string, ghost source: string, start: nat) returns (quadruple: string, tmpptr: nat)
    requires src == source + Padding(4) + ['\0'] && start <= |source|
    ensures |quadruple| == 4 && start < tmpptr <= |source| + 4
    ensures Pending(source, start) == quadruple + Pending(source, tmpptr)
    ensures tmpptr <= |source| || PAD in quadruple
  {
    hide Pending, CharValue;
    quadruple, tmpptr := [], start;
    for i := 0 to 4
      invariant |quadruple| == i && start + i <= tmpptr <= |source| + i
      invariant Pending(source, start) == quadruple + Pending(source, tmpptr)
      invariant tmpptr <= |source| || PAD in quadruple
    {
      while src[tmpptr] != PAD && CharValue(src[tmpptr]) < 0
        invariant start + i <= tmpptr <= |source| + i
        invariant Pending(source, start) == quadruple + Pending(source, tmpptr)
        invariant tmpptr <= |source| || PAD in quadruple
        decreases |source| + 4 - tmpptr
      {
        PendingStep(source, tmpptr);
        tmpptr := tmpptr + 1;
      }
      PendingStep(source, tmpptr);
      quadruple := quadruple + [src[tmpptr]];
      tmpptr := tmpptr + 1;
    }
  }

  /** A full result comes from four letters, none of them a pad. */
  lemma FullQuad(q: string)
    requires |q| == 4 && |DecodedQuad(q)| == 3
    ensures PAD !in q
  {
    PadIsForeign();
    hide CharValue, BytesOf, QuadValue;
    assert !Foreign(q, 4);
  }

  lemma QuadsStep(q: string, rest: string)
    requires |q| == 4
    ensures DecodedQuads(q + rest)
         == if |DecodedQuad(q)| == 3 then DecodedQuad(q) + DecodedQuads(rest) else DecodedQuad(q)
  {
    hide DecodedQuad;
    assert (q + rest)[..4] == q && (q + rest)[4..] == rest;
  }

  /** base64_decode: -1 exactly when the target is too small, else the number of bytes, which are put at
      the start of the target; nothing after them is touched. It ends on every C string, as each further
      quadruple starts before the appended pads. */
  method Base64Decode(source: string, target: array<byte>) returns (converted: int)
    requires '\0' !in source
    modifies target
    ensures converted == if |Decoded(source)| <= target.Length then |Decoded(source)| else -1
    ensures converted >= 0 ==> target[..converted] == Decoded(source)
    ensures converted >= 0 ==> target[converted..] == old(target[converted..])
  {
    hide DecodedQuad, DecodedQuads, Pending, Decoded, Padding;
    var src := source + Padding(4) + ['\0'];
    PendingAll(source);
    var tmpptr := 0;
    var tmpresult := new byte[3];
    var tmplen := 3;
    converted := 0;
    while tmplen == 3
      invariant 0 <= converted <= target.Length && 0 <= tmplen <= 3
      invariant target[converted..] == old(target[converted..])
      invariant tmplen == 3 ==> tmpptr <= |source|
      invariant Decoded(source) == target[..converted]
                + if tmplen == 3 then DecodedQuads(Pending(source, tmpptr)) else []
      decreases tmplen == 3, |source| - tmpptr
    {
      var quadruple, next := NextQuadruple(src, source, tmpptr);
      QuadsStep(quadruple, Pending(source, next));
      tmplen := DecodeTriple(quadruple, tmpresult);
      if tmplen == 3 { FullQuad(quadruple); }
      if target.Length - converted < tmplen {
        return -1;
      }
      Copy(tmpresult, tmplen, target, converted);
      tmpptr, converted := next, converted + tmplen;
    }
  }

  /** memcpy(target, tmpresult, tmplen). */
  method Copy(from: array<byte>, count: nat, to: array<byte>, at: nat)
    requires from != to && count <= from.Length && at + count <= to.Length
    modifies to
    ensures to[..at + count] == old(to[..at]) + from[..count]
    ensures to[at + count..] == old(to[at + count..])
  {
    forall k | 0 <= k < count {
      to[at + k] := from[k];
    }
  }

  // ---- The examples of section 7 of RFC 3548 ----

  lemma LettersStep(b0: byte, b1: byte, b2: byte, rest: seq<byte>)
    ensures Letters([b0, b1, b2] + rest) == Quad(Group(b0, b1, b2)) + Letters(rest)
  {
    hide Quad, Group;
    assert ([b0, b1, b2] + rest)[3..] == rest;
  }

  lemma ExampleGroups()
    ensures Group(0x14, 0xFB, 0x9C) == 0x14FB9C && Group(0x03, 0xD9, 0x7E) == 0x03D97E
    ensures Group(0x03, 0xD9, 0) == 0x03D900 && Group(0x03, 0, 0) == 0x030000
  {
  }

  lemma ExampleQuads()
    ensures Quad(0x14FB9C) == "FPuc" && Quad(0x03D97E) == "A9l+"
  {
  }

  lemma LastQuads()
    ensures Quad(0x03D900) == "A9kA" && Quad(0x030000) == "AwAA"
  {
  }

  /** The examples of section 7 of RFC 3548. */
  lemma Examples()
    ensures Encoded([0x14, 0xFB, 0x9C, 0x03, 0xD9, 0x7E]) == "FPucA9l+"
    ensures Encoded([0x14, 0xFB, 0x9C, 0x03, 0xD9]) == "FPucA9k="
    ensures Encoded([0x14, 0xFB, 0x9C, 0x03]) == "FPucAw=="
  {
    ExampleGroups();
    ExampleQuads();
    LastQuads();
    hide Quad, Group;
    assert [0x14 as byte, 0xFB, 0x9C, 0x03, 0xD9, 0x7E] == [0x14, 0xFB, 0x9C] + [0x03, 0xD9, 0x7E];
    assert [0x14 as byte, 0xFB, 0x9C, 0x03, 0xD9] == [0x14, 0xFB, 0x9C] + [0x03, 0xD9];
    assert [0x14 as byte, 0xFB, 0x9C, 0x03] == [0x14, 0xFB, 0x9C] + [0x03];
    LettersStep(0x14, 0xFB, 0x9C, [0x03, 0xD9, 0x7E]);
    LettersStep(0x14, 0xFB, 0x9C, [0x03, 0xD9]);
    LettersStep(0x14, 0xFB, 0x9C, [0x03]);
    LettersStep(0x03, 0xD9, 0x7E, []);
    assert [0x03 as byte, 0xD9, 0x7E] + [] == [0x03, 0xD9, 0x7E];
    assert Letters([0x03, 0xD9]) == "A9kA"[..3] == "A9k";
    assert Letters([0x03]) == "AwAA"[..2] == "Aw";
    assert Padding(1) == "=" && Padding(2) == "==" && Padding(0) == "";
  }
}
