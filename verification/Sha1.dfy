// src/sha1.c: streaming SHA-1, proved against the one-shot definition of
// FIPS 180-1 (padding in section 4, functions and constants in sections 5 and
// 6, the computation in section 7).

module Sha1 {
  import opened Bytes

  type word = bv32

  // ---- One-shot SHA-1 ----

  datatype Sum = Sum(a: word, b: word, c: word, d: word, e: word)

  const INITIAL: Sum := Sum(0x67452301, 0xEFCDAB89, 0x98BADCFE, 0x10325476, 0xC3D2E1F0)

  function CircularShift(bits: nat, w: word): word
    requires bits <= 32
  {
    (w << bits) | (w >> (32 - bits))
  }

  /** Addition modulo 2^32. */
  function Add(x: word, y: word): word { x + y }

  function Choose(b: word, c: word, d: word): word { (b & c) | (!b & d) }

  function Parity(b: word, c: word, d: word): word { b ^ c ^ d }

  function Majority(b: word, c: word, d: word): word { (b & c) | (b & d) | (c & d) }

  /** f(t; B, C, D). */
  function F(t: nat, b: word, c: word, d: word): word
  {
    if t < 20 then Choose(b, c, d)
    else if t < 40 then Parity(b, c, d)
    else if t < 60 then Majority(b, c, d)
    else Parity(b, c, d)
  }

  /** K(t). */
  function K(t: nat): word
  {
    if t < 20 then 0x5A827999 else if t < 40 then 0x6ED9EBA1 else if t < 60 then 0x8F1BBCDC else 0xCA62C1D6
  }

  /** Four bytes as a big-endian word. */
  function WordOf(b0: byte, b1: byte, b2: byte, b3: byte): word
  {
    (b0 as word << 24) | (b1 as word << 16) | (b2 as word << 8) | b3 as word
  }

  /** A word of the schedule from the 3rd, 8th, 14th and 16th before it. */
  function Expand(w3: word, w8: word, w14: word, w16: word): word
  {
    CircularShift(1, w3 ^ w8 ^ w14 ^ w16)
  }

  /** The message schedule W(t) of a block. */
  function Schedule(block: seq<byte>, t: nat): word
    requires |block| == 64 && t < 80
  {
    if t < 16 then WordOf(block[4 * t], block[4 * t + 1], block[4 * t + 2], block[4 * t + 3])
    else Expand(Schedule(block, t - 3), Schedule(block, t - 8), Schedule(block, t - 14), Schedule(block, t - 16))
  }

  lemma ScheduleIs(block: seq<byte>, t: nat)
    requires |block| == 64 && t < 80
    ensures t < 16 ==>
      Schedule(block, t) == WordOf(block[4 * t], block[4 * t + 1], block[4 * t + 2], block[4 * t + 3])
    ensures t >= 16 ==>
      Schedule(block, t) == Expand(Schedule(block, t - 3), Schedule(block, t - 8), Schedule(block, t - 14), Schedule(block, t - 16))
  {
  }

  function Step(block: seq<byte>, t: nat, s: Sum): Sum
    requires |block| == 64 && t < 80
  {
    Sum(Add(Add(Add(Add(CircularShift(5, s.a), F(t, s.b, s.c, s.d)), s.e), Schedule(block, t)), K(t)),
        s.a, CircularShift(30, s.b), s.c, s.d)
  }

  /** The word buffers after `t` of the eighty steps. */
  function Rounds(block: seq<byte>, h: Sum, t: nat): Sum
    requires |block| == 64 && t <= 80
  {
    if t == 0 then h else Step(block, t - 1, Rounds(block, h, t - 1))
  }

  function Compress(h: Sum, block: seq<byte>): Sum
    requires |block| == 64
  {
    var s := Rounds(block, h, 80);
    Sum(Add(h.a, s.a), Add(h.b, s.b), Add(h.c, s.c), Add(h.d, s.d), Add(h.e, s.e))
  }

  /** A whole number of blocks. */
  predicate Whole(s: seq<byte>) { |s| % 64 == 0 }

  /** The hash of whole blocks. */
  function Hash(blocks: seq<byte>): Sum
    requires Whole(blocks)
    decreases |blocks|
  {
    if blocks == [] then INITIAL
    else Compress(Hash(blocks[..|blocks| - 64]), blocks[|blocks| - 64..])
  }

  /** Messages have fewer than 2^64 bits. */
  const MAX_BYTES: int := 0x2000_0000_0000_0000

  function Zeros(n: nat): seq<byte>
  {
    seq(n, _ => 0)
  }

  /** The bit length of a message of `n` bytes as eight bytes, most significant first. */
  function LengthBytes(n: nat): (s: seq<byte>)
    requires n < MAX_BYTES
    ensures |s| == 8
  {
    Be32(8 * n / 0x1_0000_0000) + Be32(8 * n % 0x1_0000_0000)
  }

  /** A one bit, zeros, and the length: up to a block boundary. */
  function PadTail(n: nat): (s: seq<byte>)
    requires n < MAX_BYTES
    ensures 9 <= |s| < 9 + 64 && (n + |s|) % 64 == 0
  {
    hide LengthBytes;
    PadRoom(n);
    [0x80] + Zeros((55 - n) % 64) + LengthBytes(n)
  }

  lemma PadRoom(n: nat)
    ensures (n + 9 + (55 - n) % 64) % 64 == 0
  {
  }

  function Padded(m: seq<byte>): seq<byte>
    requires |m| < MAX_BYTES
  {
    m + PadTail(|m|)
  }

  lemma PaddedAligned(m: seq<byte>)
    requires |m| < MAX_BYTES
    ensures Whole(Padded(m))
  {
    hide PadTail;
  }

  function Digest(m: seq<byte>): Sum
    requires |m| < MAX_BYTES
  {
    PaddedAligned(m);
    Hash(Padded(m))
  }

  // ---- About the functions and constants ----

  /** Where b has a one the choice is c, where it has a zero it is d. */
  lemma ChooseIs(b: word, c: word, d: word)
    ensures Choose(b, c, d) & b == c & b && Choose(b, c, d) & !b == d & !b
  {
  }

  /** Two equal words are the majority, wherever they stand. */
  lemma MajorityIs(x: word, y: word)
    ensures Majority(x, x, y) == x && Majority(x, y, x) == x && Majority(y, x, x) == x
  {
  }

  /** The three rotations in arithmetic modulo 2^32: w * 2^n and the n bits carried around. */
  lemma RotationIs(w: word)
    ensures CircularShift(1, w) == w * 2 + w / 0x8000_0000
    ensures CircularShift(5, w) == w * 32 + w / 0x0800_0000
    ensures CircularShift(30, w) == w * 0x4000_0000 + w / 4
  {
    ShiftsOf(w);
    hide CircularShift;
    Arithmetic1(w);
    Arithmetic5(w);
    Arithmetic30(w);
  }

  lemma Arithmetic1(w: word)
    ensures (w << 1) | (w >> 31) == w * 2 + w / 0x8000_0000
  {
  }

  lemma Arithmetic5(w: word)
    ensures (w << 5) | (w >> 27) == w * 32 + w / 0x0800_0000
  {
  }

  lemma Arithmetic30(w: word)
    ensures (w << 30) | (w >> 2) == w * 0x4000_0000 + w / 4
  {
  }

  lemma ShiftsOf(w: word)
    ensures CircularShift(1, w) == (w << 1) | (w >> 31)
    ensures CircularShift(5, w) == (w << 5) | (w >> 27)
    ensures CircularShift(30, w) == (w << 30) | (w >> 2)
  {
  }

  lemma Shifts(w: word)
    ensures w << 1 == w * 2 && w >> 31 == w / 0x8000_0000 && (w << 1) & (w >> 31) == 0
    ensures w << 5 == w * 32 && w >> 27 == w / 0x0800_0000 && (w << 5) & (w >> 27) == 0
    ensures w << 30 == w * 0x4000_0000 && w >> 2 == w / 4 && (w << 30) & (w >> 2) == 0
  {
  }

  lemma DisjointSum(x: word, y: word)
    requires x & y == 0
    ensures x | y == x + y
  {
  }

  /** The constants are the integer parts of 2^30 times the square roots of 2, 3, 5 and 10. */
  lemma KIsRoot(t: nat)
    requires t < 80
    ensures var r := if t < 20 then 2 else if t < 40 then 3 else if t < 60 then 5 else 10;
            var k := K(t) as int;
            k * k <= r * 0x1000_0000_0000_0000 < (k + 1) * (k + 1)
  {
  }

  // ---- About the padding ----

  /** The padding reaches the first block boundary that leaves room for its one bit and the length. */
  lemma PaddedLeast(m: seq<byte>)
    requires |m| < MAX_BYTES
    ensures Whole(Padded(m)) && |m| + 9 <= |Padded(m)| < |m| + 9 + 64
  {
    hide PadTail;
  }

  /** Different messages have different paddings. */
  lemma PaddedInjective(a: seq<byte>, b: seq<byte>)
    requires |a| < MAX_BYTES && |b| < MAX_BYTES && Padded(a) == Padded(b)
    ensures a == b
  {
    hide LengthBytes, Be32;
    var n := |Padded(a)|;
    assert LengthBytes(|a|) == Padded(a)[n - 8..];
    assert LengthBytes(|b|) == Padded(b)[n - 8..];
    LengthInjective(|a|, |b|);
    assert a == Padded(a)[..|a|] && b == Padded(b)[..|b|];
  }

  lemma LengthInjective(m: nat, n: nat)
    requires m < MAX_BYTES && n < MAX_BYTES && LengthBytes(m) == LengthBytes(n)
    ensures m == n
  {
    hide Be32, FromBe32;
    var hi, lo := Be32(8 * m / 0x1_0000_0000), Be32(8 * m % 0x1_0000_0000);
    var hi', lo' := Be32(8 * n / 0x1_0000_0000), Be32(8 * n % 0x1_0000_0000);
    assert hi == LengthBytes(m)[..4] == LengthBytes(n)[..4] == hi';
    assert lo == LengthBytes(m)[4..] == LengthBytes(n)[4..] == lo';
  }

  /** Hashing one more block. */
  lemma HashAppend(blocks: seq<byte>, block: seq<byte>)
    requires Whole(blocks) && |block| == 64
    ensures Whole(blocks + block) && Hash(blocks + block) == Compress(Hash(blocks), block)
  {
    hide Compress;
    var all := blocks + block;
    assert all[..|all| - 64] == blocks && all[|all| - 64..] == block;
  }

  // ---- The context ----

  type uint32 = n: int | 0 <= n < 0x1_0000_0000

  class SHA1Context {
    const messageDigest: array<word>
    const messageBlock: array<byte>
    var lengthLow: uint32
    var lengthHigh: uint32
    var messageBlockIndex: nat
    var computed: bool
    var corrupted: bool

    // every byte accepted so far
    ghost var message: seq<byte>

    ghost function Digests(): Sum
      requires messageDigest.Length == 5
      reads messageDigest
    {
      Sum(messageDigest[0], messageDigest[1], messageDigest[2], messageDigest[3], messageDigest[4])
    }

    /** The digest so far hashes exactly the blocks `full` of `m`; the rest of `m` waits in the block. */
    ghost predicate Filling(full: seq<byte>, m: seq<byte>)
      reads this`messageBlockIndex, messageDigest, messageBlock
    {
      && messageDigest.Length == 5 && messageBlock.Length == 64 && messageBlockIndex <= 64
      && Whole(full) && Digests() == Hash(full)
      && m == full + messageBlock[..messageBlockIndex]
    }

    /** The two length words are the bit length of `n` bytes. */
    ghost predicate Counted(n: nat)
      reads this`lengthLow, this`lengthHigh
    {
      n < MAX_BYTES && lengthHigh * 0x1_0000_0000 + lengthLow == 8 * n
    }

    /** The message `m` has been taken in: all its full blocks are hashed, and its length is counted. */
    ghost predicate Absorbed(m: seq<byte>)
      reads this, messageDigest, messageBlock
    {
      && Counted(|m|) && messageBlockIndex < 64 && messageBlockIndex <= |m|
      && Filling(m[..|m| - messageBlockIndex], m)
    }

    ghost predicate Valid()
      reads this, messageDigest, messageBlock
    {
      && messageDigest.Length == 5 && messageBlock.Length == 64 && messageBlockIndex < 64
      && (!corrupted ==> |message| < MAX_BYTES)
      && (!corrupted && !computed ==> Absorbed(message))
      && (!corrupted && computed ==> Digests() == Digest(message))
    }

    constructor ()
      ensures Valid() && fresh(messageDigest) && fresh(messageBlock) && messageDigest.Length == 5
      ensures !computed && !corrupted && message == []
    {
      messageDigest, messageBlock := new word[5], new byte[64];
      new;
      Reset();
    }

    /** SHA1Reset. */
    method Reset()
      requires messageDigest.Length == 5 && messageBlock.Length == 64
      modifies this, messageDigest
      ensures Valid() && !computed && !corrupted && message == []
    {
      lengthLow, lengthHigh, messageBlockIndex := 0, 0, 0;
      messageDigest[0] := 0x67452301;
      messageDigest[1] := 0xEFCDAB89;
      messageDigest[2] := 0x98BADCFE;
      messageDigest[3] := 0x10325476;
      messageDigest[4] := 0xC3D2E1F0;
      computed, corrupted := false, false;
      message := [];
    }

    /** SHA1ProcessMessageBlock. */
    method ProcessMessageBlock()
      requires messageDigest.Length == 5 && messageBlock.Length == 64
      modifies this`messageBlockIndex, messageDigest
      ensures Digests() == Compress(old(Digests()), messageBlock[..]) && messageBlockIndex == 0
    {
      hide Compress, Schedule;
      var W := FillSchedule();
      RunRounds(W, messageBlock[..]);
      messageBlockIndex := 0;
    }

    // The word sequence W.
    method FillSchedule() returns (W: array<word>)
      requires messageBlock.Length == 64
      ensures fresh(W) && W.Length == 80 && forall j | 0 <= j < 80 :: W[j] == Schedule(messageBlock[..], j)
    {
      hide Expand, WordOf, Schedule;
      ghost var block := messageBlock[..];
      W := new word[80];
      for t := 0 to 16
        invariant forall j | 0 <= j < t :: W[j] == Schedule(block, j)
      {
        ScheduleIs(block, t);
        W[t] := WordOf(messageBlock[4 * t], messageBlock[4 * t + 1], messageBlock[4 * t + 2], messageBlock[4 * t + 3]);
      }
      for t := 16 to 80
        invariant forall j | 0 <= j < t :: W[j] == Schedule(block, j)
      {
        ScheduleIs(block, t);
        W[t] := Expand(W[t - 3], W[t - 8], W[t - 14], W[t - 16]);
      }
    }

    // The eighty steps and the final additions.
    method RunRounds(W: array<word>, ghost block: seq<byte>)
      requires messageDigest.Length == 5 && W.Length == 80 && W != messageDigest && |block| == 64
      requires forall j | 0 <= j < 80 :: W[j] == Schedule(block, j)
      modifies messageDigest
      ensures Digests() == Compress(old(Digests()), block)
    {
      hide CircularShift, Schedule, Add, Choose, Parity, Majority;
      ghost var h := Digests();
      var A, B, C, D, E := messageDigest[0], messageDigest[1], messageDigest[2], messageDigest[3], messageDigest[4];
      for t := 0 to 20
        invariant Sum(A, B, C, D, E) == Rounds(block, h, t)
      {
        var temp := Add(Add(Add(Add(CircularShift(5, A), Choose(B, C, D)), E), W[t]), 0x5A827999);
        A, B, C, D, E := temp, A, CircularShift(30, B), C, D;
      }
      for t := 20 to 40
        invariant Sum(A, B, C, D, E) == Rounds(block, h, t)
      {
        var temp := Add(Add(Add(Add(CircularShift(5, A), Parity(B, C, D)), E), W[t]), 0x6ED9EBA1);
        A, B, C, D, E := temp, A, CircularShift(30, B), C, D;
      }
      for t := 40 to 60
        invariant Sum(A, B, C, D, E) == Rounds(block, h, t)
      {
        var temp := Add(Add(Add(Add(CircularShift(5, A), Majority(B, C, D)), E), W[t]), 0x8F1BBCDC);
        A, B, C, D, E := temp, A, CircularShift(30, B), C, D;
      }
      for t := 60 to 80
        invariant Sum(A, B, C, D, E) == Rounds(block, h, t)
      {
        var temp := Add(Add(Add(Add(CircularShift(5, A), Parity(B, C, D)), E), W[t]), 0xCA62C1D6);
        A, B, C, D, E := temp, A, CircularShift(30, B), C, D;
      }
      messageDigest[0] := Add(messageDigest[0], A);
      messageDigest[1] := Add(messageDigest[1], B);
      messageDigest[2] := Add(messageDigest[2], C);
      messageDigest[3] := Add(messageDigest[3], D);
      messageDigest[4] := Add(messageDigest[4], E);
    }

    // ---- Input ----

    // Message_Block[Message_Block_Index++] = b;
    method StoreByte(b: byte)
      requires messageBlock.Length == 64 && messageBlockIndex < 64
      modifies this`messageBlockIndex, messageBlock
      ensures messageBlockIndex == old(messageBlockIndex) + 1
      ensures messageBlock[..messageBlockIndex] == old(messageBlock[..messageBlockIndex]) + [b]
    {
      messageBlock[messageBlockIndex] := b;
      messageBlockIndex := messageBlockIndex + 1;
    }

    // The length words after one more byte; they wrap to zero exactly at 2^64 bits.
    method CountByte(ghost n: nat)
      requires Counted(n) && !corrupted
      modifies this`lengthLow, this`lengthHigh, this`corrupted
      ensures if n + 1 == MAX_BYTES then corrupted else !corrupted && Counted(n + 1)
    {
      ghost var k := n - lengthHigh * 0x2000_0000;
      assert lengthLow == 8 * k;
      LowWord(k);
      lengthLow := (lengthLow + 8) % 0x1_0000_0000;
      if lengthLow == 0 {
        lengthHigh := (lengthHigh + 1) % 0x1_0000_0000;
        if lengthHigh == 0 {
          corrupted := true;
        }
      }
    }

    // A full block is hashed.
    method FlushBlock(ghost full: seq<byte>, ghost m: seq<byte>)
      requires Filling(full, m)
      modifies this`messageBlockIndex, messageDigest
      ensures messageBlockIndex < 64 && messageBlockIndex <= |m| && Filling(m[..|m| - messageBlockIndex], m)
    {
      hide Compress, Hash, Whole;
      assert m[..|m| - messageBlockIndex] == full;
      if messageBlockIndex == 64 {
        assert messageBlock[..64] == messageBlock[..];
        HashAppend(full, messageBlock[..]);
        ProcessMessageBlock();
        assert m[..|m|] == m && m + messageBlock[..0] == m;
      }
    }

    // The body of the loop of SHA1Input.
    method InputByte(b: byte)
      requires Absorbed(message) && !computed && !corrupted
      modifies this, messageDigest, messageBlock
      ensures message == old(message) + [b] && !computed
      ensures messageDigest.Length == 5 && messageBlock.Length == 64 && messageBlockIndex < 64
      ensures corrupted <==> |message| == MAX_BYTES
      ensures !corrupted ==> Absorbed(message)
    {
      hide Hash, Whole;
      ghost var m := message;
      ghost var full := m[..|m| - messageBlockIndex];
      StoreByte(b);
      CountByte(|m|);
      message := m + [b];
      assert message == full + messageBlock[..messageBlockIndex];
      FlushBlock(full, message);
    }

    /** SHA1Input: the bytes are appended to the message; after SHA1Result, or when the message reaches
        2^64 bits, the context is corrupted for good. */
    method Input(data: seq<byte>)
      requires Valid()
      modifies this, messageDigest, messageBlock
      ensures Valid() && computed == old(computed)
      ensures corrupted <==> old(corrupted) || (data != [] && (old(computed) || |old(message)| + |data| >= MAX_BYTES))
      ensures !corrupted ==> message == old(message) + data
    {
      hide Hash, Digest;
      if |data| == 0 { return; }
      if computed || corrupted {
        corrupted := true;
        return;
      }
      var i := 0;
      while i < |data| && !corrupted
        invariant i <= |data| && !computed && Valid()
        invariant message == old(message) + data[..i]
        invariant corrupted ==> |message| == MAX_BYTES
      {
        InputByte(data[i]);
        i := i + 1;
      }
    }

    // ---- Padding ----

    // while (index < end) block[index++] = 0;
    method FillZeros(end: nat)
      requires messageBlock.Length == 64 && messageBlockIndex <= end <= 64
      modifies this`messageBlockIndex, messageBlock
      ensures messageBlockIndex == end
      ensures messageBlock[..end] == old(messageBlock[..messageBlockIndex]) + Zeros(end - old(messageBlockIndex))
    {
      ghost var start := messageBlockIndex;
      while messageBlockIndex < end
        invariant start <= messageBlockIndex <= end
        invariant messageBlock[..messageBlockIndex] == old(messageBlock[..messageBlockIndex]) + Zeros(messageBlockIndex - start)
      {
        messageBlock[messageBlockIndex] := 0;
        messageBlockIndex := messageBlockIndex + 1;
      }
    }

    // Four bytes of a length word, most significant first.
    method StoreWord(at: nat, n: uint32)
      requires messageBlock.Length == 64 && at + 4 <= 64
      modifies messageBlock
      ensures messageBlock[at..at + 4] == Be32(n)
      ensures messageBlock[..at] == old(messageBlock[..at]) && messageBlock[at + 4..] == old(messageBlock[at + 4..])
    {
      hide ToByte, Be32;
      BigEndian(n);
      messageBlock[at] := ToByte(n / 0x100_0000 % 256);
      messageBlock[at + 1] := ToByte(n / 0x1_0000 % 256);
      messageBlock[at + 2] := ToByte(n / 0x100 % 256);
      messageBlock[at + 3] := ToByte(n % 256);
    }

    // The last eight octets.
    method StoreLength(ghost n: nat)
      requires messageBlock.Length == 64 && Counted(n)
      modifies messageBlock
      ensures messageBlock[..56] == old(messageBlock[..56]) && messageBlock[56..] == LengthBytes(n)
    {
      hide Be32, LengthBytes;
      LengthWords(lengthHigh, lengthLow, n);
      StoreWord(56, lengthHigh);
      ghost var high := messageBlock[..60];
      StoreWord(60, lengthLow);
      assert messageBlock[56..60] == high[56..60];
      assert messageBlock[56..] == messageBlock[56..60] + messageBlock[60..64];
      assert messageBlock[..56] == high[..56];
    }

    /** SHA1PadMessage: whether the length fits this block or needs another one, the digest becomes that of
        the whole message. */
    method PadMessage()
      requires Absorbed(message)
      modifies this`messageBlockIndex, messageDigest, messageBlock
      ensures Digests() == Digest(message) && messageBlockIndex == 0
    {
      hide Compress, Hash, LengthBytes, Zeros, Padded, Whole;
      ghost var m := message;
      ghost var rest := messageBlock[..messageBlockIndex];
      ghost var full := m[..|m| - messageBlockIndex];
      assert m == full + rest && messageBlock[..0] == [];
      if messageBlockIndex > 55 {
        StoreByte(0x80);
        FillZeros(64);
        ghost var first := messageBlock[..];
        HashAppend(full, first);
        ProcessMessageBlock();
        FillZeros(56);
        StoreLength(|m|);
        HashAppend(full + first, messageBlock[..]);
        assert messageBlock[..] == messageBlock[..56] + messageBlock[56..];
        PadLong(full, rest);
        assert Padded(m) == full + first + messageBlock[..];
      } else {
        StoreByte(0x80);
        FillZeros(56);
        StoreLength(|m|);
        assert messageBlock[..] == messageBlock[..56] + messageBlock[56..];
        HashAppend(full, messageBlock[..]);
        PadShort(full, rest);
        assert Padded(m) == full + messageBlock[..];
      }
      ProcessMessageBlock();
    }

    /** SHA1Result: for every message of fewer than 2^61 bytes, the digest of the one-shot definition,
        however the message was split across calls of Input. */
    method Result() returns (ok: bool)
      requires Valid()
      modifies this, messageDigest, messageBlock
      ensures Valid() && ok == !old(corrupted) && corrupted == old(corrupted) && message == old(message)
      ensures ok ==> computed && Digests() == Digest(message)
    {
      hide Digest, Hash;
      if corrupted { return false; }
      if !computed {
        PadMessage();
        computed := true;
      }
      return true;
    }
  }

  lemma LengthWords(high: uint32, low: uint32, n: nat)
    requires n < MAX_BYTES && high * 0x1_0000_0000 + low == 8 * n
    ensures LengthBytes(n) == Be32(high) + Be32(low)
  {
    hide Be32;
    assert 8 * n / 0x1_0000_0000 == high && 8 * n % 0x1_0000_0000 == low;
  }

  lemma LowWord(k: int)
    requires 0 <= 8 * k < 0x1_0000_0000
    ensures (8 * k + 8) % 0x1_0000_0000 == if k == 0x1FFF_FFFF then 0 else 8 * k + 8
  {
  }

  lemma BigEndian(n: uint32)
    ensures Be32(n)
         == [ToByte(n / 0x100_0000 % 256), ToByte(n / 0x1_0000 % 256), ToByte(n / 0x100 % 256), ToByte(n % 256)]
  {
    hide ToByte;
    HighOctet(n);
    LowOctets(n);
  }

  lemma HighOctet(n: uint32)
    ensures n / 0x1_0000 / 0x100 == n / 0x100_0000 % 256
  {
    assert n / 0x1_0000 / 0x100 == n / 0x100_0000;
  }

  lemma LowOctets(n: uint32)
    ensures n % 0x1_0000 / 0x100 == n / 0x100 % 256 && n % 0x1_0000 % 0x100 == n % 256
  {
    var q, r := n / 0x1_0000, n % 0x1_0000;
    assert n / 0x100 == q * 256 + r / 0x100;
  }

  lemma PadShort(full: seq<byte>, rest: seq<byte>)
    requires Whole(full) && |rest| <= 55 && |full + rest| < MAX_BYTES
    ensures Padded(full + rest) == full + (rest + [0x80] + Zeros(55 - |rest|) + LengthBytes(|full + rest|))
  {
    hide LengthBytes;
    assert (55 - |full + rest|) % 64 == 55 - |rest|;
  }

  lemma PadLong(full: seq<byte>, rest: seq<byte>)
    requires Whole(full) && 55 < |rest| < 64 && |full + rest| < MAX_BYTES
    ensures Padded(full + rest)
         == full + (rest + [0x80] + Zeros(63 - |rest|)) + (Zeros(56) + LengthBytes(|full + rest|))
  {
    hide LengthBytes;
    assert (55 - |full + rest|) % 64 == 119 - |rest|;
    assert Zeros(119 - |rest|) == Zeros(63 - |rest|) + Zeros(56);
  }

  // ---- Every way of cutting a message into pieces ----

  /** Reset, one Input per piece, Result: fails exactly for 2^61 bytes or more, and otherwise the digest is
      that of the concatenation. */
  method HashPieces(pieces: seq<seq<byte>>) returns (context: SHA1Context, ok: bool)
    ensures ok <==> |Concat(pieces)| < MAX_BYTES
    ensures context.messageDigest.Length == 5 && (ok ==> context.Digests() == Digest(Concat(pieces)))
  {
    hide Digest, SHA1Context.Valid, Concat;
    context := new SHA1Context();
    ghost var taken: seq<byte> := [];
    ConcatNone(pieces);
    for i := 0 to |pieces|
      invariant fresh(context) && fresh(context.messageDigest) && fresh(context.messageBlock)
      invariant context.Valid() && !context.computed && context.messageDigest.Length == 5
      invariant taken == Concat(pieces[..i])
      invariant context.corrupted <==> |taken| >= MAX_BYTES
      invariant !context.corrupted ==> context.message == taken
    {
      NextPiece(pieces, i);
      taken := taken + pieces[i];
      context.Input(pieces[i]);
    }
    assert pieces[..|pieces|] == pieces;
    ok := context.Result();
  }

  lemma ConcatNone(pieces: seq<seq<byte>>)
    ensures Concat(pieces[..0]) == []
  {
  }

  lemma NextPiece(pieces: seq<seq<byte>>, i: nat)
    requires i < |pieces|
    ensures Concat(pieces[..i + 1]) == Concat(pieces[..i]) + pieces[i]
  {
    ConcatAppend(pieces[..i], pieces[i]);
    assert pieces[..i] + [pieces[i]] == pieces[..i + 1];
  }
}
