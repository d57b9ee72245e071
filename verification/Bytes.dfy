// Bytes, big-endian numbers, masking and NUL-terminated buffers.

module Bytes {

  type byte = bv8

  datatype Option<+T> = None | Some(value: T)

  /** The byte holding `n`. */
  function ToByte(n: int): (b: byte)
    requires 0 <= n < 256
    ensures b as int == n
  {
    n as byte
  }

  // ---- Network byte order ----

  function Be16(n: int): (s: seq<byte>)
    requires 0 <= n < 0x1_0000
    ensures |s| == 2 && FromBe16(s[0], s[1]) == n
  {
    [ToByte(n / 0x100), ToByte(n % 0x100)]
  }

  function FromBe16(hi: byte, lo: byte): (n: int)
    ensures 0 <= n < 0x1_0000
  {
    hi as int * 0x100 + lo as int
  }

  function Be32(n: int): (s: seq<byte>)
    requires 0 <= n < 0x1_0000_0000
    ensures |s| == 4 && FromBe32(s[0], s[1], s[2], s[3]) == n
  {
    Be16(n / 0x1_0000) + Be16(n % 0x1_0000)
  }

  function FromBe32(b0: byte, b1: byte, b2: byte, b3: byte): (n: int)
    ensures 0 <= n < 0x1_0000_0000
  {
    FromBe16(b0, b1) * 0x1_0000 + FromBe16(b2, b3)
  }

  /** Two bytes are determined by the 16-bit number they spell. */
  lemma Be16Inverse(hi: byte, lo: byte)
    ensures Be16(FromBe16(hi, lo)) == [hi, lo]
  {
    var n := FromBe16(hi, lo);
    assert n / 0x100 == hi as int && n % 0x100 == lo as int;
  }

  /** Two bytes spell a number in one way. */
  lemma Be16Is(n: int, hi: byte, lo: byte)
    requires n == FromBe16(hi, lo)
    ensures Be16(n) == [hi, lo]
  {
    Be16Inverse(hi, lo);
  }

  // ---- Masking (section 5.3 of RFC 6455) ----

  function Unmask(key: seq<byte>, data: seq<byte>): (s: seq<byte>)
    requires |key| == 4
    ensures |s| == |data|
  {
    seq(|data|, i requires 0 <= i < |data| => data[i] ^ key[i % 4])
  }

  /** Masking twice with the same key gives the data back. */
  lemma UnmaskInvolution(key: seq<byte>, data: seq<byte>)
    requires |key| == 4
    ensures Unmask(key, Unmask(key, data)) == data
  {
    forall i | 0 <= i < |data|
      ensures Unmask(key, Unmask(key, data))[i] == data[i]
    {
      XorTwice(data[i], key[i % 4]);
    }
  }

  lemma XorTwice(b: byte, k: byte)
    ensures (b ^ k) ^ k == b
  {
  }

  // ---- NUL-terminated strings ----

  /** The C string held in a buffer: everything before its first NUL. */
  function UpToNul(s: seq<byte>): (r: seq<byte>)
    ensures r <= s && 0 !in r
    ensures |r| < |s| ==> s[|r|] == 0
    ensures 0 !in s ==> r == s
  {
    if s == [] || s[0] == 0 then [] else [s[0]] + UpToNul(s[1..])
  }

  /** The C string is pinned down by its position. */
  lemma UpToNulIs(s: seq<byte>, n: nat)
    requires n <= |s| && 0 !in s[..n] && (n < |s| ==> s[n] == 0)
    ensures UpToNul(s) == s[..n]
  {
  }

  /** In-order concatenation. */
  function Concat(parts: seq<seq<byte>>): (s: seq<byte>)
  {
    if parts == [] then [] else Concat(parts[..|parts| - 1]) + parts[|parts| - 1]
  }

  lemma {:induction false} ConcatAppend(parts: seq<seq<byte>>, last: seq<byte>)
    ensures Concat(parts + [last]) == Concat(parts) + last
  {
    assert (parts + [last])[..|parts|] == parts;
  }

  /** Prepending the first part instead. */
  lemma {:induction false} ConcatPrepend(first: seq<byte>, parts: seq<seq<byte>>)
    ensures Concat([first] + parts) == first + Concat(parts)
  {
    if parts == [] {
      assert [first] + parts == [first];
    } else {
      var last := |parts| - 1;
      ConcatPrepend(first, parts[..last]);
      assert ([first] + parts)[..last + 1] == [first] + parts[..last];
    }
  }
}
