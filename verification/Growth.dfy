// The buffer-size rounding of libwebsock_read_header: a cascade of shifts and
// ORs, proved to give the least power of two not below the frame size.

module Growth {

  function Pow2(k: nat): (p: nat)
    ensures p >= 1
  {
    if k == 0 then 1 else 2 * Pow2(k - 1)
  }

  lemma {:induction false} Pow2Monotone(j: nat, k: nat)
    requires j <= k
    ensures Pow2(j) <= Pow2(k)
    decreases k - j
  {
    if j < k {
      Pow2Monotone(j + 1, k);
    }
  }

  // ---- Bit operations on non-negative integers ----

  /** Bit `j` of `x`. */
  predicate Bit(x: nat, j: nat)
    decreases j
  {
    if j == 0 then x % 2 == 1 else Bit(x / 2, j - 1)
  }

  /** x | y. */
  function Or(x: nat, y: nat): nat
    decreases x + y
  {
    if x == 0 then y
    else if y == 0 then x
    else 2 * Or(x / 2, y / 2) + (if x % 2 == 1 || y % 2 == 1 then 1 else 0)
  }

  /** x >> s. */
  function Shr(x: nat, s: nat): nat
    decreases s
  {
    if s == 0 then x else Shr(x / 2, s - 1)
  }

  lemma {:induction false} OrBit(x: nat, y: nat, j: nat)
    ensures Bit(Or(x, y), j) <==> Bit(x, j) || Bit(y, j)
    decreases j
  {
    if x == 0 {
      ZeroBit(j);
    } else if y == 0 {
      ZeroBit(j);
    } else {
      Halves(Or(x / 2, y / 2), if x % 2 == 1 || y % 2 == 1 then 1 else 0);
      if j > 0 {
        OrBit(x / 2, y / 2, j - 1);
      }
    }
  }

  lemma Halves(h: nat, b: nat)
    requires b < 2
    ensures (2 * h + b) / 2 == h && (2 * h + b) % 2 == b
  {
  }

  lemma {:induction false} ZeroBit(j: nat)
    ensures !Bit(0, j)
  {
    if j > 0 { ZeroBit(j - 1); }
  }

  lemma {:induction false} ShrBit(x: nat, s: nat, j: nat)
    ensures Bit(Shr(x, s), j) == Bit(x, j + s)
    decreases s
  {
    if s > 0 {
      ShrBit(x / 2, s - 1, j);
    }
  }

  lemma {:induction false} OrBelow(x: nat, y: nat, k: nat)
    requires x < Pow2(k) && y < Pow2(k)
    ensures Or(x, y) < Pow2(k)
    decreases k
  {
    if x != 0 && y != 0 {
      assert k > 0;
      OrBelow(x / 2, y / 2, k - 1);
    }
  }

  lemma {:induction false} ShrBelow(x: nat, s: nat)
    ensures Shr(x, s) <= x
    decreases s
  {
    if s > 0 {
      ShrBelow(x / 2, s - 1);
    }
  }

  // ---- The cascade ----

  /** Bits k-w .. k-1 of `x` are set and none above. */
  ghost predicate TopOnes(x: nat, k: nat, w: nat)
  {
    x < Pow2(k) && forall j: nat | j < k <= j + w :: Bit(x, j)
  }

  /** x | x >> w, one step of the cascade. */
  function Smear(x: nat, w: nat): nat
  {
    Or(x, Shr(x, w))
  }

  /** Each step doubles the run of ones below the leading one. */
  lemma SmearStep(x: nat, k: nat, w: nat)
    requires TopOnes(x, k, w)
    ensures TopOnes(Smear(x, w), k, 2 * w)
  {
    ShrBelow(x, w);
    OrBelow(x, Shr(x, w), k);
    forall j: nat | j < k <= j + 2 * w
      ensures Bit(Smear(x, w), j)
    {
      OrBit(x, Shr(x, w), j);
      ShrBit(x, w, j);
    }
  }

  /** Ones in all k places make 2^k - 1. */
  lemma {:induction false} AllOnes(x: nat, k: nat)
    requires x < Pow2(k) && forall j: nat | j < k :: Bit(x, j)
    ensures x == Pow2(k) - 1
    decreases k
  {
    if k > 0 {
      assert Bit(x, 0);
      forall j: nat | j < k - 1 ensures Bit(x / 2, j) {
        assert Bit(x, j + 1);
      }
      AllOnes(x / 2, k - 1);
    }
  }

  /** The position of the leading one. */
  lemma {:induction false} LeadingOne(x: nat) returns (k: nat)
    requires x > 0
    ensures k > 0 && Pow2(k - 1) <= x < Pow2(k) && Bit(x, k - 1)
  {
    if x == 1 { return 1; }
    k := LeadingOne(x / 2);
    k := k + 1;
  }

  /** new_size as the C code computes it. */
  function RoundUp(size: nat): nat
    requires size > 0
  {
    Smear(Smear(Smear(Smear(Smear(size - 1, 1), 2), 4), 8), 16) + 1
  }

  lemma CascadeFills(x: nat, k: nat)
    requires TopOnes(x, k, 1) && k <= 32
    ensures Smear(Smear(Smear(Smear(Smear(x, 1), 2), 4), 8), 16) == Pow2(k) - 1
  {
    SmearStep(x, k, 1);
    SmearStep(Smear(x, 1), k, 2);
    SmearStep(Smear(Smear(x, 1), 2), k, 4);
    SmearStep(Smear(Smear(Smear(x, 1), 2), 4), k, 8);
    SmearStep(Smear(Smear(Smear(Smear(x, 1), 2), 4), 8), k, 16);
    AllOnes(Smear(Smear(Smear(Smear(Smear(x, 1), 2), 4), 8), 16), k);
  }

  /** The rounding is the least power of two not below `size`; it is less than twice `size`. */
  lemma RoundUpIsLeastPower(size: nat) returns (k: nat)
    requires 1 < size <= Pow2(32)
    ensures 0 < k <= 32 && RoundUp(size) == Pow2(k) && size <= RoundUp(size) < 2 * size
    ensures forall j: nat | size <= Pow2(j) :: RoundUp(size) <= Pow2(j)
  {
    k := LeadingOne(size - 1);
    if k > 32 { Pow2Monotone(32, k - 1); }
    CascadeFills(size - 1, k);
    forall j: nat | size <= Pow2(j) ensures Pow2(k) <= Pow2(j) {
      if j < k { Pow2Monotone(j, k - 1); } else { Pow2Monotone(k, j); }
    }
  }

  /** A step of the cascade stays below every power of two its input is below. */
  lemma SmearBelow(x: nat, w: nat, k: nat)
    requires x < Pow2(k)
    ensures Smear(x, w) < Pow2(k)
  {
    ShrBelow(x, w);
    OrBelow(x, Shr(x, w), k);
  }

  /** Up to 2^30 every intermediate value and the result fit a 32-bit signed int. */
  lemma RoundUpFits(size: nat)
    requires 1 < size <= 0x4000_0000
    ensures size <= RoundUp(size) <= 0x4000_0000 && RoundUp(size) < 2 * size
    ensures var x1 := Smear(size - 1, 1);
            var x2 := Smear(x1, 2);
            var x3 := Smear(x2, 4);
            var x4 := Smear(x3, 8);
            x1 < 0x4000_0000 && x2 < 0x4000_0000 && x3 < 0x4000_0000 && x4 < 0x4000_0000 && Smear(x4, 16) < 0x4000_0000
  {
    PowersOfTwo();
    var k := RoundUpIsLeastPower(size);
    if k > 30 { Pow2Monotone(30, k - 1); }
    Pow2Monotone(k, 30);
    hide Smear;
    SmearBelow(size - 1, 1, 30);
    SmearBelow(Smear(size - 1, 1), 2, 30);
    SmearBelow(Smear(Smear(size - 1, 1), 2), 4, 30);
    SmearBelow(Smear(Smear(Smear(size - 1, 1), 2), 4), 8, 30);
  }

  lemma PowersOfTwo()
    ensures Pow2(30) == 0x4000_0000 && Pow2(32) == 4 * Pow2(30)
  {
    assert Pow2(10) == 0x400;
    assert Pow2(20) == 0x10_0000;
  }
}
