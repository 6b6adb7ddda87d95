/** The bits of a 32-bit register, one at a time. */
module RegisterBit {

  /** Bit `k` of a register, from the low end. */
  function Bit(c: bv32, k: nat): bool {
    if k == 0 then c & 1 != 0 else Bit(c >> 1, k - 1)
  }

  lemma {:induction false} XorLow(x: bv32, y: bv32, z: bv32)
    requires z == x ^ y
    ensures z & 1 != 0 <==> ((x & 1 != 0) != (y & 1 != 0))
  {
  }

  lemma {:induction false} XorHalf(x: bv32, y: bv32, z: bv32, x': bv32, y': bv32, z': bv32)
    requires z == x ^ y && x' == x >> 1 && y' == y >> 1 && z' == z >> 1
    ensures z' == x' ^ y'
  {
  }

  lemma {:induction false} BitNext(c: bv32, d: bv32, k: nat)
    requires d == c >> 1 && k > 0
    ensures Bit(c, k) == Bit(d, k - 1)
  {
  }

  lemma {:induction false} FirstOfXor(x: bv32, y: bv32, z: bv32)
    requires z == x ^ y
    ensures Bit(z, 0) == (Bit(x, 0) != Bit(y, 0))
  {
    XorLow(x, y, z);
  }

  lemma {:induction false} HalvesTell(x: bv32, y: bv32, z: bv32, x': bv32, y': bv32, z': bv32, k: nat)
    requires x' == x >> 1 && y' == y >> 1 && z' == z >> 1 && k > 0
    requires Bit(z', k - 1) == (Bit(x', k - 1) != Bit(y', k - 1))
    ensures Bit(z, k) == (Bit(x, k) != Bit(y, k))
  {
    BitNext(x, x', k);
    BitNext(y, y', k);
    BitNext(z, z', k);
  }

  lemma {:induction false} BitOfXor(x: bv32, y: bv32, z: bv32, k: nat)
    requires z == x ^ y
    ensures Bit(z, k) == (Bit(x, k) != Bit(y, k))
    decreases k
  {
    if k == 0 {
      FirstOfXor(x, y, z);
    } else {
      XorHalf(x, y, z, x >> 1, y >> 1, z >> 1);
      BitOfXor(x >> 1, y >> 1, z >> 1, k - 1);
      HalvesTell(x, y, z, x >> 1, y >> 1, z >> 1, k);
    }
  }

  lemma {:induction false} ZeroHalf(z: bv32)
    requires z == 0
    ensures z >> 1 == 0 && !(z & 1 != 0)
  {
  }

  lemma {:induction false} ZeroHasNoBit(z: bv32, k: nat)
    requires z == 0
    ensures !Bit(z, k)
    decreases k
  {
    ZeroHalf(z);
    if k > 0 {
      BitNext(z, z >> 1, k);
      ZeroHasNoBit(z >> 1, k - 1);
    }
  }

  lemma {:induction false} FourHalves(c: bv32, c1: bv32, c2: bv32, c3: bv32, c4: bv32)
    requires c1 == c >> 1 && c2 == c1 >> 1 && c3 == c2 >> 1 && c4 == c3 >> 1
    ensures c4 == c >> 4
  {
  }

  lemma {:induction false} BitShifted(c: bv32, d: bv32, k: nat)
    requires d == c >> 4
    ensures Bit(c, k + 4) == Bit(d, k)
  {
    var c1 := c >> 1;
    var c2 := c1 >> 1;
    var c3 := c2 >> 1;
    FourHalves(c, c1, c2, c3, c3 >> 1);
    BitNext(c, c1, k + 4);
    BitNext(c1, c2, k + 3);
    BitNext(c2, c3, k + 2);
    BitNext(c3, d, k + 1);
  }

  lemma {:induction false} EightFours(c: bv32, c1: bv32, c2: bv32, c3: bv32, c4: bv32, c5: bv32, c6: bv32, c7: bv32)
    requires c1 == c >> 4 && c2 == c1 >> 4 && c3 == c2 >> 4 && c4 == c3 >> 4
    requires c5 == c4 >> 4 && c6 == c5 >> 4 && c7 == c6 >> 4
    ensures c7 >> 4 == 0
  {
  }

  lemma {:induction false} NoBit32(c: bv32)
    ensures !Bit(c, 32)
  {
    var c1 := c >> 4;
    var c2 := c1 >> 4;
    var c3 := c2 >> 4;
    var c4 := c3 >> 4;
    var c5 := c4 >> 4;
    var c6 := c5 >> 4;
    var c7 := c6 >> 4;
    EightFours(c, c1, c2, c3, c4, c5, c6, c7);
    BitShifted(c, c1, 28);
    BitShifted(c1, c2, 24);
    BitShifted(c2, c3, 20);
    BitShifted(c3, c4, 16);
    BitShifted(c4, c5, 12);
    BitShifted(c5, c6, 8);
    BitShifted(c6, c7, 4);
    BitShifted(c7, c7 >> 4, 0);
    ZeroHasNoBit(c7 >> 4, 0);
  }
}
