/** Polynomials over the two-element field as lists of bits, and registers read as such lists. */
module BitLists {
  // A polynomial is the list of its coefficients, highest degree first.

  import opened RegisterBit

  type Poly = seq<bool>

  /** The generator 0x1_04C1_1DB7 below its leading term. */
  const GENERATOR: Poly := [
    false, false, false, false, false, true, false, false, true, true, false, false, false, false, false, true,
    false, false, false, true, true, true, false, true, true, false, true, true, false, true, true, true]

  function Plus(a: Poly, b: Poly): (r: Poly)
    requires |a| == |b|
    ensures |r| == |a|
  {
    seq(|a|, i requires 0 <= i < |a| => a[i] != b[i])
  }

  function Zeros(n: nat): (r: Poly)
    ensures |r| == n && forall i :: 0 <= i < n ==> !r[i]
  {
    seq(n, _ => false)
  }

  function Ones(n: nat): (r: Poly)
    ensures |r| == n && forall i :: 0 <= i < n ==> r[i]
  {
    seq(n, _ => true)
  }

  function Complement(p: Poly): (r: Poly)
    ensures |r| == |p|
  {
    Plus(p, Ones(|p|))
  }

  /** A register's 32 bits, low bit first. */
  function RegisterBits(c: bv32): (r: Poly)
    ensures |r| == 32
  {
    seq(32, k requires 0 <= k < 32 => Bit(c, k))
  }

  /* ---------------------------------------------------------------- addition and shifting */

  /** `^` is addition. */
  lemma {:induction false} XorIsPlus(x: bv32, y: bv32, z: bv32)
    requires z == x ^ y
    ensures RegisterBits(z) == Plus(RegisterBits(x), RegisterBits(y))
  {
    forall k | 0 <= k < 32 ensures RegisterBits(z)[k] == Plus(RegisterBits(x), RegisterBits(y))[k] {
      BitOfXor(x, y, z, k);
    }
  }

  lemma {:induction false} ShiftIsShift(x: bv32, y: bv32)
    requires y == x >> 1
    ensures RegisterBits(y) == RegisterBits(x)[1..] + [false]
  {
    NoBit32(x);
    forall k | 0 <= k < 32 ensures RegisterBits(y)[k] == (RegisterBits(x)[1..] + [false])[k] {
      BitNext(x, y, k + 1);
    }
  }

  /** The bits of `c` are `s` and zeros. */
  predicate Lists(c: bv32, s: Poly) {
    if |s| == 0 then c == 0 else (c & 1 != 0) == s[0] && Lists(c >> 1, s[1..])
  }

  lemma {:induction false} ListsBit(c: bv32, s: Poly, k: nat)
    requires Lists(c, s)
    ensures Bit(c, k) == (k < |s| && s[k])
    decreases |s|
  {
    if |s| == 0 {
      ZeroHasNoBit(c, k);
    } else if k > 0 {
      var d := c >> 1;
      BitNext(c, d, k);
      ListsBit(d, s[1..], k - 1);
    }
  }

  lemma {:induction false} ListsPush(c: bv32, d: bv32, bit: bool, s: Poly)
    requires d == c >> 1 && (c & 1 != 0) == bit && Lists(d, s)
    ensures Lists(c, [bit] + s)
  {
    assert ([bit] + s)[1..] == s;
  }

  lemma {:induction false} FourFlags(c: bv32, c1: bv32, c2: bv32, c3: bv32)
    requires c1 == c >> 1 && c2 == c1 >> 1 && c3 == c2 >> 1
    ensures c1 & 1 != 0 <==> c & 2 != 0
    ensures c2 & 1 != 0 <==> c & 4 != 0
    ensures c3 & 1 != 0 <==> c & 8 != 0
  {
  }

  lemma {:induction false} ListsFour(c: bv32, d: bv32, b0: bool, b1: bool, b2: bool, b3: bool, s: Poly)
    requires (c & 1 != 0) == b0 && (c & 2 != 0) == b1 && (c & 4 != 0) == b2 && (c & 8 != 0) == b3
    requires d == c >> 4 && Lists(d, s)
    ensures Lists(c, [b0] + ([b1] + ([b2] + ([b3] + s))))
  {
    var c1 := c >> 1;
    var c2 := c1 >> 1;
    var c3 := c2 >> 1;
    FourHalves(c, c1, c2, c3, c3 >> 1);
    FourFlags(c, c1, c2, c3);
    ListsPush(c3, d, b3, s);
    ListsPush(c2, c3, b2, [b3] + s);
    ListsPush(c1, c2, b1, [b2] + ([b3] + s));
    ListsPush(c, c1, b0, [b1] + ([b2] + ([b3] + s)));
  }

  lemma {:induction false} FourBefore(s: Poly, k: nat)
    requires k + 4 <= |s|
    ensures s[k..] == [s[k]] + ([s[k + 1]] + ([s[k + 2]] + ([s[k + 3]] + s[k + 4..])))
  {
  }

  /** The coefficients from `k` on are those four and the ones behind them. */
  lemma {:induction false} ListsFrom(c: bv32, d: bv32, s: Poly, k: nat)
    requires k + 4 <= |s| && d == c >> 4 && Lists(d, s[k + 4..])
    requires (c & 1 != 0) == s[k] && (c & 2 != 0) == s[k + 1] && (c & 4 != 0) == s[k + 2] && (c & 8 != 0) == s[k + 3]
    ensures Lists(c, s[k..])
  {
    ListsFour(c, d, s[k], s[k + 1], s[k + 2], s[k + 3], s[k + 4..]);
    FourBefore(s, k);
  }

  lemma {:induction false} ConstantLists(
    s: Poly, c0: bv32, c1: bv32, c2: bv32, c3: bv32, c4: bv32, c5: bv32, c6: bv32, c7: bv32, c8: bv32)
    requires c0 == 0xEDB8_8320 && c1 == 0xEDB_8832 && c2 == 0xED_B883 && c3 == 0xE_DB88 && c4 == 0xEDB8
    requires c5 == 0xEDB && c6 == 0xED && c7 == 0xE && c8 == 0 && |s| == 32
    requires !s[0] && !s[1] && !s[2] && !s[3] && !s[4] && s[5] && !s[6] && !s[7]
    requires s[8] && s[9] && !s[10] && !s[11] && !s[12] && !s[13] && !s[14] && s[15]
    requires !s[16] && !s[17] && !s[18] && s[19] && s[20] && s[21] && !s[22] && s[23]
    requires s[24] && !s[25] && s[26] && s[27] && !s[28] && s[29] && s[30] && s[31]
    ensures Lists(c0, s)
  {
    assert s[32..] == [] && s[0..] == s;
    assert Lists(c8, s[32..]);
    ListsFrom(c7, c8, s, 28);
    ListsFrom(c6, c7, s, 24);
    ListsFrom(c5, c6, s, 20);
    ListsFrom(c4, c5, s, 16);
    ListsFrom(c3, c4, s, 12);
    ListsFrom(c2, c3, s, 8);
    ListsFrom(c1, c2, s, 4);
    ListsFrom(c0, c1, s, 0);
  }

  lemma {:induction false} ConstantIsGenerator(c: bv32)
    requires c == 0xEDB8_8320
    ensures RegisterBits(c) == GENERATOR
  {
    ConstantLists(GENERATOR, c, 0xEDB_8832, 0xED_B883, 0xE_DB88, 0xEDB8, 0xEDB, 0xED, 0xE, 0);
    forall k | 0 <= k < 32 ensures RegisterBits(c)[k] == GENERATOR[k] {
      ListsBit(c, GENERATOR, k);
    }
  }

  lemma {:induction false} EightOf(s: Poly)
    requires |s| == 8
    ensures s == [s[0]] + ([s[1]] + ([s[2]] + ([s[3]] + ([s[4]] + ([s[5]] + ([s[6]] + ([s[7]] + [])))))))
  {
  }

  lemma {:induction false} FlagsList(r: bv32, s: Poly)
    requires |s| == 8 && r >> 8 == 0
    requires (r & 0x01 != 0) == s[0] && (r & 0x02 != 0) == s[1] && (r & 0x04 != 0) == s[2] && (r & 0x08 != 0) == s[3]
    requires (r & 0x10 != 0) == s[4] && (r & 0x20 != 0) == s[5] && (r & 0x40 != 0) == s[6] && (r & 0x80 != 0) == s[7]
    ensures Lists(r, s)
  {
    var h := r >> 4;
    HighFlags(r, h);
    ListsFour(h, 0, s[4], s[5], s[6], s[7], []);
    ListsFour(r, h, s[0], s[1], s[2], s[3], [s[4]] + ([s[5]] + ([s[6]] + ([s[7]] + []))));
    EightOf(s);
  }

  lemma {:induction false} HighFlags(r: bv32, h: bv32)
    requires h == r >> 4 && r >> 8 == 0
    ensures h & 1 != 0 <==> r & 0x10 != 0
    ensures h & 2 != 0 <==> r & 0x20 != 0
    ensures h & 4 != 0 <==> r & 0x40 != 0
    ensures h & 8 != 0 <==> r & 0x80 != 0
    ensures h >> 4 == 0
  {
  }

  lemma {:induction false} AllOnesLists()
    ensures Lists(0xFFFF_FFFF, Ones(32))
  {
    var none: Poly := [];
    assert Ones(0) == none;
    OnesPush(0, 0, 0xF);
    OnesPush(4, 0xF, 0xFF);
    OnesPush(8, 0xFF, 0xFFF);
    OnesPush(12, 0xFFF, 0xFFFF);
    OnesPush(16, 0xFFFF, 0xF_FFFF);
    OnesPush(20, 0xF_FFFF, 0xFF_FFFF);
    OnesPush(24, 0xFF_FFFF, 0xFFF_FFFF);
    OnesPush(28, 0xFFF_FFFF, 0xFFFF_FFFF);
  }

  lemma {:induction false} OnesPush(n: nat, c: bv32, d: bv32)
    requires c == d >> 4 && Lists(c, Ones(n)) && d & 0xF == 0xF
    ensures Lists(d, Ones(n + 4))
  {
    assert d & 1 != 0 && d & 2 != 0 && d & 4 != 0 && d & 8 != 0;
    ListsFour(d, c, true, true, true, true, Ones(n));
    assert [true] + ([true] + ([true] + ([true] + Ones(n)))) == Ones(n + 4);
  }

  lemma {:induction false} AllOnes()
    ensures RegisterBits(0xFFFF_FFFF) == Ones(32)
  {
    AllOnesLists();
    forall k | 0 <= k < 32 ensures RegisterBits(0xFFFF_FFFF)[k] == Ones(32)[k] {
      ListsBit(0xFFFF_FFFF, Ones(32), k);
    }
  }
}
