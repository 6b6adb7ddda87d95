/** CRC-32 and Adler-32 of src/png.rs, over bytes. */
module Checksums {
  import opened Wrappers
  import opened CrcRegisters

  const U32_SPAN: int := 0x1_0000_0000

  type U32 = n: int | 0 <= n < U32_SPAN

  /* ---------------------------------------------------------------- CRC-32 */

  /** The `n` low bits of a number, least significant first. */
  function Bits(b: nat, n: nat): (s: seq<bool>)
    ensures |s| == n
  {
    if n == 0 then [] else [b % 2 == 1] + Bits(b / 2, n - 1)
  }

  /** `b as u32`: the byte's eight bits as the low bits of the register. */
  function Widen(b: Byte): bv32 {
    var s := Bits(b, 8);
    LowBits(s[0], s[1], s[2], s[3], s[4], s[5], s[6], s[7])
  }

  function CrcByte(c: bv32, b: Byte): bv32 {
    CrcBits(c ^ Widen(b), 8)
  }

  function CrcRegister(bytes: seq<Byte>): bv32 {
    if |bytes| == 0 then 0xFFFF_FFFF else CrcByte(CrcRegister(bytes[..|bytes| - 1]), bytes[|bytes| - 1])
  }

  function Crc(bytes: seq<Byte>): bv32 {
    !CrcRegister(bytes)
  }

  /** Eight steps on one byte. */
  method FeedByte(c: bv32, b: Byte) returns (crc: bv32)
    ensures crc == CrcByte(c, b)
  {
    crc := c ^ Widen(b);
    for n := 0 to 8
      invariant crc == CrcBits(c ^ Widen(b), n)
    {
      crc := ShiftBit(crc);
    }
  }

  method Crc32(bytes: seq<Byte>) returns (crc: bv32)
    ensures crc == Crc(bytes)
  {
    crc := 0xFFFF_FFFF;
    for i := 0 to |bytes|
      invariant crc == CrcRegister(bytes[..i])
    {
      assert bytes[..i + 1][..i] == bytes[..i];
      crc := FeedByte(crc, bytes[i]);
    }
    assert bytes[..|bytes|] == bytes;
    crc := !crc;
  }

  function Power2(n: nat): nat {
    if n == 0 then 1 else 2 * Power2(n - 1)
  }

  lemma {:induction false} BitsInjective(a: nat, b: nat, n: nat)
    requires a < Power2(n) && b < Power2(n) && Bits(a, n) == Bits(b, n)
    ensures a == b
  {
    if n > 0 {
      assert Bits(a, n)[0] == Bits(b, n)[0];
      assert Bits(a, n)[1..] == Bits(a / 2, n - 1) && Bits(b, n)[1..] == Bits(b / 2, n - 1);
      BitsInjective(a / 2, b / 2, n - 1);
    }
  }

  lemma {:induction false} SameFlags(s: seq<bool>, t: seq<bool>)
    requires |s| == 8 && |t| == 8
    requires LowBits(s[0], s[1], s[2], s[3], s[4], s[5], s[6], s[7])
             == LowBits(t[0], t[1], t[2], t[3], t[4], t[5], t[6], t[7])
    ensures s == t
  {
    LowBitsInjective(s[0], s[1], s[2], s[3], s[4], s[5], s[6], s[7], t[0], t[1], t[2], t[3], t[4], t[5], t[6], t[7]);
  }

  lemma {:induction false} WidenInjective(a: Byte, b: Byte)
    requires Widen(a) == Widen(b)
    ensures a == b
  {
    SameFlags(Bits(a, 8), Bits(b, 8));
    assert Power2(4) == 16 && Power2(8) == 256;
    BitsInjective(a, b, 8);
  }

  /** For a fixed byte the register step is injective; for a fixed register, different bytes lead apart. */
  lemma {:induction false} CrcByteInjective(c: bv32, d: bv32, a: Byte, b: Byte)
    requires CrcByte(c, a) == CrcByte(d, b)
    ensures c == d ==> a == b
    ensures a == b ==> c == d
  {
    FeedInjective(c, d, Widen(a), Widen(b));
    if c == d { WidenInjective(a, b); }
  }

  /** Equal registers come of equal last bytes and equal registers before them. */
  lemma {:induction false} LastByteKeepsDifference(x: seq<Byte>, y: seq<Byte>)
    requires |x| == |y| > 0 && CrcRegister(x) == CrcRegister(y)
    ensures CrcRegister(x[..|x| - 1]) == CrcRegister(y[..|y| - 1]) <==> x[|x| - 1] == y[|y| - 1]
  {
    var n := |x| - 1;
    CrcByteInjective(CrcRegister(x[..n]), CrcRegister(y[..n]), x[n], y[n]);
  }

  lemma {:induction false} SuffixKeepsDifference(x: seq<Byte>, y: seq<Byte>, k: nat)
    requires |x| == |y| && k < |x|
    requires forall i :: 0 <= i < |x| ==> (x[i] == y[i] <==> i != k)
    ensures CrcRegister(x) != CrcRegister(y)
  {
    var n := |x| - 1;
    if k == n {
      assert x[..n] == y[..n];
    } else {
      SuffixKeepsDifference(x[..n], y[..n], k);
    }
    if CrcRegister(x) == CrcRegister(y) { LastByteKeepsDifference(x, y); }
  }

  /** Two messages of one length that differ in exactly one byte never share a CRC. */
  lemma {:induction false} OneByteChangesCrc(x: seq<Byte>, y: seq<Byte>, k: nat)
    requires |x| == |y| && k < |x|
    requires forall i :: 0 <= i < |x| ==> (x[i] == y[i] <==> i != k)
    ensures Crc(x) != Crc(y)
  {
    SuffixKeepsDifference(x, y, k);
    NotInjective(CrcRegister(x), CrcRegister(y));
  }

  /* ---------------------------------------------------------------- Adler-32 */

  const MOD_ADLER: int := 65_521

  function Sum(bytes: seq<Byte>): nat {
    if bytes == [] then 0 else Sum(bytes[..|bytes| - 1]) + bytes[|bytes| - 1]
  }

  /** Sum of the running sums `1 + D1`, `1 + D1 + D2`, ... of section 2.2 of RFC 1950. */
  function SumOfSums(bytes: seq<Byte>): nat {
    if bytes == [] then 0 else SumOfSums(bytes[..|bytes| - 1]) + 1 + Sum(bytes)
  }

  /** The checksum as the standard defines it: both sums modulo 65521, the second in the high half. */
  function Adler(bytes: seq<Byte>): U32 {
    SumOfSums(bytes) % MOD_ADLER * 65_536 + (1 + Sum(bytes)) % MOD_ADLER
  }

  /** The `n`-th byte counts once in each of the `|bytes| - n` running sums from its own on. */
  function Weighted(bytes: seq<Byte>, n: nat): nat
    requires n <= |bytes|
    decreases |bytes| - n
  {
    if n == |bytes| then 0 else (|bytes| - n) * bytes[n] + Weighted(bytes, n + 1)
  }

  lemma {:induction false} WeightedGrows(bytes: seq<Byte>, n: nat)
    requires bytes != [] && n < |bytes|
    ensures Weighted(bytes, n) == Weighted(bytes[..|bytes| - 1], n) + SumFrom(bytes, n)
    decreases |bytes| - n
  {
    var m := |bytes| - 1;
    if n < m {
      WeightedGrows(bytes, n + 1);
      assert (|bytes| - n) * bytes[n] == (m - n) * bytes[n] + bytes[n];
    } else {
      assert Weighted(bytes, n + 1) == 0 && Weighted(bytes[..m], n) == 0;
      assert (|bytes| - n) * bytes[n] == bytes[n];
      assert SumFrom(bytes, n + 1) == 0;
    }
  }

  function SumFrom(bytes: seq<Byte>, n: nat): nat
    requires n <= |bytes|
    decreases |bytes| - n
  {
    if n == |bytes| then 0 else bytes[n] + SumFrom(bytes, n + 1)
  }

  lemma {:induction false} SumFromPrefix(bytes: seq<Byte>, n: nat)
    requires n <= |bytes|
    ensures Sum(bytes[..n]) + SumFrom(bytes, n) == Sum(bytes)
    decreases |bytes| - n
  {
    if n == |bytes| {
      assert bytes[..n] == bytes;
    } else {
      assert bytes[..n + 1][..n] == bytes[..n];
      SumFromPrefix(bytes, n + 1);
    }
  }

  /** The closed form of the second sum: the length plus each byte times the number of running sums it is in. */
  lemma {:induction false} SumOfSumsClosedForm(bytes: seq<Byte>)
    ensures SumOfSums(bytes) == |bytes| + Weighted(bytes, 0)
  {
    if bytes != [] {
      SumOfSumsClosedForm(bytes[..|bytes| - 1]);
      WeightedGrows(bytes, 0);
      SumFromPrefix(bytes, 0);
      assert bytes[..0] == [];
    }
  }

  /** The low half is one more than the sum of the bytes, the high half the closed form, both modulo 65521. */
  lemma {:induction false} AdlerHalves(bytes: seq<Byte>)
    ensures Adler(bytes) % 0x1_0000 == (1 + SumFrom(bytes, 0)) % 65_521
    ensures Adler(bytes) / 0x1_0000 == (|bytes| + Weighted(bytes, 0)) % 65_521
  {
    SumOfSumsClosedForm(bytes);
    SumFromPrefix(bytes, 0);
    assert bytes[..0] == [];
    Halves(SumOfSums(bytes) % MOD_ADLER, (1 + Sum(bytes)) % MOD_ADLER);
  }

  lemma {:induction false} Halves(high: nat, low: nat)
    requires low < 65_536
    ensures (high * 65_536 + low) % 0x1_0000 == low && (high * 65_536 + low) / 0x1_0000 == high
  {
  }

  lemma {:induction false} AddThenMod(x: nat, y: nat)
    ensures (x % MOD_ADLER + y) % MOD_ADLER == (x + y) % MOD_ADLER
    ensures (y + x % MOD_ADLER) % MOD_ADLER == (x + y) % MOD_ADLER
  {
  }

  /** The loop, in u32 arithmetic that never overflows, is the standard's checksum on input of any length. */
  method Adler32(bytes: seq<Byte>) returns (r: U32)
    ensures r == Adler(bytes)
    ensures r % 0x1_0000 == (1 + SumFrom(bytes, 0)) % 65_521
    ensures r / 0x1_0000 == (|bytes| + Weighted(bytes, 0)) % 65_521
  {
    var a: U32, b: U32 := 1, 0;
    for i := 0 to |bytes|
      invariant a == (1 + Sum(bytes[..i])) % MOD_ADLER && b == SumOfSums(bytes[..i]) % MOD_ADLER
    {
      assert bytes[..i + 1][..i] == bytes[..i];
      AddThenMod(1 + Sum(bytes[..i]), bytes[i]);
      var sum: U32 := a + bytes[i];
      a := sum % MOD_ADLER;
      AddThenMod(SumOfSums(bytes[..i]), a);
      AddThenMod(1 + Sum(bytes[..i + 1]), SumOfSums(bytes[..i]));
      sum := b + a;
      b := sum % MOD_ADLER;
    }
    assert bytes[..|bytes|] == bytes;
    r := b * 65_536 + a;
    AdlerHalves(bytes);
  }
}
