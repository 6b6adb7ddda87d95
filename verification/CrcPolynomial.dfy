/** What the CRC of src/png.rs is: the remainder of a polynomial division, by bits and by hand. */
module CrcPolynomial {
  // A polynomial over the two-element field is the list of its coefficients, highest degree first.
  // Section 5.5 of the PNG specification: bytes are sent low bit first, the register starts with all
  // ones, the generator is x^32 + x^26 + x^23 + x^22 + x^16 + x^12 + x^11 + x^10 + x^8 + x^7 + x^5
  // + x^4 + x^2 + x + 1, and the remainder is complemented.

  import opened Wrappers
  import opened BitLists
  import opened CrcRegisters
  import opened Checksums

  /* ---------------------------------------------------------------- the division */

  /** Long division: while there is a term of degree 32 or more, the leading one is subtracted away. */
  function Remainder(p: Poly): (r: Poly)
    requires |p| >= 32
    ensures |r| == 32
    decreases |p|
  {
    if |p| == 32 then p
    else if p[0] then Remainder(Plus(p[1..33], GENERATOR) + p[33..])
    else Remainder(p[1..])
  }

  /** A byte as it is sent: low bit first. */
  function ByteBits(b: Byte): (r: Poly)
    ensures |r| == 8
  {
    [b % 2 == 1, b / 2 % 2 == 1, b / 4 % 2 == 1, b / 8 % 2 == 1,
     b / 16 % 2 == 1, b / 32 % 2 == 1, b / 64 % 2 == 1, b / 128 % 2 == 1]
  }

  function MessageBits(bytes: seq<Byte>): (r: Poly)
    ensures |r| == 8 * |bytes|
  {
    if |bytes| == 0 then [] else ByteBits(bytes[0]) + MessageBits(bytes[1..])
  }

  /** The message moved up by 32 degrees, with the start value added to its top 32 coefficients. */
  function Dividend(start: Poly, message: Poly): (r: Poly)
    requires |start| == 32
    ensures |r| == |message| + 32
  {
    Plus(start + Zeros(|message|), message + Zeros(32))
  }

  /* ---------------------------------------------------------------- one bit of the message */

  /** The register with a message bit added to its low bit, then shifted. */
  function Shifted(r: Poly, bit: bool): (s: Poly)
    requires |r| == 32
    ensures |s| == 32
  {
    if r[0] != bit then Plus(r[1..] + [false], GENERATOR) else r[1..] + [false]
  }

  function ShiftedBy(r: Poly, message: Poly): (s: Poly)
    requires |r| == 32
    ensures |s| == 32
    decreases |message|
  {
    if |message| == 0 then r else ShiftedBy(Shifted(r, message[0]), message[1..])
  }

  lemma {:induction false} DividendAt(start: Poly, message: Poly, i: nat)
    requires |start| == 32 && i < |message| + 32
    ensures Dividend(start, message)[i]
            == ((i < 32 && start[i]) != (i < |message| && message[i]))
  {
    assert (start + Zeros(|message|))[i] == (i < 32 && start[i]);
    assert (message + Zeros(32))[i] == (i < |message| && message[i]);
  }

  lemma {:induction false} ShiftedAt(r: Poly, bit: bool, i: nat)
    requires |r| == 32 && i < 32
    ensures Shifted(r, bit)[i] == ((i < 31 && r[i + 1]) != (r[0] != bit && GENERATOR[i]))
  {
    assert (r[1..] + [false])[i] == (i < 31 && r[i + 1]);
  }

  /** One step of the division leaves the dividend of the shifted register and the rest of the message. */
  lemma {:induction false} DivisionStep(r: Poly, message: Poly)
    requires |r| == 32 && |message| > 0
    ensures Remainder(Dividend(r, message)) == Remainder(Dividend(Shifted(r, message[0]), message[1..]))
  {
    var p, q := Dividend(r, message), Dividend(Shifted(r, message[0]), message[1..]);
    DividendAt(r, message, 0);
    var next := if p[0] then Plus(p[1..33], GENERATOR) + p[33..] else p[1..];
    forall i | 0 <= i < |q| ensures next[i] == q[i] {
      DividendAt(r, message, i + 1);
      DividendAt(Shifted(r, message[0]), message[1..], i);
      if i < 32 { ShiftedAt(r, message[0], i); }
    }
    assert next == q;
  }

  lemma {:induction false} DivisionIsShifting(r: Poly, message: Poly)
    requires |r| == 32
    ensures Remainder(Dividend(r, message)) == ShiftedBy(r, message)
    decreases |message|
  {
    if |message| == 0 {
      forall i | 0 <= i < 32 ensures Dividend(r, message)[i] == r[i] {
        DividendAt(r, message, i);
      }
      assert Dividend(r, message) == r;
    } else {
      DivisionStep(r, message);
      DivisionIsShifting(Shifted(r, message[0]), message[1..]);
    }
  }

  lemma {:induction false} ShiftedByConcat(r: Poly, a: Poly, b: Poly)
    requires |r| == 32
    ensures ShiftedBy(r, a + b) == ShiftedBy(ShiftedBy(r, a), b)
    decreases |a|
  {
    if |a| == 0 {
      assert a + b == b;
    } else {
      assert (a + b)[1..] == a[1..] + b;
      ShiftedByConcat(Shifted(r, a[0]), a[1..], b);
    }
  }

  /* ---------------------------------------------------------------- the register */

  /** A step of the register shifts its bits, with a zero message bit. */
  lemma {:induction false} BitStep(c: bv32, d: bv32)
    requires d == CrcBit(c)
    ensures RegisterBits(d) == Shifted(RegisterBits(c), false)
  {
    var h := c >> 1;
    assert RegisterBits(c)[0] == (c & 1 != 0);
    ShiftIsShift(c, h);
    if c & 1 != 0 {
      LowBitIsOne(c);
      XorIsPlus(h, 0xEDB8_8320, d);
      ConstantIsGenerator(0xEDB8_8320);
    }
  }

  lemma {:induction false} BitSteps(c: bv32, n: nat)
    ensures RegisterBits(CrcBits(c, n)) == ShiftedBy(RegisterBits(c), Zeros(n))
  {
    if n > 0 {
      BitSteps(c, n - 1);
      BitStep(CrcBits(c, n - 1), CrcBits(c, n));
      assert Zeros(n) == Zeros(n - 1) + [false];
      ShiftedByConcat(RegisterBits(c), Zeros(n - 1), [false]);
      assert [false][1..] == [];
    }
  }

  /* ---------------------------------------------------------------- whole bytes */

  /** `message` added to the low bits of the register. */
  function Fed(r: Poly, message: Poly): (s: Poly)
    requires |r| == 32 && |message| <= 32
    ensures |s| == 32
  {
    Plus(r, message + Zeros(32 - |message|))
  }

  lemma {:induction false} FedAt(r: Poly, message: Poly, i: nat)
    requires |r| == 32 && |message| <= 32 && i < 32
    ensures Fed(r, message)[i] == (r[i] != (i < |message| && message[i]))
  {
    assert (message + Zeros(32 - |message|))[i] == (i < |message| && message[i]);
  }

  /** Adding a message to the register at once, or bit by bit while it is shifted, comes to the same. */
  lemma {:induction false} FedAtOnce(r: Poly, message: Poly)
    requires |r| == 32 && |message| <= 32
    ensures ShiftedBy(Fed(r, message), Zeros(|message|)) == ShiftedBy(r, message)
    decreases |message|
  {
    if |message| == 0 {
      forall i | 0 <= i < 32 ensures Fed(r, message)[i] == r[i] {
        FedAt(r, message, i);
      }
      assert Fed(r, message) == r;
    } else {
      var one, other := Shifted(Fed(r, message), false), Fed(Shifted(r, message[0]), message[1..]);
      FedAt(r, message, 0);
      forall i | 0 <= i < 32 ensures one[i] == other[i] {
        ShiftedAt(Fed(r, message), false, i);
        if i < 31 { FedAt(r, message, i + 1); }
        FedAt(Shifted(r, message[0]), message[1..], i);
        ShiftedAt(r, message[0], i);
      }
      assert one == other;
      assert Zeros(|message|)[1..] == Zeros(|message| - 1);
      FedAtOnce(Shifted(r, message[0]), message[1..]);
    }
  }

  lemma {:induction false} LowBitsAreLow(b0: bool, b1: bool, b2: bool, b3: bool, b4: bool, b5: bool, b6: bool, b7: bool)
    ensures LowBits(b0, b1, b2, b3, b4, b5, b6, b7) >> 8 == 0
  {
  }

  lemma {:induction false} BitsPush(b: nat, h: nat, n: nat)
    requires h == b / 2
    ensures Bits(b, n + 1) == [b % 2 == 1] + Bits(h, n)
  {
  }

  lemma {:induction false} Halves(b: nat)
    ensures b / 2 / 2 == b / 4 && b / 4 / 2 == b / 8 && b / 8 / 2 == b / 16
    ensures b / 16 / 2 == b / 32 && b / 32 / 2 == b / 64 && b / 64 / 2 == b / 128
  {
  }

  lemma {:induction false} BitsFour(b: nat, b1: nat, b2: nat, b3: nat, b4: nat, n: nat)
    requires b1 == b / 2 && b2 == b1 / 2 && b3 == b2 / 2 && b4 == b3 / 2
    ensures Bits(b, n + 4)
            == [b % 2 == 1] + ([b1 % 2 == 1] + ([b2 % 2 == 1] + ([b3 % 2 == 1] + Bits(b4, n))))
  {
    BitsPush(b, b1, n + 3);
    BitsPush(b1, b2, n + 2);
    BitsPush(b2, b3, n + 1);
    BitsPush(b3, b4, n);
  }

  lemma {:induction false} ByteBitsAreBits(b: Byte)
    ensures Bits(b, 8) == ByteBits(b)
  {
    Halves(b);
    BitsFour(b, b / 2, b / 4, b / 8, b / 16, 4);
    BitsFour(b / 16, b / 32, b / 64, b / 128, b / 128 / 2, 0);
    EightOf(ByteBits(b));
  }

  lemma {:induction false} WidenLists(b: Byte)
    ensures Lists(Widen(b), Bits(b, 8))
  {
    var s := Bits(b, 8);
    LowBitsRead(s[0], s[1], s[2], s[3], s[4], s[5], s[6], s[7]);
    LowBitsAreLow(s[0], s[1], s[2], s[3], s[4], s[5], s[6], s[7]);
    FlagsList(Widen(b), s);
  }

  lemma {:induction false} WidenIsByte(b: Byte)
    ensures RegisterBits(Widen(b)) == ByteBits(b) + Zeros(24)
  {
    ByteBitsAreBits(b);
    WidenLists(b);
    forall k | 0 <= k < 32 ensures RegisterBits(Widen(b))[k] == (ByteBits(b) + Zeros(24))[k] {
      ListsBit(Widen(b), Bits(b, 8), k);
    }
  }

  lemma {:induction false} ByteStep(c: bv32, b: Byte)
    ensures RegisterBits(CrcByte(c, b)) == ShiftedBy(RegisterBits(c), ByteBits(b))
  {
    XorIsPlus(c, Widen(b), c ^ Widen(b));
    WidenIsByte(b);
    BitSteps(c ^ Widen(b), 8);
    FedAtOnce(RegisterBits(c), ByteBits(b));
  }

  lemma {:induction false} MessageBitsPush(bytes: seq<Byte>, b: Byte)
    ensures MessageBits(bytes + [b]) == MessageBits(bytes) + ByteBits(b)
  {
    if |bytes| == 0 {
      assert bytes + [b] == [b] && [b][1..] == [];
    } else {
      assert (bytes + [b])[1..] == bytes[1..] + [b];
      MessageBitsPush(bytes[1..], b);
    }
  }

  lemma {:induction false} RegisterIsShifting(bytes: seq<Byte>)
    ensures RegisterBits(CrcRegister(bytes)) == ShiftedBy(Ones(32), MessageBits(bytes))
  {
    if |bytes| == 0 {
      AllOnes();
    } else {
      var n := |bytes| - 1;
      RegisterIsShifting(bytes[..n]);
      ByteStep(CrcRegister(bytes[..n]), bytes[n]);
      assert bytes == bytes[..n] + [bytes[n]];
      MessageBitsPush(bytes[..n], bytes[n]);
      ShiftedByConcat(Ones(32), MessageBits(bytes[..n]), ByteBits(bytes[n]));
    }
  }

  lemma {:induction false} NotIsXor(c: bv32)
    ensures !c == c ^ 0xFFFF_FFFF
  {
  }

  /**
   The CRC of any message: its bits, the coefficient of x^31 in the low bit, are the complemented
   remainder of the message moved up by 32 degrees, with 32 ones added to its top, divided by the generator.
   */
  lemma {:induction false} CrcIsRemainder(bytes: seq<Byte>)
    ensures RegisterBits(Crc(bytes)) == Complement(Remainder(Dividend(Ones(32), MessageBits(bytes))))
  {
    RegisterIsShifting(bytes);
    DivisionIsShifting(Ones(32), MessageBits(bytes));
    NotIsXor(CrcRegister(bytes));
    XorIsPlus(CrcRegister(bytes), 0xFFFF_FFFF, Crc(bytes));
    AllOnes();
  }
}
