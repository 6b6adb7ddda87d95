/** The CRC-32 shift register on its own: thirty-two bits, no bytes yet. */
module CrcRegisters {

  /** One bit of the reflected polynomial division. */
  function CrcBit(c: bv32): bv32 {
    if c & 1 == 1 then (c >> 1) ^ 0xEDB8_8320 else c >> 1
  }

  function CrcBits(c: bv32, n: nat): bv32 {
    if n == 0 then c else CrcBit(CrcBits(c, n - 1))
  }

  lemma {:induction false} MaskOfOdd(c: bv32, p: bv32)
    requires c & 1 == 1
    ensures p & (0 - (c & 1)) == p
  {
  }

  lemma {:induction false} MaskOfEven(c: bv32, p: bv32)
    requires c & 1 == 0
    ensures p & (0 - (c & 1)) == 0
  {
  }

  lemma {:induction false} LowBitIsOne(c: bv32)
    requires c & 1 != 0
    ensures c & 1 == 1
  {
  }

  /** The branch-free form: the low bit, negated with wrap-around, is the mask. */
  method ShiftBit(c: bv32) returns (crc: bv32)
    ensures crc == CrcBit(c)
  {
    if c & 1 == 0 {
      MaskOfEven(c, 0xEDB8_8320);
    } else {
      LowBitIsOne(c);
      MaskOfOdd(c, 0xEDB8_8320);
    }
    crc := (c >> 1) ^ (0xEDB8_8320 & (0 - (c & 1)));
    assert (c >> 1) ^ 0 == c >> 1;
  }

  /** The step run backwards: the top bit tells whether the polynomial was added. */
  function UncrcBit(c: bv32): bv32 {
    if c & 0x8000_0000 != 0 then ((c ^ 0xEDB8_8320) << 1) | 1 else c << 1
  }

  lemma {:induction false} OddUndone(c: bv32, r: bv32)
    requires c & 1 == 1 && r == (c >> 1) ^ 0xEDB8_8320
    ensures r & 0x8000_0000 != 0 && ((r ^ 0xEDB8_8320) << 1) | 1 == c
  {
  }

  lemma {:induction false} EvenUndone(c: bv32, r: bv32)
    requires c & 1 == 0 && r == c >> 1
    ensures r & 0x8000_0000 == 0 && r << 1 == c
  {
  }

  /** Any number of steps back. */
  function UncrcBits(c: bv32, n: nat): bv32
    decreases n
  {
    if n == 0 then c else UncrcBits(UncrcBit(c), n - 1)
  }

  lemma {:induction false} StepBack(c: bv32)
    ensures UncrcBit(CrcBit(c)) == c
  {
    if c & 1 == 0 {
      EvenUndone(c, CrcBit(c));
    } else {
      LowBitIsOne(c);
      OddUndone(c, CrcBit(c));
    }
  }

  lemma {:induction false} StepForth(c: bv32)
    ensures CrcBit(UncrcBit(c)) == c
  {
    if c & 0x8000_0000 != 0 {
      assert (((c ^ 0xEDB8_8320) << 1) | 1) & 1 == 1;
    } else {
      assert (c << 1) & 1 == 0;
    }
  }

  /** The step, repeated, is a bijection of the register: the steps back undo it, and it undoes them. */
  lemma {:induction false} CrcBitsAreBijection(c: bv32, n: nat)
    ensures UncrcBits(CrcBits(c, n), n) == c && CrcBits(UncrcBits(c, n), n) == c
    decreases n
  {
    if n > 0 {
      StepBack(CrcBits(c, n - 1));
      CrcBitsAreBijection(c, n - 1);
      CrcBitsAreBijection(UncrcBit(c), n - 1);
      StepForth(c);
    }
  }

  lemma {:induction false} CrcBitsInjective(c: bv32, d: bv32, n: nat)
    requires CrcBits(c, n) == CrcBits(d, n)
    ensures c == d
  {
    CrcBitsAreBijection(c, n);
    CrcBitsAreBijection(d, n);
  }

  lemma {:induction false} XorBack(c: bv32, x: bv32)
    ensures (c ^ x) ^ x == c && (c ^ x) ^ c == x
  {
  }

  lemma {:induction false} SameRegister(c: bv32, d: bv32, x: bv32, y: bv32)
    requires c ^ x == d ^ y && c == d
    ensures x == y
  {
    XorBack(c, x);
    XorBack(d, y);
  }

  lemma {:induction false} SameInput(c: bv32, d: bv32, x: bv32, y: bv32)
    requires c ^ x == d ^ y && x == y
    ensures c == d
  {
    XorBack(c, x);
    XorBack(d, y);
  }

  /** Eight steps keep registers apart that differ, and inputs that differ. */
  lemma {:induction false} FeedInjective(c: bv32, d: bv32, x: bv32, y: bv32)
    requires CrcBits(c ^ x, 8) == CrcBits(d ^ y, 8)
    ensures c == d ==> x == y
    ensures x == y ==> c == d
  {
    CrcBitsInjective(c ^ x, d ^ y, 8);
    if c == d { SameRegister(c, d, x, y); }
    if x == y { SameInput(c, d, x, y); }
  }

  /** Eight flags as the low bits of a register. */
  function LowBits(b0: bool, b1: bool, b2: bool, b3: bool, b4: bool, b5: bool, b6: bool, b7: bool): bv32 {
    (if b0 then 0x01 else 0) | (if b1 then 0x02 else 0) | (if b2 then 0x04 else 0) | (if b3 then 0x08 else 0)
    | (if b4 then 0x10 else 0) | (if b5 then 0x20 else 0) | (if b6 then 0x40 else 0) | (if b7 then 0x80 else 0)
  }

  lemma {:induction false} LowBitsRead(b0: bool, b1: bool, b2: bool, b3: bool, b4: bool, b5: bool, b6: bool, b7: bool)
    ensures var r := LowBits(b0, b1, b2, b3, b4, b5, b6, b7);
            && (r & 0x01 != 0) == b0 && (r & 0x02 != 0) == b1 && (r & 0x04 != 0) == b2 && (r & 0x08 != 0) == b3
            && (r & 0x10 != 0) == b4 && (r & 0x20 != 0) == b5 && (r & 0x40 != 0) == b6 && (r & 0x80 != 0) == b7
  {
  }

  lemma {:induction false} LowBitsInjective(
    a0: bool, a1: bool, a2: bool, a3: bool, a4: bool, a5: bool, a6: bool, a7: bool,
    b0: bool, b1: bool, b2: bool, b3: bool, b4: bool, b5: bool, b6: bool, b7: bool)
    requires LowBits(a0, a1, a2, a3, a4, a5, a6, a7) == LowBits(b0, b1, b2, b3, b4, b5, b6, b7)
    ensures a0 == b0 && a1 == b1 && a2 == b2 && a3 == b3 && a4 == b4 && a5 == b5 && a6 == b6 && a7 == b7
  {
    LowBitsRead(a0, a1, a2, a3, a4, a5, a6, a7);
    LowBitsRead(b0, b1, b2, b3, b4, b5, b6, b7);
  }

  lemma {:induction false} NotInjective(c: bv32, d: bv32)
    requires c != d
    ensures !c != !d
  {
  }
}
