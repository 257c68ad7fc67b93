/** CRC-8 check of an HTU21D measurement: MSB-first polynomial long division
    of the 24-bit word (message << 8 | check value) by x^8 + x^5 + x^4 + 1.
    The division is defined step by step (Step, Divide), the check byte is the
    low byte of what is left (Crc), and CheckCrc is the loop that computes it.
    Bit positions are `bv32` values so that every shift is a shift by a
    bit-vector amount, as in the source's `uint32_t` arithmetic. */
module Crc8 {

  /** The generator polynomial x^8 + x^5 + x^4 + 1. */
  const Polynomial: bv32 := 0x131

  /** The polynomial shifted to the far left of a 24-bit register. */
  const ShiftedDivisor: bv32 := 0x988000

  /** Number of bit positions scanned: bits 23 down to 8. */
  const Positions: bv32 := 16

  lemma DivisorIsAlignedPolynomial()
    ensures ShiftedDivisor == Polynomial << 15
  {
  }

  /** The 24-bit dividend: the message in the high 16 bits, the check value in the low 8. */
  function Dividend(message: bv16, checkValue: bv8): bv32
  {
    (message as bv32 << 8) | checkValue as bv32
  }

  /** The dividend keeps both parts of the frame apart and has nothing above bit 23. */
  lemma DividendFields(message: bv16, checkValue: bv8)
    ensures Dividend(message, checkValue) >> 24 == 0
    ensures (Dividend(message, checkValue) >> 8) as bv16 == message
    ensures (Dividend(message, checkValue) & 0xFF) as bv8 == checkValue
  {
  }

  /** The bit that step i examines: bit 23 - i. */
  function Mask(i: bv32): bv32
    requires i < Positions
  {
    1 << (23 - i)
  }

  /** The divisor as it stands at step i, after i shifts to the right. */
  function Aligned(i: bv32): bv32
    requires i < Positions
  {
    ShiftedDivisor >> i
  }

  /** Bits 23 down to 24 - i of r are zero, and so is every bit above 23. */
  predicate HighClear(r: bv32, i: bv32)
    requires i <= Positions
  {
    r >> (24 - i) == 0
  }

  /** Step i of the division: if bit 23 - i is set, subtract (XOR) the divisor
      aligned under that bit. Past the last position a step changes nothing. */
  function Step(r: bv32, i: bv32): bv32
  {
    if i < Positions && r & Mask(i) != 0 then r ^ Aligned(i) else r
  }

  /** Runs steps i up to 15 of any step function over a state. */
  function Run<S>(step: (S, bv32) -> S, s: S, i: bv32): S
    requires i <= Positions
    decreases 16 - i as int
  {
    if i == Positions then s else Run(step, step(s, i), i + 1)
  }

  /** Steps i up to 15 of the division. */
  function Divide(r: bv32, i: bv32): bv32
    requires i <= Positions
  {
    Run(Step, r, i)
  }

  /** What is left of the dividend once all 16 steps have run. */
  function Remainder(message: bv16, checkValue: bv8): bv32
  {
    Divide(Dividend(message, checkValue), 0)
  }

  /** The byte the source returns: the remainder cast to 8 bits.
      Zero means the check value matches the message. */
  function Crc(message: bv16, checkValue: bv8): bv8
  {
    LowByte(Remainder(message, checkValue))
  }

  /** The (byte) cast: the low 8 bits of a word. */
  function LowByte(x: bv32): bv8
  {
    (x & 0xFF) as bv8
  }

  // ---------------------------------------------------------------------------
  // Facts about one step. Each is kept apart so that the solver sees a single
  // bit-vector question at a time.

  lemma StepSet(r: bv32, i: bv32)
    requires i < Positions && r & Mask(i) != 0
    ensures Step(r, i) == r ^ Aligned(i)
  {
  }

  lemma StepUnset(r: bv32, i: bv32)
    requires i < Positions && r & Mask(i) == 0
    ensures Step(r, i) == r
  {
  }

  lemma MaskIsOneBit(i: bv32)
    requires i < Positions
    ensures Mask(i) != 0 && Mask(i) & (Mask(i) - 1) == 0
  {
  }

  lemma OneBitXor(a: bv32, b: bv32, m: bv32)
    requires m & (m - 1) == 0
    ensures ((a ^ b) & m != 0) == ((a & m != 0) != (b & m != 0))
  {
  }

  /** A step clears the bit it examines and sets no bit above it. The shift
      amounts are made literal, one position at a time. */
  lemma StepClears(r: bv32, i: bv32)
    requires i < Positions && HighClear(r, i)
    ensures HighClear(Step(r, i), i + 1)
  {
    if i == 0 {
    } else if i == 1 {
    } else if i == 2 {
    } else if i == 3 {
    } else if i == 4 {
    } else if i == 5 {
    } else if i == 6 {
    } else if i == 7 {
    } else if i == 8 {
    } else if i == 9 {
    } else if i == 10 {
    } else if i == 11 {
    } else if i == 12 {
    } else if i == 13 {
    } else if i == 14 {
    } else if i == 15 {
    }
  }

  lemma StepXorBoth(a: bv32, b: bv32, i: bv32)
    requires i < Positions && a & Mask(i) != 0 && b & Mask(i) != 0 && (a ^ b) & Mask(i) == 0
    ensures Step(a ^ b, i) == Step(a, i) ^ Step(b, i)
  {
    assert (a ^ Aligned(i)) ^ (b ^ Aligned(i)) == a ^ b;
  }

  lemma StepXorOne(a: bv32, b: bv32, i: bv32)
    requires i < Positions && a & Mask(i) != 0 && b & Mask(i) == 0 && (a ^ b) & Mask(i) != 0
    ensures Step(a ^ b, i) == Step(a, i) ^ Step(b, i)
  {
    assert (a ^ Aligned(i)) ^ b == (a ^ b) ^ Aligned(i);
  }

  lemma StepXorNone(a: bv32, b: bv32, i: bv32)
    requires i < Positions && a & Mask(i) == 0 && b & Mask(i) == 0 && (a ^ b) & Mask(i) == 0
    ensures Step(a ^ b, i) == Step(a, i) ^ Step(b, i)
  {
  }

  /** One step is linear over GF(2). */
  lemma StepXor(a: bv32, b: bv32, i: bv32)
    ensures Step(a ^ b, i) == Step(a, i) ^ Step(b, i)
  {
    if i < Positions {
      MaskIsOneBit(i);
      OneBitXor(a, b, Mask(i));
      if a & Mask(i) != 0 {
        if b & Mask(i) != 0 { StepXorBoth(a, b, i); } else { StepXorOne(a, b, i); }
      } else {
        if b & Mask(i) != 0 {
          StepXorOne(b, a, i);
          assert b ^ a == a ^ b;
        } else {
          StepXorNone(a, b, i);
        }
      }
    }
  }

  lemma LowByteUntouched(c: bv32, i: bv32)
    requires i < Positions && c < 256
    ensures c & Mask(i) == 0
  {
  }

  // ---------------------------------------------------------------------------
  // The whole division.

  lemma {:induction false} DivideFitsByte(r: bv32, i: bv32)
    requires i <= Positions && HighClear(r, i)
    ensures Divide(r, i) < 256
    decreases 16 - i as int
  {
    if i < Positions {
      StepClears(r, i);
      DivideFitsByte(Step(r, i), i + 1);
    }
  }

  /** The final remainder has only its low 8 bits in use, so the byte cast loses nothing. */
  lemma RemainderFitsByte(message: bv16, checkValue: bv8)
    ensures Remainder(message, checkValue) < 256
    ensures Crc(message, checkValue) as bv32 == Remainder(message, checkValue)
  {
    DividendFields(message, checkValue);
    DivideFitsByte(Dividend(message, checkValue), 0);
  }

  /** If a step function commutes with a combining operation, so does any run of it. */
  lemma {:induction false} RunHomomorphic<S>(step: (S, bv32) -> S, combine: (S, S) -> S, a: S, b: S, i: bv32)
    requires i <= Positions
    requires forall x: S, y: S, j: bv32 :: step(combine(x, y), j) == combine(step(x, j), step(y, j))
    ensures Run(step, combine(a, b), i) == combine(Run(step, a, i), Run(step, b, i))
    decreases 16 - i as int
  {
    if i < Positions {
      RunHomomorphic(step, combine, step(a, i), step(b, i), i + 1);
    }
  }

  function Xor(x: bv32, y: bv32): bv32
  {
    x ^ y
  }

  lemma StepCommutesWithXor()
    ensures forall x: bv32, y: bv32, j: bv32 :: Step(Xor(x, y), j) == Xor(Step(x, j), Step(y, j))
  {
    forall x: bv32, y: bv32, j: bv32
      ensures Step(Xor(x, y), j) == Xor(Step(x, j), Step(y, j))
    {
      StepXor(x, y, j);
    }
  }

  /** The division is linear over GF(2). */
  lemma DivideXor(a: bv32, b: bv32)
    ensures Divide(Xor(a, b), 0) == Xor(Divide(a, 0), Divide(b, 0))
  {
    StepCommutesWithXor();
    RunHomomorphic(Step, Xor, a, b, 0);
  }

  /** A word with nothing above bit 7 is never touched by a step. */
  lemma {:induction false} DivideKeepsLowByte(c: bv32, i: bv32)
    requires i <= Positions && c < 256
    ensures Divide(c, i) == c
    decreases 16 - i as int
  {
    if i < Positions {
      LowByteUntouched(c, i);
      StepUnset(c, i);
      DivideKeepsLowByte(c, i + 1);
    }
  }

  // The facts below keep the XOR of two results behind Xor and XorByte, so
  // that each step of the argument is an equation between applications.

  function XorByte(x: bv8, y: bv8): bv8
  {
    x ^ y
  }

  lemma DividendXor(m1: bv16, c1: bv8, m2: bv16, c2: bv8)
    ensures Dividend(m1 ^ m2, c1 ^ c2) == Xor(Dividend(m1, c1), Dividend(m2, c2))
  {
  }

  lemma LowByteXor(x: bv32, y: bv32)
    ensures LowByte(Xor(x, y)) == XorByte(LowByte(x), LowByte(y))
  {
  }

  lemma RemainderXor(m1: bv16, c1: bv8, m2: bv16, c2: bv8)
    ensures Remainder(m1 ^ m2, c1 ^ c2) == Xor(Remainder(m1, c1), Remainder(m2, c2))
  {
    DividendXor(m1, c1, m2, c2);
    DivideXor(Dividend(m1, c1), Dividend(m2, c2));
  }

  /** The check is linear: the check of a XOR of two frames is the XOR of their checks. */
  lemma CrcLinear(m1: bv16, c1: bv8, m2: bv16, c2: bv8)
    ensures Crc(m1 ^ m2, c1 ^ c2) == XorByte(Crc(m1, c1), Crc(m2, c2))
  {
    RemainderXor(m1, c1, m2, c2);
    LowByteXor(Remainder(m1, c1), Remainder(m2, c2));
  }

  /** A frame whose message is zero is its own remainder. */
  lemma CrcOfCheckValueAlone(checkValue: bv8)
    ensures Crc(0, checkValue) == checkValue
  {
    assert Dividend(0, checkValue) == checkValue as bv32;
    DivideKeepsLowByte(checkValue as bv32, 0);
  }

  lemma CheckValueSplit(message: bv16, checkValue: bv8)
    ensures Crc(message, checkValue) == XorByte(Crc(message, 0), Crc(0, checkValue))
  {
    CrcLinear(message, 0, 0, checkValue);
    assert message ^ 0 == message && 0 ^ checkValue == checkValue;
  }

  /** The check value only occupies the low byte and never steers a branch. */
  lemma CheckValueXor(message: bv16, checkValue: bv8)
    ensures Crc(message, checkValue) == Crc(message, 0) ^ checkValue
  {
    CheckValueSplit(message, checkValue);
    CrcOfCheckValueAlone(checkValue);
  }

  /** For every message exactly one check value makes the check return 0. */
  lemma UniqueCheckValue(message: bv16, checkValue: bv8)
    ensures Crc(message, checkValue) == 0 <==> checkValue == Crc(message, 0)
  {
    CheckValueXor(message, checkValue);
  }

  /** The check value the division calls for is accepted. */
  lemma CheckValueAccepted(message: bv16)
    ensures Crc(message, Crc(message, 0)) == 0
  {
    UniqueCheckValue(message, Crc(message, 0));
  }

  /** Flipping any one bit of an accepted check value makes the check reject it. */
  lemma CheckValueBitFlipDetected(message: bv16, checkValue: bv8, j: bv8)
    requires Crc(message, checkValue) == 0 && j < 8
    ensures Crc(message, checkValue ^ (1 << j)) != 0
  {
    CheckValueXor(message, checkValue);
    CheckValueXor(message, checkValue ^ (1 << j));
  }

  // ---------------------------------------------------------------------------
  // The three vectors of the sensor's datasheet, each worked through the
  // sixteen steps of the division.

  /** Unfolds one step of the division onto a stated intermediate value. */
  lemma DivideStep(r: bv32, i: bv32, s: bv32)
    requires i < Positions && Step(r, i) == s
    ensures Divide(r, i) == Divide(s, i + 1)
  {
  }

  lemma DatasheetVectorA()
    ensures Crc(0x00DC, 0x79) == 0
  {
    assert Dividend(0x00DC, 0x79) == 0x00DC79;
    DivideStep(0x00DC79, 0, 0x00DC79);
    DivideStep(0x00DC79, 1, 0x00DC79);
    DivideStep(0x00DC79, 2, 0x00DC79);
    DivideStep(0x00DC79, 3, 0x00DC79);
    DivideStep(0x00DC79, 4, 0x00DC79);
    DivideStep(0x00DC79, 5, 0x00DC79);
    DivideStep(0x00DC79, 6, 0x00DC79);
    DivideStep(0x00DC79, 7, 0x00DC79);
    DivideStep(0x00DC79, 8, 0x0044F9);
    DivideStep(0x0044F9, 9, 0x0008B9);
    DivideStep(0x0008B9, 10, 0x0008B9);
    DivideStep(0x0008B9, 11, 0x0008B9);
    DivideStep(0x0008B9, 12, 0x000131);
    DivideStep(0x000131, 13, 0x000131);
    DivideStep(0x000131, 14, 0x000131);
    DivideStep(0x000131, 15, 0x000000);
  }

  lemma DatasheetVectorB()
    ensures Crc(0x683A, 0x7C) == 0
  {
    assert Dividend(0x683A, 0x7C) == 0x683A7C;
    DivideStep(0x683A7C, 0, 0x683A7C);
    DivideStep(0x683A7C, 1, 0x247A7C);
    DivideStep(0x247A7C, 2, 0x025A7C);
    DivideStep(0x025A7C, 3, 0x025A7C);
    DivideStep(0x025A7C, 4, 0x025A7C);
    DivideStep(0x025A7C, 5, 0x025A7C);
    DivideStep(0x025A7C, 6, 0x00387C);
    DivideStep(0x00387C, 7, 0x00387C);
    DivideStep(0x00387C, 8, 0x00387C);
    DivideStep(0x00387C, 9, 0x00387C);
    DivideStep(0x00387C, 10, 0x001E5C);
    DivideStep(0x001E5C, 11, 0x000D4C);
    DivideStep(0x000D4C, 12, 0x0004C4);
    DivideStep(0x0004C4, 13, 0x000000);
    DivideStep(0x000000, 14, 0x000000);
    DivideStep(0x000000, 15, 0x000000);
  }

  lemma DatasheetVectorC()
    ensures Crc(0x4E85, 0x6B) == 0
  {
    assert Dividend(0x4E85, 0x6B) == 0x4E856B;
    DivideStep(0x4E856B, 0, 0x4E856B);
    DivideStep(0x4E856B, 1, 0x02C56B);
    DivideStep(0x02C56B, 2, 0x02C56B);
    DivideStep(0x02C56B, 3, 0x02C56B);
    DivideStep(0x02C56B, 4, 0x02C56B);
    DivideStep(0x02C56B, 5, 0x02C56B);
    DivideStep(0x02C56B, 6, 0x00A76B);
    DivideStep(0x00A76B, 7, 0x00A76B);
    DivideStep(0x00A76B, 8, 0x003FEB);
    DivideStep(0x003FEB, 9, 0x003FEB);
    DivideStep(0x003FEB, 10, 0x0019CB);
    DivideStep(0x0019CB, 11, 0x000ADB);
    DivideStep(0x000ADB, 12, 0x000353);
    DivideStep(0x000353, 13, 0x000353);
    DivideStep(0x000353, 14, 0x000131);
    DivideStep(0x000131, 15, 0x000000);
  }

  // ---------------------------------------------------------------------------
  // The check bytes of the sixteen one-bit messages, each worked through the
  // division. None is zero, so no single flipped message bit goes unnoticed.

  lemma SingleBitMessage0()
    ensures Crc(0x0001, 0) == 0x31
  {
    assert Dividend(0x0001, 0) == 0x000100;
    DivideStep(0x000100, 0, 0x000100);
    DivideStep(0x000100, 1, 0x000100);
    DivideStep(0x000100, 2, 0x000100);
    DivideStep(0x000100, 3, 0x000100);
    DivideStep(0x000100, 4, 0x000100);
    DivideStep(0x000100, 5, 0x000100);
    DivideStep(0x000100, 6, 0x000100);
    DivideStep(0x000100, 7, 0x000100);
    DivideStep(0x000100, 8, 0x000100);
    DivideStep(0x000100, 9, 0x000100);
    DivideStep(0x000100, 10, 0x000100);
    DivideStep(0x000100, 11, 0x000100);
    DivideStep(0x000100, 12, 0x000100);
    DivideStep(0x000100, 13, 0x000100);
    DivideStep(0x000100, 14, 0x000100);
    DivideStep(0x000100, 15, 0x000031);
  }

  lemma SingleBitMessage1()
    ensures Crc(0x0002, 0) == 0x62
  {
    assert Dividend(0x0002, 0) == 0x000200;
    DivideStep(0x000200, 0, 0x000200);
    DivideStep(0x000200, 1, 0x000200);
    DivideStep(0x000200, 2, 0x000200);
    DivideStep(0x000200, 3, 0x000200);
    DivideStep(0x000200, 4, 0x000200);
    DivideStep(0x000200, 5, 0x000200);
    DivideStep(0x000200, 6, 0x000200);
    DivideStep(0x000200, 7, 0x000200);
    DivideStep(0x000200, 8, 0x000200);
    DivideStep(0x000200, 9, 0x000200);
    DivideStep(0x000200, 10, 0x000200);
    DivideStep(0x000200, 11, 0x000200);
    DivideStep(0x000200, 12, 0x000200);
    DivideStep(0x000200, 13, 0x000200);
    DivideStep(0x000200, 14, 0x000062);
    DivideStep(0x000062, 15, 0x000062);
  }

  lemma SingleBitMessage2()
    ensures Crc(0x0004, 0) == 0xC4
  {
    assert Dividend(0x0004, 0) == 0x000400;
    DivideStep(0x000400, 0, 0x000400);
    DivideStep(0x000400, 1, 0x000400);
    DivideStep(0x000400, 2, 0x000400);
    DivideStep(0x000400, 3, 0x000400);
    DivideStep(0x000400, 4, 0x000400);
    DivideStep(0x000400, 5, 0x000400);
    DivideStep(0x000400, 6, 0x000400);
    DivideStep(0x000400, 7, 0x000400);
    DivideStep(0x000400, 8, 0x000400);
    DivideStep(0x000400, 9, 0x000400);
    DivideStep(0x000400, 10, 0x000400);
    DivideStep(0x000400, 11, 0x000400);
    DivideStep(0x000400, 12, 0x000400);
    DivideStep(0x000400, 13, 0x0000C4);
    DivideStep(0x0000C4, 14, 0x0000C4);
    DivideStep(0x0000C4, 15, 0x0000C4);
  }

  lemma SingleBitMessage3()
    ensures Crc(0x0008, 0) == 0xB9
  {
    assert Dividend(0x0008, 0) == 0x000800;
    DivideStep(0x000800, 0, 0x000800);
    DivideStep(0x000800, 1, 0x000800);
    DivideStep(0x000800, 2, 0x000800);
    DivideStep(0x000800, 3, 0x000800);
    DivideStep(0x000800, 4, 0x000800);
    DivideStep(0x000800, 5, 0x000800);
    DivideStep(0x000800, 6, 0x000800);
    DivideStep(0x000800, 7, 0x000800);
    DivideStep(0x000800, 8, 0x000800);
    DivideStep(0x000800, 9, 0x000800);
    DivideStep(0x000800, 10, 0x000800);
    DivideStep(0x000800, 11, 0x000800);
    DivideStep(0x000800, 12, 0x000188);
    DivideStep(0x000188, 13, 0x000188);
    DivideStep(0x000188, 14, 0x000188);
    DivideStep(0x000188, 15, 0x0000B9);
  }

  lemma SingleBitMessage4()
    ensures Crc(0x0010, 0) == 0x43
  {
    assert Dividend(0x0010, 0) == 0x001000;
    DivideStep(0x001000, 0, 0x001000);
    DivideStep(0x001000, 1, 0x001000);
    DivideStep(0x001000, 2, 0x001000);
    DivideStep(0x001000, 3, 0x001000);
    DivideStep(0x001000, 4, 0x001000);
    DivideStep(0x001000, 5, 0x001000);
    DivideStep(0x001000, 6, 0x001000);
    DivideStep(0x001000, 7, 0x001000);
    DivideStep(0x001000, 8, 0x001000);
    DivideStep(0x001000, 9, 0x001000);
    DivideStep(0x001000, 10, 0x001000);
    DivideStep(0x001000, 11, 0x000310);
    DivideStep(0x000310, 12, 0x000310);
    DivideStep(0x000310, 13, 0x000310);
    DivideStep(0x000310, 14, 0x000172);
    DivideStep(0x000172, 15, 0x000043);
  }

  lemma SingleBitMessage5()
    ensures Crc(0x0020, 0) == 0x86
  {
    assert Dividend(0x0020, 0) == 0x002000;
    DivideStep(0x002000, 0, 0x002000);
    DivideStep(0x002000, 1, 0x002000);
    DivideStep(0x002000, 2, 0x002000);
    DivideStep(0x002000, 3, 0x002000);
    DivideStep(0x002000, 4, 0x002000);
    DivideStep(0x002000, 5, 0x002000);
    DivideStep(0x002000, 6, 0x002000);
    DivideStep(0x002000, 7, 0x002000);
    DivideStep(0x002000, 8, 0x002000);
    DivideStep(0x002000, 9, 0x002000);
    DivideStep(0x002000, 10, 0x000620);
    DivideStep(0x000620, 11, 0x000620);
    DivideStep(0x000620, 12, 0x000620);
    DivideStep(0x000620, 13, 0x0002E4);
    DivideStep(0x0002E4, 14, 0x000086);
    DivideStep(0x000086, 15, 0x000086);
  }

  lemma SingleBitMessage6()
    ensures Crc(0x0040, 0) == 0x3D
  {
    assert Dividend(0x0040, 0) == 0x004000;
    DivideStep(0x004000, 0, 0x004000);
    DivideStep(0x004000, 1, 0x004000);
    DivideStep(0x004000, 2, 0x004000);
    DivideStep(0x004000, 3, 0x004000);
    DivideStep(0x004000, 4, 0x004000);
    DivideStep(0x004000, 5, 0x004000);
    DivideStep(0x004000, 6, 0x004000);
    DivideStep(0x004000, 7, 0x004000);
    DivideStep(0x004000, 8, 0x004000);
    DivideStep(0x004000, 9, 0x000C40);
    DivideStep(0x000C40, 10, 0x000C40);
    DivideStep(0x000C40, 11, 0x000C40);
    DivideStep(0x000C40, 12, 0x0005C8);
    DivideStep(0x0005C8, 13, 0x00010C);
    DivideStep(0x00010C, 14, 0x00010C);
    DivideStep(0x00010C, 15, 0x00003D);
  }

  lemma SingleBitMessage7()
    ensures Crc(0x0080, 0) == 0x7A
  {
    assert Dividend(0x0080, 0) == 0x008000;
    DivideStep(0x008000, 0, 0x008000);
    DivideStep(0x008000, 1, 0x008000);
    DivideStep(0x008000, 2, 0x008000);
    DivideStep(0x008000, 3, 0x008000);
    DivideStep(0x008000, 4, 0x008000);
    DivideStep(0x008000, 5, 0x008000);
    DivideStep(0x008000, 6, 0x008000);
    DivideStep(0x008000, 7, 0x008000);
    DivideStep(0x008000, 8, 0x001880);
    DivideStep(0x001880, 9, 0x001880);
    DivideStep(0x001880, 10, 0x001880);
    DivideStep(0x001880, 11, 0x000B90);
    DivideStep(0x000B90, 12, 0x000218);
    DivideStep(0x000218, 13, 0x000218);
    DivideStep(0x000218, 14, 0x00007A);
    DivideStep(0x00007A, 15, 0x00007A);
  }

  lemma SingleBitMessage8()
    ensures Crc(0x0100, 0) == 0xF4
  {
    assert Dividend(0x0100, 0) == 0x010000;
    DivideStep(0x010000, 0, 0x010000);
    DivideStep(0x010000, 1, 0x010000);
    DivideStep(0x010000, 2, 0x010000);
    DivideStep(0x010000, 3, 0x010000);
    DivideStep(0x010000, 4, 0x010000);
    DivideStep(0x010000, 5, 0x010000);
    DivideStep(0x010000, 6, 0x010000);
    DivideStep(0x010000, 7, 0x003100);
    DivideStep(0x003100, 8, 0x003100);
    DivideStep(0x003100, 9, 0x003100);
    DivideStep(0x003100, 10, 0x001720);
    DivideStep(0x001720, 11, 0x000430);
    DivideStep(0x000430, 12, 0x000430);
    DivideStep(0x000430, 13, 0x0000F4);
    DivideStep(0x0000F4, 14, 0x0000F4);
    DivideStep(0x0000F4, 15, 0x0000F4);
  }

  lemma SingleBitMessage9()
    ensures Crc(0x0200, 0) == 0xD9
  {
    assert Dividend(0x0200, 0) == 0x020000;
    DivideStep(0x020000, 0, 0x020000);
    DivideStep(0x020000, 1, 0x020000);
    DivideStep(0x020000, 2, 0x020000);
    DivideStep(0x020000, 3, 0x020000);
    DivideStep(0x020000, 4, 0x020000);
    DivideStep(0x020000, 5, 0x020000);
    DivideStep(0x020000, 6, 0x006200);
    DivideStep(0x006200, 7, 0x006200);
    DivideStep(0x006200, 8, 0x006200);
    DivideStep(0x006200, 9, 0x002E40);
    DivideStep(0x002E40, 10, 0x000860);
    DivideStep(0x000860, 11, 0x000860);
    DivideStep(0x000860, 12, 0x0001E8);
    DivideStep(0x0001E8, 13, 0x0001E8);
    DivideStep(0x0001E8, 14, 0x0001E8);
    DivideStep(0x0001E8, 15, 0x0000D9);
  }

  lemma SingleBitMessage10()
    ensures Crc(0x0400, 0) == 0x83
  {
    assert Dividend(0x0400, 0) == 0x040000;
    DivideStep(0x040000, 0, 0x040000);
    DivideStep(0x040000, 1, 0x040000);
    DivideStep(0x040000, 2, 0x040000);
    DivideStep(0x040000, 3, 0x040000);
    DivideStep(0x040000, 4, 0x040000);
    DivideStep(0x040000, 5, 0x00C400);
    DivideStep(0x00C400, 6, 0x00C400);
    DivideStep(0x00C400, 7, 0x00C400);
    DivideStep(0x00C400, 8, 0x005C80);
    DivideStep(0x005C80, 9, 0x0010C0);
    DivideStep(0x0010C0, 10, 0x0010C0);
    DivideStep(0x0010C0, 11, 0x0003D0);
    DivideStep(0x0003D0, 12, 0x0003D0);
    DivideStep(0x0003D0, 13, 0x0003D0);
    DivideStep(0x0003D0, 14, 0x0001B2);
    DivideStep(0x0001B2, 15, 0x000083);
  }

  lemma SingleBitMessage11()
    ensures Crc(0x0800, 0) == 0x37
  {
    assert Dividend(0x0800, 0) == 0x080000;
    DivideStep(0x080000, 0, 0x080000);
    DivideStep(0x080000, 1, 0x080000);
    DivideStep(0x080000, 2, 0x080000);
    DivideStep(0x080000, 3, 0x080000);
    DivideStep(0x080000, 4, 0x018800);
    DivideStep(0x018800, 5, 0x018800);
    DivideStep(0x018800, 6, 0x018800);
    DivideStep(0x018800, 7, 0x00B900);
    DivideStep(0x00B900, 8, 0x002180);
    DivideStep(0x002180, 9, 0x002180);
    DivideStep(0x002180, 10, 0x0007A0);
    DivideStep(0x0007A0, 11, 0x0007A0);
    DivideStep(0x0007A0, 12, 0x0007A0);
    DivideStep(0x0007A0, 13, 0x000364);
    DivideStep(0x000364, 14, 0x000106);
    DivideStep(0x000106, 15, 0x000037);
  }

  lemma SingleBitMessage12()
    ensures Crc(0x1000, 0) == 0x6E
  {
    assert Dividend(0x1000, 0) == 0x100000;
    DivideStep(0x100000, 0, 0x100000);
    DivideStep(0x100000, 1, 0x100000);
    DivideStep(0x100000, 2, 0x100000);
    DivideStep(0x100000, 3, 0x031000);
    DivideStep(0x031000, 4, 0x031000);
    DivideStep(0x031000, 5, 0x031000);
    DivideStep(0x031000, 6, 0x017200);
    DivideStep(0x017200, 7, 0x004300);
    DivideStep(0x004300, 8, 0x004300);
    DivideStep(0x004300, 9, 0x000F40);
    DivideStep(0x000F40, 10, 0x000F40);
    DivideStep(0x000F40, 11, 0x000F40);
    DivideStep(0x000F40, 12, 0x0006C8);
    DivideStep(0x0006C8, 13, 0x00020C);
    DivideStep(0x00020C, 14, 0x00006E);
    DivideStep(0x00006E, 15, 0x00006E);
  }

  lemma SingleBitMessage13()
    ensures Crc(0x2000, 0) == 0xDC
  {
    assert Dividend(0x2000, 0) == 0x200000;
    DivideStep(0x200000, 0, 0x200000);
    DivideStep(0x200000, 1, 0x200000);
    DivideStep(0x200000, 2, 0x062000);
    DivideStep(0x062000, 3, 0x062000);
    DivideStep(0x062000, 4, 0x062000);
    DivideStep(0x062000, 5, 0x02E400);
    DivideStep(0x02E400, 6, 0x008600);
    DivideStep(0x008600, 7, 0x008600);
    DivideStep(0x008600, 8, 0x001E80);
    DivideStep(0x001E80, 9, 0x001E80);
    DivideStep(0x001E80, 10, 0x001E80);
    DivideStep(0x001E80, 11, 0x000D90);
    DivideStep(0x000D90, 12, 0x000418);
    DivideStep(0x000418, 13, 0x0000DC);
    DivideStep(0x0000DC, 14, 0x0000DC);
    DivideStep(0x0000DC, 15, 0x0000DC);
  }

  lemma SingleBitMessage14()
    ensures Crc(0x4000, 0) == 0x89
  {
    assert Dividend(0x4000, 0) == 0x400000;
    DivideStep(0x400000, 0, 0x400000);
    DivideStep(0x400000, 1, 0x0C4000);
    DivideStep(0x0C4000, 2, 0x0C4000);
    DivideStep(0x0C4000, 3, 0x0C4000);
    DivideStep(0x0C4000, 4, 0x05C800);
    DivideStep(0x05C800, 5, 0x010C00);
    DivideStep(0x010C00, 6, 0x010C00);
    DivideStep(0x010C00, 7, 0x003D00);
    DivideStep(0x003D00, 8, 0x003D00);
    DivideStep(0x003D00, 9, 0x003D00);
    DivideStep(0x003D00, 10, 0x001B20);
    DivideStep(0x001B20, 11, 0x000830);
    DivideStep(0x000830, 12, 0x0001B8);
    DivideStep(0x0001B8, 13, 0x0001B8);
    DivideStep(0x0001B8, 14, 0x0001B8);
    DivideStep(0x0001B8, 15, 0x000089);
  }

  lemma SingleBitMessage15()
    ensures Crc(0x8000, 0) == 0x23
  {
    assert Dividend(0x8000, 0) == 0x800000;
    DivideStep(0x800000, 0, 0x188000);
    DivideStep(0x188000, 1, 0x188000);
    DivideStep(0x188000, 2, 0x188000);
    DivideStep(0x188000, 3, 0x0B9000);
    DivideStep(0x0B9000, 4, 0x021800);
    DivideStep(0x021800, 5, 0x021800);
    DivideStep(0x021800, 6, 0x007A00);
    DivideStep(0x007A00, 7, 0x007A00);
    DivideStep(0x007A00, 8, 0x007A00);
    DivideStep(0x007A00, 9, 0x003640);
    DivideStep(0x003640, 10, 0x001060);
    DivideStep(0x001060, 11, 0x000370);
    DivideStep(0x000370, 12, 0x000370);
    DivideStep(0x000370, 13, 0x000370);
    DivideStep(0x000370, 14, 0x000112);
    DivideStep(0x000112, 15, 0x000023);
  }

  /** The check byte of the message with only bit j set is never zero. */
  lemma SingleBitMessage(j: bv16)
    requires j < 16
    ensures Crc(1 << j, 0) != 0
  {
    if j == 0 { SingleBitMessage0(); }
    else if j == 1 { SingleBitMessage1(); }
    else if j == 2 { SingleBitMessage2(); }
    else if j == 3 { SingleBitMessage3(); }
    else if j == 4 { SingleBitMessage4(); }
    else if j == 5 { SingleBitMessage5(); }
    else if j == 6 { SingleBitMessage6(); }
    else if j == 7 { SingleBitMessage7(); }
    else if j == 8 { SingleBitMessage8(); }
    else if j == 9 { SingleBitMessage9(); }
    else if j == 10 { SingleBitMessage10(); }
    else if j == 11 { SingleBitMessage11(); }
    else if j == 12 { SingleBitMessage12(); }
    else if j == 13 { SingleBitMessage13(); }
    else if j == 14 { SingleBitMessage14(); }
    else { SingleBitMessage15(); }
  }

  /** A flip pattern whose own check byte is non-zero is caught in every
      accepted frame. */
  lemma FlipCaught(message: bv16, checkValue: bv8, flip: bv16)
    requires Crc(message, checkValue) == 0 && Crc(flip, 0) != 0
    ensures Crc(message ^ flip, checkValue) != 0
  {
    CrcLinear(message, checkValue, flip, 0);
    XorByteZero(Crc(flip, 0));
  }

  lemma XorByteZero(x: bv8)
    ensures XorByte(0, x) == x
  {
  }

  /** Flipping any one of the sixteen message bits of an accepted frame makes
      the check reject it. */
  lemma MessageBitFlipDetected(message: bv16, checkValue: bv8, j: bv16)
    requires Crc(message, checkValue) == 0 && j < 16
    ensures Crc(message ^ (1 << j), checkValue) != 0
  {
    SingleBitMessage(j);
    FlipCaught(message, checkValue, 1 << j);
  }

  // ---------------------------------------------------------------------------
  // The loop of the source.

  lemma DivisorShift(i: bv32)
    requires i < Positions
    ensures Aligned(i) >> 1 == ShiftedDivisor >> (i + 1)
  {
  }

  /** The source's checkCRC: a 16-step scan over a 24-bit working register. */
  method CheckCrc(messageFromSensor: bv16, checkValueFromSensor: bv8) returns (crc: bv8)
    ensures crc == Crc(messageFromSensor, checkValueFromSensor)
    ensures crc as bv32 == Remainder(messageFromSensor, checkValueFromSensor)
  {
    var remainder: bv32 := messageFromSensor as bv32 << 8;
    remainder := remainder | checkValueFromSensor as bv32;
    var divisor: bv32 := ShiftedDivisor;
    var i: bv32 := 0;
    while i < Positions
      invariant i <= Positions
      invariant divisor == ShiftedDivisor >> i
      invariant HighClear(remainder, i)
      invariant Divide(remainder, i) == Remainder(messageFromSensor, checkValueFromSensor)
      decreases 16 - i as int
    {
      StepClears(remainder, i);
      DivisorShift(i);
      if remainder & (1 << (23 - i)) != 0 {
        StepSet(remainder, i);
        remainder := remainder ^ divisor;
      } else {
        StepUnset(remainder, i);
      }
      divisor := divisor >> 1;
      i := i + 1;
    }
    crc := (remainder & 0xFF) as bv8;
  }
}
