/**
 The bitwise reflected CRC with 16 bits, as it is used for MODBUS RTU frames.
 */
module Crc {
  import opened Bits

  // The default polynomial, x^16 + x^15 + x^2 + 1, with its bits reversed.
  const MODBUS_POLY: bv16 := 0xA001

  // One bit of the register is shifted out.
  function Step(crc: bv16, poly: bv16): bv16 {
    if Odd(crc) then Xor(Half(crc), poly) else Half(crc)
  }

  function Steps(crc: bv16, poly: bv16, n: nat): bv16
    decreases n
  {
    if n == 0 then crc else Steps(Step(crc, poly), poly, n - 1)
  }

  function Feed(crc: bv16, byte: bv8, poly: bv16): bv16 {
    Steps(Xor(crc, Wide(byte)), poly, 8)
  }

  function CrcOf(data: seq<bv8>, poly: bv16, initial: bv16): bv16 {
    if data == [] then initial else CrcOf(data[1..], poly, Feed(initial, data[0], poly))
  }

  method Crc16(data: seq<bv8>, poly: bv16 := MODBUS_POLY, initial: bv16 := 0) returns (crc: bv16)
    ensures crc == CrcOf(data, poly, initial)
  {
    hide Xor, Half, Odd, Wide;
    crc := initial;
    var k := 0;
    while k < |data|
      invariant 0 <= k <= |data|
      invariant CrcOf(data[k..], poly, crc) == CrcOf(data, poly, initial)
    {
      ghost var fed := Feed(crc, data[k], poly);
      crc := Xor(crc, Wide(data[k]));
      var i := 0;
      while i < 8
        invariant 0 <= i <= 8
        invariant Steps(crc, poly, 8 - i) == fed
      {
        if Odd(crc) {
          crc := Xor(Half(crc), poly);
        } else {
          crc := Half(crc);
        }
        i := i + 1;
      }
      assert data[k..][1..] == data[k + 1..];
      k := k + 1;
    }
  }

  // ---------------------------------------------------------------------------------------
  // Composition

  /** The CRC of a message is the CRC of its end, started from the CRC of its beginning. */
  lemma {:induction false} Composition(a: seq<bv8>, b: seq<bv8>, poly: bv16, initial: bv16)
    ensures CrcOf(a + b, poly, initial) == CrcOf(b, poly, CrcOf(a, poly, initial))
    decreases |a|
  {
    hide Feed;
    if a == [] {
      assert a + b == b;
    } else {
      assert (a + b)[1..] == a[1..] + b;
      Composition(a[1..], b, poly, Feed(initial, a[0], poly));
    }
  }

  // ---------------------------------------------------------------------------------------
  // Zero residue

  lemma ZeroBitShiftsOut(x: bv16, poly: bv16, n: nat)
    requires n > 0 && !Odd(x)
    ensures Steps(x, poly, n) == Steps(Half(x), poly, n - 1)
  {
    hide Xor, Half, Odd;
  }

  // Eight zero bits are shifted out without an effect of the polynomial.
  lemma ShiftsOut(high: bv16, poly: bv16)
    requires high < 0x100
    ensures Steps(high << 8, poly, 8) == high
  {
    hide Xor, Half, Odd, Steps;
    ShiftDown(high);
    ZeroBitShiftsOut(high << 8, poly, 8);
    ZeroBitShiftsOut(high << 7, poly, 7);
    ZeroBitShiftsOut(high << 6, poly, 6);
    ZeroBitShiftsOut(high << 5, poly, 5);
    ZeroBitShiftsOut(high << 4, poly, 4);
    ZeroBitShiftsOut(high << 3, poly, 3);
    ZeroBitShiftsOut(high << 2, poly, 2);
    ZeroBitShiftsOut(high << 1, poly, 1);
    assert Steps(high, poly, 0) == high by { NoSteps(high, poly); }
  }

  lemma NoSteps(crc: bv16, poly: bv16)
    ensures Steps(crc, poly, 0) == crc
  {
  }

  // The low byte of the register cancels itself, and leaves the high byte.
  lemma FeedLow(crc: bv16, poly: bv16)
    ensures Feed(crc, Low(crc), poly) == Wide(High(crc))
  {
    hide Xor, Wide, Low, High, Steps;
    WideIsSmall(High(crc));
    LowCancels(crc);
    ShiftsOut(Wide(High(crc)), poly);
  }

  lemma FeedSame(byte: bv8, poly: bv16)
    ensures Feed(Wide(byte), byte, poly) == 0
  {
    hide Xor, Wide, Steps;
    XorUnits(Wide(byte));
    ShiftsOut(0, poly);
    assert (0 as bv16) << 8 == 0;
  }

  lemma CrcOfTwo(a: bv8, b: bv8, poly: bv16, initial: bv16)
    ensures CrcOf([a, b], poly, initial) == Feed(Feed(initial, a, poly), b, poly)
  {
    hide Feed;
    assert [a, b][1..] == [b] && [b][1..] == [];
    assert CrcOf([a, b], poly, initial) == CrcOf([b], poly, Feed(initial, a, poly));
    assert CrcOf([b], poly, Feed(initial, a, poly)) == CrcOf([], poly, Feed(Feed(initial, a, poly), b, poly));
  }

  /** A message followed by its CRC, low byte first, has the CRC zero. */
  lemma ZeroResidue(data: seq<bv8>, poly: bv16, initial: bv16)
    ensures var crc := CrcOf(data, poly, initial);
            CrcOf(data + [Low(crc), High(crc)], poly, initial) == 0
  {
    hide Feed, Wide, Low, High, CrcOf;
    var crc := CrcOf(data, poly, initial);
    Composition(data, [Low(crc), High(crc)], poly, initial);
    CrcOfTwo(Low(crc), High(crc), poly, crc);
    FeedLow(crc, poly);
    FeedSame(High(crc), poly);
  }

  // ---------------------------------------------------------------------------------------
  // Linearity

  lemma StepIsLinear(a: bv16, b: bv16, poly: bv16)
    ensures Step(Xor(a, b), poly) == Xor(Step(a, poly), Step(b, poly))
  {
    hide Xor, Half, Odd;
    OddXor(a, b);
    HalfOfXor(a, b);
    XorCancels(Half(a), Half(b), poly);
    XorAssociates(Half(a), Half(b), poly);
    XorAssociates(Half(a), poly, Half(b));
    XorCommutes(poly, Half(b));
  }

  // ---------------------------------------------------------------------------------------
  // Bit by bit

  function FeedBits(crc: bv16, bits: seq<bool>, poly: bv16): bv16
    decreases |bits|
  {
    if bits == [] then crc else FeedBits(Step(Xor(crc, Bit(bits[0])), poly), bits[1..], poly)
  }

  // The n least significant bits of x, which are sent in this order.
  function LowBits(x: bv16, n: nat): (bits: seq<bool>)
    ensures |bits| == n
  {
    if n == 0 then [] else [Odd(x)] + LowBits(Half(x), n - 1)
  }

  function ShiftRight(x: bv16, n: nat): bv16 {
    if n == 0 then x else ShiftRight(Half(x), n - 1)
  }

  function BitsOf(data: seq<bv8>): (bits: seq<bool>)
    ensures |bits| == 8 * |data|
  {
    if data == [] then [] else LowBits(Wide(data[0]), 8) + BitsOf(data[1..])
  }

  // A bit of the input takes its place in the register, and the others follow.
  lemma StepTakesOneBit(crc: bv16, x: bv16, poly: bv16)
    ensures Step(Xor(crc, x), poly) == Xor(Step(Xor(crc, Bit(Odd(x))), poly), Half(x))
  {
    hide Xor, Half, Odd, Bit;
    var b := Bit(Odd(x));
    OddXor(crc, x);
    OddXor(crc, b);
    HalfOfXor(crc, x);
    HalfOfXor(crc, b);
    BitParts(Odd(x));
    XorUnits(Half(crc));
    XorAssociates(Half(crc), Half(x), poly);
    XorAssociates(Half(crc), poly, Half(x));
    XorCommutes(Half(x), poly);
  }

  lemma {:induction false} StepsTakeBits(crc: bv16, x: bv16, poly: bv16, n: nat)
    ensures Steps(Xor(crc, x), poly, n) == Xor(FeedBits(crc, LowBits(x, n), poly), ShiftRight(x, n))
    decreases n
  {
    hide Xor, Half, Odd, Bit, Step;
    if n > 0 {
      StepTakesOneBit(crc, x, poly);
      StepsTakeBits(Step(Xor(crc, Bit(Odd(x))), poly), Half(x), poly, n - 1);
      assert LowBits(x, n)[1..] == LowBits(Half(x), n - 1);
    }
  }

  // 2^n as a register value.
  function Power(n: nat): bv16 {
    if n == 0 then 1 else Double(Power(n - 1))
  }

  lemma Powers(n: nat)
    requires n <= 15
    ensures 0 < Power(n) <= 0x8000 && (n < 15 ==> Power(n) < 0x8000)
    ensures Power(0) == 1 && Power(8) == 0x100
    ensures n > 0 ==> Power(n) == Double(Power(n - 1))
  {
    assert Power(1) == 2 && Power(2) == 4 && Power(3) == 8;
    assert Power(4) == 16 && Power(5) == 32 && Power(6) == 64 && Power(7) == 128;
    assert Power(8) == 256 && Power(9) == 512 && Power(10) == 1024 && Power(11) == 2048;
    assert Power(12) == 4096 && Power(13) == 0x2000 && Power(14) == 0x4000 && Power(15) == 0x8000;
  }

  lemma {:induction false} ShiftsToZero(x: bv16, n: nat)
    requires n <= 15 && x < Power(n)
    ensures ShiftRight(x, n) == 0
    decreases n
  {
    hide Half, Double, Power;
    Powers(n);
    if n > 0 {
      Powers(n - 1);
      HalvesOfBelow(x, Power(n - 1));
      ShiftsToZero(Half(x), n - 1);
    }
  }

  lemma {:induction false} ZeroAfterShifts(x: bv16, n: nat)
    requires n <= 15 && ShiftRight(x, n) == 0
    ensures x < Power(n)
    decreases n
  {
    hide Half, Double, Power;
    Powers(n);
    if n > 0 {
      Powers(n - 1);
      ZeroAfterShifts(Half(x), n - 1);
      HalfBelow(x, Power(n - 1));
    }
  }

  /** n halvings take x to zero exactly when it is below 2^n. */
  lemma ShiftRightToZero(x: bv16, n: nat)
    requires n <= 15
    ensures ShiftRight(x, n) == 0 <==> x < Power(n)
  {
    hide Power, ShiftRight;
    if x < Power(n) {
      ShiftsToZero(x, n);
    }
    if ShiftRight(x, n) == 0 {
      ZeroAfterShifts(x, n);
    }
  }

  lemma ByteShiftsOut(x: bv8)
    ensures ShiftRight(Wide(x), 8) == 0
  {
    ShiftRightToZero(Wide(x), 8);
    Powers(8);
    WideIsSmall(x);
  }

  lemma {:induction false} FeedBitsJoin(crc: bv16, a: seq<bool>, b: seq<bool>, poly: bv16)
    ensures FeedBits(crc, a + b, poly) == FeedBits(FeedBits(crc, a, poly), b, poly)
    decreases |a|
  {
    hide Xor, Bit, Step;
    if a == [] {
      assert a + b == b;
    } else {
      assert (a + b)[1..] == a[1..] + b;
      FeedBitsJoin(Step(Xor(crc, Bit(a[0])), poly), a[1..], b, poly);
    }
  }

  lemma FeedTakesBits(crc: bv16, byte: bv8, poly: bv16)
    ensures Feed(crc, byte, poly) == FeedBits(crc, LowBits(Wide(byte), 8), poly)
  {
    hide Xor, Wide, Steps, FeedBits, LowBits, ShiftRight;
    StepsTakeBits(crc, Wide(byte), poly, 8);
    ByteShiftsOut(byte);
    XorUnits(FeedBits(crc, LowBits(Wide(byte), 8), poly));
  }

  /** The CRC takes its message bit by bit, the least significant bit of each byte first. */
  lemma {:induction false} CrcTakesBits(data: seq<bv8>, poly: bv16, initial: bv16)
    ensures CrcOf(data, poly, initial) == FeedBits(initial, BitsOf(data), poly)
    decreases |data|
  {
    hide Xor, Wide, Feed, LowBits, Step, Bit;
    if data != [] {
      FeedTakesBits(initial, data[0], poly);
      FeedBitsJoin(initial, LowBits(Wide(data[0]), 8), BitsOf(data[1..]), poly);
      CrcTakesBits(data[1..], poly, Feed(initial, data[0], poly));
    }
  }

  function Differences(a: seq<bool>, b: seq<bool>): (d: seq<bool>)
    requires |a| == |b|
    ensures |d| == |a| && forall i :: 0 <= i < |a| ==> d[i] == (a[i] != b[i])
  {
    if a == [] then [] else [a[0] != b[0]] + Differences(a[1..], b[1..])
  }

  /** Differences between messages, and between initial values, add up in the CRC. */
  lemma {:induction false} CrcIsAffine(a: seq<bool>, b: seq<bool>, poly: bv16, initialA: bv16, initialB: bv16)
    requires |a| == |b|
    ensures Xor(FeedBits(initialA, a, poly), FeedBits(initialB, b, poly))
         == FeedBits(Xor(initialA, initialB), Differences(a, b), poly)
    decreases |a|
  {
    hide Xor, Bit, Step;
    if a != [] {
      var x, y := Xor(initialA, Bit(a[0])), Xor(initialB, Bit(b[0]));
      XorSwap(initialA, Bit(a[0]), initialB, Bit(b[0]));
      BitXor(a[0], b[0]);
      StepIsLinear(x, y, poly);
      assert Differences(a, b)[1..] == Differences(a[1..], b[1..]);
      CrcIsAffine(a[1..], b[1..], poly, Step(x, poly), Step(y, poly));
    }
  }

  // ---------------------------------------------------------------------------------------
  // Error detection

  // The polynomial has its constant term.
  predicate Proper(poly: bv16) {
    poly & 0x8000 != 0
  }

  // A register below 0x8000 cannot come from a step that used the polynomial.
  lemma StepBack(x: bv16, poly: bv16)
    requires Proper(poly) && Step(x, poly) < 0x8000
    ensures !Odd(x) && Half(x) == Step(x, poly)
  {
    hide Xor, Half, Odd;
    HalfIsSmall(x);
    if Odd(x) {
      TopBitShows(Half(x), poly);
    }
  }

  /** Up to 16 bits take the register to zero only when they are the bits in the register. */
  lemma {:induction false} BitsToZero(crc: bv16, bits: seq<bool>, poly: bv16)
    requires Proper(poly) && |bits| <= 16 && FeedBits(crc, bits, poly) == 0
    ensures bits == LowBits(crc, |bits|) && ShiftRight(crc, |bits|) == 0
    decreases |bits|
  {
    hide Xor, Half, Odd, Bit, Step, Proper;
    if bits != [] {
      var x := Xor(crc, Bit(bits[0]));
      var n := |bits| - 1;
      BitsToZero(Step(x, poly), bits[1..], poly);
      ShiftRightToZero(Step(x, poly), n);
      Powers(n);
      StepBack(x, poly);
      OddXor(crc, Bit(bits[0]));
      HalfOfXor(crc, Bit(bits[0]));
      BitParts(bits[0]);
      XorUnits(Half(crc));
    }
  }

  lemma {:induction false} NoBits(n: nat)
    ensures forall i :: 0 <= i < n ==> !LowBits(0, n)[i]
  {
    Zero();
    hide Half, Odd;
    if n > 0 {
      NoBits(n - 1);
    }
  }

  lemma {:induction false} FeedZeros(crc: bv16, bits: seq<bool>, poly: bv16)
    requires Proper(poly) && forall i :: 0 <= i < |bits| ==> !bits[i]
    ensures FeedBits(crc, bits, poly) == 0 <==> crc == 0
    decreases |bits|
  {
    hide Xor, Half, Odd, Proper;
    if bits != [] {
      XorUnits(crc);
      assert Bit(bits[0]) == 0;
      StepToZero(crc, poly);
      hide Step, Bit;
      FeedZeros(Step(crc, poly), bits[1..], poly);
    }
  }

  lemma StepToZero(crc: bv16, poly: bv16)
    requires Proper(poly)
    ensures Step(crc, poly) == 0 <==> crc == 0
  {
    hide Xor, Half, Odd;
    Zero();
    if Step(crc, poly) == 0 {
      StepBack(crc, poly);
      Parts(crc, 0);
    }
  }

  // A difference that lies within 16 consecutive bits from start on shows in the register.
  lemma BurstShows(d: seq<bool>, start: nat, poly: bv16, one: nat)
    requires Proper(poly)
    requires forall i :: 0 <= i < |d| && d[i] ==> start <= i < start + 16
    requires one < |d| && d[one]
    ensures FeedBits(0, d, poly) != 0
  {
    hide FeedBits, LowBits, Proper;
    var end := if start + 16 <= |d| then start + 16 else |d|;
    var before, burst, after := d[..start], d[start..end], d[end..];
    assert d == before + (burst + after);
    FeedBitsJoin(0, before, burst + after, poly);
    FeedZeros(0, before, poly);
    FeedBitsJoin(0, burst, after, poly);
    FeedZeros(FeedBits(0, burst, poly), after, poly);
    assert burst[one - start];
    if FeedBits(0, burst, poly) == 0 {
      BitsToZero(0, burst, poly);
      NoBits(|burst|);
    }
  }

  lemma {:induction false} SameBits(x: bv16, y: bv16, n: nat)
    requires LowBits(x, n) == LowBits(y, n) && ShiftRight(x, n) == ShiftRight(y, n)
    ensures x == y
    decreases n
  {
    hide Half, Odd;
    if n > 0 {
      assert LowBits(x, n)[1..] == LowBits(Half(x), n - 1) && LowBits(y, n)[1..] == LowBits(Half(y), n - 1);
      SameBits(Half(x), Half(y), n - 1);
      assert LowBits(x, n)[0] == LowBits(y, n)[0];
      Parts(x, y);
    }
  }

  lemma {:induction false} BitsDetermineData(a: seq<bv8>, b: seq<bv8>)
    requires |a| == |b| && BitsOf(a) == BitsOf(b)
    ensures a == b
    decreases |a|
  {
    hide LowBits, ShiftRight, Wide;
    if a != [] {
      assert BitsOf(a)[..8] == LowBits(Wide(a[0]), 8) && BitsOf(b)[..8] == LowBits(Wide(b[0]), 8);
      assert BitsOf(a)[8..] == BitsOf(a[1..]) && BitsOf(b)[8..] == BitsOf(b[1..]);
      ByteShiftsOut(a[0]);
      ByteShiftsOut(b[0]);
      SameBits(Wide(a[0]), Wide(b[0]), 8);
      WideIsInjective(a[0], b[0]);
      BitsDetermineData(a[1..], b[1..]);
    }
  }

  /** Whether an error goes undetected depends on the difference alone, not on message or initial value. */
  lemma DetectionDependsOnDifference(a: seq<bv8>, b: seq<bv8>, poly: bv16, initial: bv16)
    requires |a| == |b|
    ensures CrcOf(a, poly, initial) == CrcOf(b, poly, initial)
       <==> FeedBits(0, Differences(BitsOf(a), BitsOf(b)), poly) == 0
  {
    hide Xor, BitsOf, FeedBits, CrcOf;
    CrcTakesBits(a, poly, initial);
    CrcTakesBits(b, poly, initial);
    CrcIsAffine(BitsOf(a), BitsOf(b), poly, initial, initial);
    XorZero(CrcOf(a, poly, initial), CrcOf(b, poly, initial));
    XorUnits(initial);
  }

  /**
   Two different messages of the same length that differ only within 16 consecutive bits have
   different CRCs, for every initial value and every polynomial with a constant term.
   */
  lemma BurstIsDetected(a: seq<bv8>, b: seq<bv8>, start: nat, poly: bv16, initial: bv16)
    requires Proper(poly) && |a| == |b| && a != b
    requires forall i :: 0 <= i < 8 * |a| && BitsOf(a)[i] != BitsOf(b)[i] ==> start <= i < start + 16
    ensures CrcOf(a, poly, initial) != CrcOf(b, poly, initial)
  {
    hide Xor, BitsOf, FeedBits, CrcOf, Proper;
    var d := Differences(BitsOf(a), BitsOf(b));
    if BitsOf(a) == BitsOf(b) {
      BitsDetermineData(a, b);
    }
    var one: nat :| one < |d| && BitsOf(a)[one] != BitsOf(b)[one];
    BurstShows(d, start, poly, one);
    DetectionDependsOnDifference(a, b, poly, initial);
  }

  lemma {:induction false} BitOfByte(data: seq<bv8>, i: nat)
    requires i < 8 * |data|
    ensures BitsOf(data)[i] == LowBits(Wide(data[i / 8]), 8)[i % 8]
    decreases |data|
  {
    hide LowBits, Wide;
    if i >= 8 {
      BitOfByte(data[1..], i - 8);
    }
  }

  /** Two messages of the same length that differ in one byte, or in two neighbours, have different CRCs. */
  lemma TwoBytesAreDetected(a: seq<bv8>, b: seq<bv8>, k: nat, poly: bv16, initial: bv16)
    requires Proper(poly) && |a| == |b| && a != b
    requires forall i :: 0 <= i < |a| && a[i] != b[i] ==> k <= i <= k + 1
    ensures CrcOf(a, poly, initial) != CrcOf(b, poly, initial)
  {
    hide BitsOf, CrcOf, LowBits, Wide, Proper;
    forall i | 0 <= i < 8 * |a| && BitsOf(a)[i] != BitsOf(b)[i]
      ensures 8 * k <= i < 8 * k + 16
    {
      BitOfByte(a, i);
      BitOfByte(b, i);
      assert a[i / 8] != b[i / 8];
    }
    BurstIsDetected(a, b, 8 * k, poly, initial);
  }

  // ---------------------------------------------------------------------------------------
  // The constant term is needed

  lemma {:induction false} StepsAreLinear(a: bv16, b: bv16, poly: bv16, n: nat)
    ensures Steps(Xor(a, b), poly, n) == Xor(Steps(a, poly, n), Steps(b, poly, n))
    decreases n
  {
    hide Xor, Step;
    if n > 0 {
      StepIsLinear(a, b, poly);
      StepsAreLinear(Step(a, poly), Step(b, poly), poly, n - 1);
    }
  }

  lemma {:induction false} StepsOfZero(poly: bv16, n: nat)
    ensures Steps(0, poly, n) == 0
  {
    Zero();
    hide Half, Odd;
    if n > 0 {
      StepsOfZero(poly, n - 1);
    }
  }

  // A register that one step takes to zero if the polynomial has no constant term.
  function Vanishing(poly: bv16): bv16 {
    Xor(Double(poly), 1)
  }

  lemma VanishingVanishes(poly: bv16)
    requires !Proper(poly)
    ensures Steps(Vanishing(poly), poly, 8) == 0 && Odd(Vanishing(poly))
  {
    DoubleAndOne(poly);
    hide Xor, Half, Odd, Double;
    XorUnits(poly);
    assert Step(Vanishing(poly), poly) == 0;
    StepsOfZero(poly, 7);
    hide Step, Vanishing;
  }

  // Two bytes make their way into the register together.
  lemma FeedTwo(crc: bv16, x: bv16, poly: bv16)
    ensures Feed(Feed(crc, Low(x), poly), High(x), poly)
         == Steps(Xor(Steps(crc, poly, 8), Steps(x, poly, 8)), poly, 8)
  {
    hide Xor, Wide, Low, High, Steps;
    var low, high := Wide(Low(x)), Wide(High(x));
    WideIsSmall(High(x));
    ShiftsOut(high, poly);
    LowCancels(x);
    StepsAreLinear(x, low, poly, 8);
    StepsAreLinear(crc, low, poly, 8);
    XorCommutes(Steps(x, poly, 8), Steps(low, poly, 8));
    XorAssociates(Steps(crc, poly, 8), Steps(low, poly, 8), high);
    XorAssociates(Steps(low, poly, 8), Steps(low, poly, 8), Steps(x, poly, 8));
    XorUnits(Steps(low, poly, 8));
    XorUnits(Steps(x, poly, 8));
  }

  /**
   Without a constant term there are two different messages of two bytes that have the same CRC, so
   that the constant term is exactly what makes the detection of bursts work.
   */
  lemma BurstIsMissed(poly: bv16, initial: bv16)
    requires !Proper(poly)
    ensures var x := Vanishing(poly);
            [Low(x), High(x)] != [0, 0] &&
            CrcOf([Low(x), High(x)], poly, initial) == CrcOf([0, 0], poly, initial)
  {
    var x := Vanishing(poly);
    VanishingVanishes(poly);
    LowOfOdd(x);
    LowOfZero();
    hide Xor, Low, High, Steps, Vanishing, CrcOf, Feed, Odd, Proper;
    CrcOfTwo(Low(x), High(x), poly, initial);
    CrcOfTwo(0, 0, poly, initial);
    FeedTwo(initial, x, poly);
    FeedTwo(initial, 0, poly);
    StepsOfZero(poly, 8);
  }

  /** A message whose CRC is known. */
  lemma KnownMessage()
    ensures CrcOf([0xAA, 0xBB, 0xCC, 0xDD], MODBUS_POLY, 0) == 0xA4C4
  {
    assert [0xAA, 0xBB, 0xCC, 0xDD] == [0xAA as bv8, 0xBB] + [0xCC, 0xDD];
    hide CrcOf;
    Composition([0xAA, 0xBB], [0xCC, 0xDD], MODBUS_POLY, 0);
    CrcOfTwo(0xAA, 0xBB, MODBUS_POLY, 0);
    CrcOfTwo(0xCC, 0xDD, MODBUS_POLY, CrcOf([0xAA, 0xBB], MODBUS_POLY, 0));
  }
}
