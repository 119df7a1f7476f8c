/**
 The operations on 16-bit words that the CRC is made of, and their laws. Each law is a fact about
 bit vectors; everything built on them treats the operations as given.
 */
module Bits {

  function Xor(a: bv16, b: bv16): bv16 { a ^ b }

  function Half(a: bv16): bv16 { a >> 1 }

  function Double(a: bv16): bv16 { a << 1 }

  predicate Odd(a: bv16) { a & 1 != 0 }

  function Bit(b: bool): bv16 { if b then 1 else 0 }

  function Wide(b: bv8): bv16 { b as bv16 }

  function Low(a: bv16): bv8 { (a & 0xFF) as bv8 }

  function High(a: bv16): bv8 { (a >> 8) as bv8 }

  lemma XorUnits(a: bv16)
    ensures Xor(a, 0) == a && Xor(0, a) == a && Xor(a, a) == 0
  {
  }

  lemma XorCommutes(a: bv16, b: bv16)
    ensures Xor(a, b) == Xor(b, a)
  {
  }

  lemma XorAssociates(a: bv16, b: bv16, c: bv16)
    ensures Xor(Xor(a, b), c) == Xor(a, Xor(b, c))
  {
  }

  lemma XorZero(a: bv16, b: bv16)
    ensures Xor(a, b) == 0 <==> a == b
  {
    hide Xor;
    XorUnits(a);
    XorUnits(b);
    XorAssociates(a, b, b);
  }

  lemma XorSwap(x: bv16, a: bv16, y: bv16, b: bv16)
    ensures Xor(Xor(x, a), Xor(y, b)) == Xor(Xor(x, y), Xor(a, b))
  {
    hide Xor;
    XorAssociates(x, a, Xor(y, b));
    XorAssociates(a, y, b);
    XorCommutes(a, y);
    XorAssociates(y, a, b);
    XorAssociates(x, y, Xor(a, b));
  }

  lemma XorCancels(a: bv16, b: bv16, c: bv16)
    ensures Xor(Xor(a, c), Xor(b, c)) == Xor(a, b)
  {
    hide Xor;
    XorSwap(a, c, b, c);
    XorUnits(c);
    XorUnits(Xor(a, b));
  }

  lemma HalfOfXor(a: bv16, b: bv16)
    ensures Half(Xor(a, b)) == Xor(Half(a), Half(b))
  {
  }

  lemma OddXor(a: bv16, b: bv16)
    ensures Odd(Xor(a, b)) <==> (Odd(a) != Odd(b))
  {
  }

  lemma BitParts(b: bool)
    ensures Odd(Bit(b)) == b && Half(Bit(b)) == 0
  {
  }

  lemma BitXor(a: bool, b: bool)
    ensures Xor(Bit(a), Bit(b)) == Bit(a != b)
  {
  }

  lemma Zero()
    ensures Half(0) == 0 && !Odd(0)
  {
  }

  // A word is determined by its last bit and the others.
  lemma Parts(a: bv16, b: bv16)
    requires Odd(a) == Odd(b) && Half(a) == Half(b)
    ensures a == b
  {
  }

  lemma HalfIsSmall(a: bv16)
    ensures Half(a) < 0x8000
  {
  }

  lemma TopBitShows(a: bv16, poly: bv16)
    requires a < 0x8000 && poly & 0x8000 != 0
    ensures Xor(a, poly) >= 0x8000
  {
  }

  lemma HalfBelow(a: bv16, bound: bv16)
    requires Half(a) < bound < 0x8000
    ensures a < Double(bound)
  {
  }

  lemma HalvesOfBelow(a: bv16, bound: bv16)
    requires 0 < bound < 0x8000 && a < Double(bound)
    ensures Half(a) < bound
  {
  }

  lemma DoubleAndOne(poly: bv16)
    requires poly & 0x8000 == 0
    ensures Odd(Xor(Double(poly), 1)) && Half(Xor(Double(poly), 1)) == poly
  {
  }

  lemma LowOfOdd(a: bv16)
    requires Odd(a)
    ensures Low(a) != 0
  {
  }

  lemma LowOfZero()
    ensures Low(0) == 0 && High(0) == 0
  {
  }

  lemma WideIsSmall(b: bv8)
    ensures Wide(b) < 0x100
  {
  }

  lemma WideIsInjective(a: bv8, b: bv8)
    requires Wide(a) == Wide(b)
    ensures a == b
  {
  }

  lemma LowCancels(a: bv16)
    ensures Xor(a, Wide(Low(a))) == Wide(High(a)) << 8
  {
  }

  // A byte in the upper half, shifted down.
  lemma ShiftDown(b: bv16)
    requires b < 0x100
    ensures Half(b << 8) == b << 7 && !Odd(b << 8)
    ensures Half(b << 7) == b << 6 && !Odd(b << 7)
    ensures Half(b << 6) == b << 5 && !Odd(b << 6)
    ensures Half(b << 5) == b << 4 && !Odd(b << 5)
    ensures Half(b << 4) == b << 3 && !Odd(b << 4)
    ensures Half(b << 3) == b << 2 && !Odd(b << 3)
    ensures Half(b << 2) == b << 1 && !Odd(b << 2)
    ensures Half(b << 1) == b && !Odd(b << 1)
  {
  }
}
