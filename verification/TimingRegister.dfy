/**
 The timing register of an I2C peripheral, and the calculation of its value.
 */
module TimingRegister {
  import opened Wrappers
  import opened I2cTiming

  // ---------------------------------------------------------------------------------------
  // The timing register

  datatype SpeedMode = Standard | Fast | FastPlus

  function SpeedIndex(mode: SpeedMode): nat {
    match mode
    case Standard => 0
    case Fast => 1
    case FastPlus => 2
  }

  function Pack(presc: bv32, tscldel: bv32, tsdadel: bv32, sclh: bv32, scll: bv32): bv32 {
    ((presc & 0x0F) << 28) | ((tscldel & 0x0F) << 20) | ((tsdadel & 0x0F) << 16) | ((sclh & 0xFF) << 8) | (scll & 0xFF)
  }

  // The fields of a timing register.
  function PrescOf(word: bv32): bv32 { word >> 28 }
  function ReservedOf(word: bv32): bv32 { word & 0x0F00_0000 }
  function ScldelOf(word: bv32): bv32 { (word >> 20) & 0x0F }
  function SdadelOf(word: bv32): bv32 { (word >> 16) & 0x0F }
  function SclhOf(word: bv32): bv32 { (word >> 8) & 0xFF }
  function ScllOf(word: bv32): bv32 { word & 0xFF }

  lemma PackKeepsFields(presc: bv32, tscldel: bv32, tsdadel: bv32, sclh: bv32, scll: bv32)
    requires presc < 16 && tscldel < 16 && tsdadel < 16 && sclh < 256 && scll < 256
    ensures var word := Pack(presc, tscldel, tsdadel, sclh, scll);
            && PrescOf(word) == presc && ScldelOf(word) == tscldel && SdadelOf(word) == tsdadel
            && SclhOf(word) == sclh && ScllOf(word) == scll && ReservedOf(word) == 0
  {
  }

  predicate FieldsFit(t: Timing) {
    t.presc < 16 && t.tscldel < 16 && t.tsdadel < 16 && t.sclh < 256 && t.scll < 256
  }

  // The value of a field as a register word.
  function Word(x: nat): bv32
    requires x < 256
  {
    (x as bv8) as bv32
  }

  lemma WidenKeepsValue(b: bv8)
    ensures (b as nat) < 256 && ((b as bv32) as nat) == b as nat && (b as bv32) < 256
  {
  }

  lemma Increment(b: bv8)
    requires b != 255
    ensures (b + 1) as nat == b as nat + 1
  {
  }

  lemma {:induction false} ByteOf(x: nat) returns (b: bv8)
    requires x < 256
    ensures b as nat == x
  {
    if x == 0 {
      b := 0;
    } else {
      var c := ByteOf(x - 1);
      assert c != 255 by {
        assert (255 as bv8) as nat == 255;
      }
      Increment(c);
      b := c + 1;
    }
  }

  lemma ByteOfByte(b: bv8)
    ensures ((b as nat) as bv8) == b
  {
  }

  lemma NarrowKeepsValue(x: nat)
    requires x < 256
    ensures (x as bv8) as nat == x
  {
    var b := ByteOf(x);
    ByteOfByte(b);
  }

  lemma BelowSixteen(b: bv32)
    requires (b as nat) < 16
    ensures b < 16
  {
  }

  lemma WordKeepsValue(x: nat)
    requires x < 256
    ensures Word(x) as nat == x && Word(x) < 256 && (x < 16 ==> Word(x) < 16)
  {
    NarrowKeepsValue(x);
    WidenKeepsValue(x as bv8);
    if x < 16 {
      BelowSixteen(Word(x));
    }
  }

  function Encode(t: Timing): bv32
    requires FieldsFit(t)
  {
    Pack(Word(t.presc), Word(t.tscldel), Word(t.tsdadel), Word(t.sclh), Word(t.scll))
  }

  function Decode(word: bv32): Timing {
    Timing(PrescOf(word) as nat, ScldelOf(word) as nat, SdadelOf(word) as nat, SclhOf(word) as nat, ScllOf(word) as nat)
  }

  /** The timing register decodes back to all five fields, and has no other bits set. */
  lemma DecodeEncode(t: Timing)
    requires FieldsFit(t)
    ensures Decode(Encode(t)) == t && ReservedOf(Encode(t)) == 0
  {
    hide Word, Pack, ReservedOf, PrescOf, ScldelOf, SdadelOf, SclhOf, ScllOf;
    WordKeepsValue(t.presc);
    WordKeepsValue(t.tscldel);
    WordKeepsValue(t.tsdadel);
    WordKeepsValue(t.sclh);
    WordKeepsValue(t.scll);
    PackKeepsFields(Word(t.presc), Word(t.tscldel), Word(t.tsdadel), Word(t.sclh), Word(t.scll));
  }

  // ---------------------------------------------------------------------------------------
  // The whole calculation

  const MAX_TIMINGS := 128

  // The index whose characteristic the search for the clock counts uses, in every mode.
  const CLOCK_SPEED_INDEX := 0

  // ts are the timings of all feasible prescalers, timing is the optimal choice among them.
  ghost predicate Calculated(hz: nat, mode: SpeedMode, ts: seq<Timing>, timing: Option<Timing>)
    requires Clock(hz)
  {
    && Enumerates(CHARACTERISTICS[SpeedIndex(mode)], ClockPeriod(hz), ts, PRESC_MAX)
    && Optimal(CHARACTERISTICS[CLOCK_SPEED_INDEX], ClockPeriod(hz), ts, timing)
  }

  lemma {:induction false} PrescsGrow(c: Characteristic, ti: nat, ts: seq<Timing>, bound: nat, i: nat)
    requires Enumerates(c, ti, ts, bound) && i < |ts|
    ensures i <= ts[i].presc < bound
    decreases i
  {
    if i > 0 {
      PrescsGrow(c, ti, ts, bound, i - 1);
      assert ts[i - 1].presc < ts[i].presc;
    }
  }

  // There is room for the timings of all prescalers.
  lemma NeverFull(c: Characteristic, ti: nat, ts: seq<Timing>, bound: nat)
    requires bound <= PRESC_MAX && Enumerates(c, ti, ts, bound)
    ensures |ts| < MAX_TIMINGS
  {
    if ts != [] {
      PrescsGrow(c, ti, ts, bound, |ts| - 1);
    }
  }

  /**
   What a calculated timing is: the least delays of the mode for its prescaler, with counts that are a
   candidate in standard mode.
   */
  lemma CalculatedMeans(hz: nat, mode: SpeedMode, ts: seq<Timing>, timing: Timing)
    requires Clock(hz) && Calculated(hz, mode, ts, Some(timing))
    ensures FieldsFit(timing)
    ensures LeastDelays(CHARACTERISTICS[SpeedIndex(mode)], ClockPeriod(hz), timing.(scll := 0, sclh := 0))
    ensures Candidate(CHARACTERISTICS[CLOCK_SPEED_INDEX], ClockPeriod(hz), timing.presc, timing.scll, timing.sclh)
  {
    hide ClockPeriod, LeastDelays;
    var c, ti := CHARACTERISTICS[CLOCK_SPEED_INDEX], ClockPeriod(hz);
    var best :| Best(c, ti, ts, best, Choice(|ts|, 0, 0)) && Some(timing) == Chosen(ts, best);
    assert Offered(c, ti, ts, best.value);
    var t := ts[best.value.index];
    LeastDelaysFit(CHARACTERISTICS[SpeedIndex(mode)], ti, t);
    assert t == timing.(scll := 0, sclh := 0);
  }

  /** The source clock and the mode determine the timing. */
  lemma CalculationIsUnique(hz: nat, mode: SpeedMode, ts: seq<Timing>, us: seq<Timing>, a: Option<Timing>, b: Option<Timing>)
    requires Clock(hz) && Calculated(hz, mode, ts, a) && Calculated(hz, mode, us, b)
    ensures ts == us && a == b
  {
    hide ClockPeriod, Enumerates, Offered, ErrorOf;
    EnumerationIsUnique(CHARACTERISTICS[SpeedIndex(mode)], ClockPeriod(hz), ts, us, PRESC_MAX, 0);
    var c, ti, end := CHARACTERISTICS[CLOCK_SPEED_INDEX], ClockPeriod(hz), Choice(|ts|, 0, 0);
    var x :| Best(c, ti, ts, x, end) && a == Chosen(ts, x);
    var y :| Best(c, ti, us, y, end) && b == Chosen(us, y);
    BestIsUnique(c, ti, ts, x, y, end);
  }

  /** For a source clock of 16 MHz there is a timing in every mode. */
  lemma SixteenMegahertzHasTiming(mode: SpeedMode, ts: seq<Timing>, timing: Option<Timing>)
    requires Calculated(16_000_000, mode, ts, timing)
    ensures timing.Some?
  {
    SixteenMegahertzCandidate();
    var c, d, ti := CHARACTERISTICS[0], CHARACTERISTICS[SpeedIndex(mode)], ClockPeriod(16_000_000);
    assert ti == 63;
    assert MeetsDelays(d, ti, 0, 15, 0);
    hide Candidate, MeetsDelays, ErrorOf;
    assert FeasiblePresc(d, ti, 0);
    var i :| 0 <= i < |ts| && ts[i].presc == 0;
    assert Offered(c, ti, ts, Choice(i, 71, 80));
    assert Earlier(Choice(i, 71, 80), Choice(|ts|, 0, 0));
  }

  lemma LeastDelaysFit(c: Characteristic, ti: nat, t: Timing)
    requires LeastDelays(c, ti, t)
    ensures t.presc < 16 && t.tscldel < 16 && t.tsdadel < 16 && t.scll == t.sclh == 0
  {
  }

  /**
   The value of the timing register for a source clock and a speed mode. The delays are searched for
   the mode, but the clock counts always with the characteristic of standard mode.
   */
  method CalculateI2cTiming(hz: nat, mode: SpeedMode) returns (word: Option<bv32>)
    requires Clock(hz)
    ensures word.None? ==> exists ts :: Calculated(hz, mode, ts, None)
    ensures word.Some? ==> exists ts :: Calculated(hz, mode, ts, Some(Decode(word.value)))
    ensures word.Some? ==> ReservedOf(word.value) == 0
  {
    hide Encode, Decode, ReservedOf, ClockPeriod, Optimal, LeastDelays, Candidate;
    var ts := ComputePrescScldelSdadel(MAX_TIMINGS, hz, SpeedIndex(mode));
    var c, ti := CHARACTERISTICS[SpeedIndex(mode)], ClockPeriod(hz);
    if |ts| == MAX_TIMINGS {
      LeastDelaysFit(c, ti, ts[MAX_TIMINGS - 1]);
    }
    NeverFull(c, ti, ts, if |ts| == MAX_TIMINGS then ts[MAX_TIMINGS - 1].presc + 1 else PRESC_MAX);
    forall i | 0 <= i < |ts|
      ensures ts[i].presc < PRESC_MAX
    {
      PrescsGrow(c, ti, ts, PRESC_MAX, i);
    }
    var timing := ComputeScllSclh(hz, CLOCK_SPEED_INDEX, ts);
    assert Calculated(hz, mode, ts, timing);
    if timing.Some? {
      CalculatedMeans(hz, mode, ts, timing.value);
      DecodeEncode(timing.value);
      word := Some(Encode(timing.value));
    } else {
      word := None;
    }
  }

  /**
   Every register value keeps the low period of standard mode, so that the clock in fast mode and in
   fast mode plus is never faster than 212 kHz.
   */
  lemma FastModesAreNotFast(hz: nat, mode: SpeedMode, ts: seq<Timing>, timing: Timing)
    requires Clock(hz) && Calculated(hz, mode, ts, Some(timing))
    ensures var c, ti := CHARACTERISTICS[CLOCK_SPEED_INDEX], ClockPeriod(hz);
            var period := TScl(c, ti, PrescTime(ti, timing.presc), timing.scll, timing.sclh);
            && 4700 < period <= 12_500
            && NANOSECONDS / period <= 212_765
            && period > Speed(CHARACTERISTICS[SpeedIndex(Fast)]) && period > Speed(CHARACTERISTICS[SpeedIndex(FastPlus)])
  {
    CalculatedMeans(hz, mode, ts, timing);
    var c, ti := CHARACTERISTICS[CLOCK_SPEED_INDEX], ClockPeriod(hz);
    hide ClockPeriod, Calculated;
    TableBounds(c);
    CandidateIsSafe(c, ti, timing.presc, timing.scll, timing.sclh);
    var tp := PrescTime(ti, timing.presc);
    MulMonotone(0, timing.sclh + 1, tp);
    var period := TScl(c, ti, tp, timing.scll, timing.sclh);
    assert 4700 < period <= 12_500 by {
      assert (timing.sclh + 3) * tp == (timing.sclh + 1) * tp + 2 * tp;
    }
    QuotientAtLeast(NANOSECONDS, period, 212_766);
    MulMonotone(4701, period, 212_766);
  }
}
