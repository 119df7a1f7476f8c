/**
 Timings in full: what is returned for two source clocks, one of which is divided, down to the bits of the
 timing register.
 */
module KnownTimings {
  import opened Wrappers
  import opened I2cTiming
  import opened TimingRegister
  import opened ClockSafety

  // ---------------------------------------------------------------------------------------
  // A source clock of 16 MHz, which is not divided

  // The shortest setup delay for a source period of 63 ns and prescaler 0.
  function SetupDelay(mode: SpeedMode): nat {
    match mode
    case Standard => 3
    case Fast => 1
    case FastPlus => 0
  }

  lemma SetupDelayIsLeast(mode: SpeedMode, t: Timing)
    requires LeastDelays(CHARACTERISTICS[SpeedIndex(mode)], 63, t) && t.presc == 0
    ensures t == Timing(0, SetupDelay(mode), 0, 0, 0)
  {
    var c := CHARACTERISTICS[SpeedIndex(mode)];
    assert MeetsDelays(c, 63, 0, SetupDelay(mode), 0);
    LeastDelaysAreShort(c, 63, t);
    assert SclDelTime(63, 0, t.tscldel) == (t.tscldel + 1) * 63;
    assert t.tscldel > 0 ==> SclDelTime(63, 0, t.tscldel - 1) == t.tscldel * 63;
  }

  lemma Regroup(a: nat, b: nat, d: nat)
    ensures a * (b * d) == (a * b) * d
  {
  }

  // No period of a candidate is closer to 10 us than 9 ns.
  lemma NineIsLeast(presc: nat, scll: nat, sclh: nat)
    requires presc < PRESC_MAX && Error(STANDARD, 63, PrescTime(63, presc), scll, sclh) <= 9
    ensures Error(STANDARD, 63, PrescTime(63, presc), scll, sclh) == 9
    ensures presc == 0 ==> scll + sclh == 151
  {
    StandardBounds();
    TSclSum(STANDARD, 63, PrescTime(63, presc), scll, sclh);
    var n := (scll + sclh + 2) * (presc + 1);
    Regroup(scll + sclh + 2, presc + 1, 63);
    assert presc == 0 ==> n == scll + sclh + 2;
    hide PrescTime, TScl, EdgeTime, Speed;
    assert TScl(STANDARD, 63, PrescTime(63, presc), scll, sclh) == 352 + n * 63;
  }

  lemma BestAtSixteenMegahertz(mode: SpeedMode, ts: seq<Timing>, x: Choice)
    requires Enumerates(CHARACTERISTICS[SpeedIndex(mode)], 63, ts, PRESC_MAX) && Best(STANDARD, 63, ts, Some(x), End(ts))
    ensures ts[x.index].presc == 0 && x.scll == 71 && x.sclh == 80
  {
    StandardBounds();
    SixteenMegahertzCandidate();
    EnumeratedPrescsFit(CHARACTERISTICS[SpeedIndex(mode)], 63, ts);
    BestIsCandidate(STANDARD, 63, ts, x);
    var presc := ts[x.index].presc;
    assert PrescTime(63, 0) == 63;
    assert Error(STANDARD, 63, 63, 71, 80) == 9;
    CandidateIsNotBelow(STANDARD, 63, presc, x.scll, x.sclh);
    assert presc == 0 ==> ScllLowerBound(STANDARD, 63, presc) == 71;
    hide Best, Candidate, Enumerates, PrescTime, Error, ScllLowerBound;
    if presc > 0 {
      var zero := ZeroComesFirst(mode, 63, ts, x.index);
      var y := Choice(zero, 71, 80);
      BestBeatsEarlier(STANDARD, 63, ts, x, y);
      NineIsLeast(presc, x.scll, x.sclh);
    } else {
      var y := Choice(x.index, 71, 80);
      SomethingIsBest(STANDARD, 63, ts, Some(x), y);
      NineIsLeast(presc, x.scll, x.sclh);
    }
  }

  /**
   For a source clock of 16 MHz the search returns the counts 71 and 80 with prescaler 0 in every mode, and so
   a clock of 100 kHz in fast mode and fast mode plus, too.
   */
  lemma SixteenMegahertzTiming(mode: SpeedMode, ts: seq<Timing>, timing: Option<Timing>)
    requires Calculated(16_000_000, mode, ts, timing)
    ensures timing == Some(Timing(0, SetupDelay(mode), 0, 80, 71))
    ensures TScl(STANDARD, 63, 63, 71, 80) == 9991
  {
    SixteenMegahertzCandidate();
    SixteenMegahertzHasTiming(mode, ts, timing);
    assert Enumerates(CHARACTERISTICS[SpeedIndex(mode)], 63, ts, PRESC_MAX);
    CalculatedMeans(16_000_000, mode, ts, timing.value);
    hide Calculated, Enumerates, Best, Candidate, LeastDelays;
    var x := ChoiceOf(16_000_000, mode, ts, timing.value);
    BestAtSixteenMegahertz(mode, ts, x);
    SetupDelayIsLeast(mode, timing.value.(scll := 0, sclh := 0));
  }

  // ---------------------------------------------------------------------------------------
  // A source clock of 170 MHz, which is

  // The shortest setup delay for a source period of 6 ns and prescaler 4.
  function DividedSetupDelay(mode: SpeedMode): nat {
    match mode
    case Standard => 8
    case Fast => 3
    case FastPlus => 1
  }

  // With prescaler 4, the source period is 30 ns.
  lemma DividedSetupDelayIsLeast(mode: SpeedMode, t: Timing)
    requires LeastDelays(CHARACTERISTICS[SpeedIndex(mode)], 6, t) && t.presc == 4
    ensures t == Timing(4, DividedSetupDelay(mode), 0, 0, 0)
  {
    var c := CHARACTERISTICS[SpeedIndex(mode)];
    LeastDelaysAreShort(c, 6, t);
    assert SclDelTime(6, 4, t.tscldel) == (t.tscldel + 1) * 30;
    assert t.tscldel > 0 ==> SclDelTime(6, 4, t.tscldel - 1) == t.tscldel * 30;
  }

  lemma DividedCandidate()
    ensures ClockPeriod(170_000_000) == 6 && PrescTime(6, 4) == 30 && Candidate(STANDARD, 6, 4, 154, 173)
    ensures TScl(STANDARD, 6, 30, 154, 173) == 9994 && Error(STANDARD, 6, 30, 154, 173) == 6
    ensures ScllLowerBound(STANDARD, 6, 4) == 154
  {
    StandardBounds();
  }

  // No period of a candidate with counts that fit is closer to 10 us than 6 ns, and prescaler 4 is the first that comes so close.
  lemma SixIsLeast(presc: nat, scll: nat, sclh: nat)
    requires presc < PRESC_MAX && scll < SCLL_MAX && sclh < SCLH_MAX
    requires Error(STANDARD, 6, PrescTime(6, presc), scll, sclh) <= 6
    ensures Error(STANDARD, 6, PrescTime(6, presc), scll, sclh) == 6
    ensures presc >= 4 && (presc == 4 ==> scll + sclh == 327)
  {
    StandardBounds();
    TSclSum(STANDARD, 6, PrescTime(6, presc), scll, sclh);
    var n := scll + sclh + 2;
    Regroup(n, presc + 1, 6);
    hide PrescTime, TScl, EdgeTime, Speed;
    assert TScl(STANDARD, 6, PrescTime(6, presc), scll, sclh) == 124 + n * (presc + 1) * 6;
    CountsToMatch(n, presc);
  }

  lemma CountsToMatch(n: nat, presc: nat)
    requires 1645 <= n * (presc + 1) <= 1647 && n <= 512 && presc < 16
    ensures presc >= 4 && (presc == 4 ==> n == 329) && n * (presc + 1) != 1646
  {
  }

  // In an enumeration, prescaler 4 comes before every higher one.
  lemma FourComesFirst(mode: SpeedMode, ts: seq<Timing>, i: nat) returns (four: nat)
    requires Enumerates(CHARACTERISTICS[SpeedIndex(mode)], 6, ts, PRESC_MAX)
    requires i < |ts| && ts[i].presc > 4
    ensures four < i && ts[four].presc == 4
  {
    PrescOccursExactly(CHARACTERISTICS[SpeedIndex(mode)], 6, ts, PRESC_MAX, 4);
    hide FeasiblePresc, LeastDelays;
    four :| 0 <= four < |ts| && ts[four].presc == 4;
  }

  lemma BestWhenDivided(mode: SpeedMode, ts: seq<Timing>, x: Choice)
    requires Enumerates(CHARACTERISTICS[SpeedIndex(mode)], 6, ts, PRESC_MAX) && Best(STANDARD, 6, ts, Some(x), End(ts))
    requires exists i :: 0 <= i < |ts| && ts[i].presc == 4
    ensures ts[x.index].presc == 4 && x.scll == 154 && x.sclh == 173
  {
    StandardBounds();
    DividedCandidate();
    EnumeratedPrescsFit(CHARACTERISTICS[SpeedIndex(mode)], 6, ts);
    BestIsCandidate(STANDARD, 6, ts, x);
    var presc := ts[x.index].presc;
    CandidateIsNotBelow(STANDARD, 6, presc, x.scll, x.sclh);
    assert x.scll < SCLL_MAX && x.sclh < SCLH_MAX;
    hide Best, Candidate, Enumerates, PrescTime, Error, ScllLowerBound;
    var i :| 0 <= i < |ts| && ts[i].presc == 4;
    SomethingIsBest(STANDARD, 6, ts, Some(x), Choice(i, 154, 173));
    SixIsLeast(presc, x.scll, x.sclh);
    BestIsNotAbove(mode, ts, x);
    SomethingIsBest(STANDARD, 6, ts, Some(x), Choice(x.index, 154, 173));
  }

  lemma BestIsNotAbove(mode: SpeedMode, ts: seq<Timing>, x: Choice)
    requires Enumerates(CHARACTERISTICS[SpeedIndex(mode)], 6, ts, PRESC_MAX) && Best(STANDARD, 6, ts, Some(x), End(ts))
    ensures ts[x.index].presc <= 4
  {
    DividedCandidate();
    EnumeratedPrescsFit(CHARACTERISTICS[SpeedIndex(mode)], 6, ts);
    BestIsCandidate(STANDARD, 6, ts, x);
    assert x.scll < SCLL_MAX && x.sclh < SCLH_MAX;
    hide Best, Candidate, Enumerates, PrescTime, Error, ScllLowerBound;
    if ts[x.index].presc > 4 {
      var four := FourComesFirst(mode, ts, x.index);
      BestBeatsEarlier(STANDARD, 6, ts, x, Choice(four, 154, 173));
      SixIsLeast(ts[x.index].presc, x.scll, x.sclh);
    }
  }

  /** For a source clock of 170 MHz the search returns prescaler 4 and the counts 154 and 173 in every mode. */
  lemma DividedTiming(mode: SpeedMode, ts: seq<Timing>, timing: Option<Timing>)
    requires Calculated(170_000_000, mode, ts, timing)
    ensures timing == Some(Timing(4, DividedSetupDelay(mode), 0, 173, 154))
    ensures TScl(STANDARD, 6, 30, 154, 173) == 9994
  {
    DividedCandidate();
    var c := CHARACTERISTICS[SpeedIndex(mode)];
    assert Enumerates(c, 6, ts, PRESC_MAX);
    PrescOccursExactly(c, 6, ts, PRESC_MAX, 4);
    hide Enumerates, Candidate, LeastDelays, ErrorOf, Error, TScl;
    var i :| 0 <= i < |ts| && ts[i].presc == 4;
    HasTiming(170_000_000, mode, ts, timing, Choice(i, 154, 173));
    CalculatedMeans(170_000_000, mode, ts, timing.value);
    var x := ChoiceOf(170_000_000, mode, ts, timing.value);
    hide Best, Calculated;
    BestWhenDivided(mode, ts, x);
    DividedSetupDelayIsLeast(mode, timing.value.(scll := 0, sclh := 0));
  }

  // If a candidate is offered, there is a timing.
  lemma HasTiming(hz: nat, mode: SpeedMode, ts: seq<Timing>, timing: Option<Timing>, x: Choice)
    requires Clock(hz) && Calculated(hz, mode, ts, timing) && Offered(STANDARD, ClockPeriod(hz), ts, x)
    ensures timing.Some?
  {
    hide Enumerates, ClockPeriod, ErrorOf, Candidate;
    assert Earlier(x, Choice(|ts|, 0, 0));
  }

  // ---------------------------------------------------------------------------------------
  // The bits of the timing register

  lemma WordsDecode()
    ensures Decode(0x0030_5047) == Timing(0, 3, 0, 80, 71)
    ensures Decode(0x4080_AD9A) == Timing(4, 8, 0, 173, 154)
    ensures ReservedOf(0x0030_5047) == 0 && ReservedOf(0x4080_AD9A) == 0
  {
  }

  lemma SameField(a: bv32, b: bv32)
    requires a < 256 && b < 256 && a as nat == b as nat
    ensures a == b
  {
    WidenKeepsValue(a as bv8);
    WidenKeepsValue(b as bv8);
    ByteOfByte(a as bv8);
    ByteOfByte(b as bv8);
    assert ((a as bv8) as bv32) == a && ((b as bv8) as bv32) == b;
  }

  lemma SameFieldsSameWord(a: bv32, b: bv32)
    requires PrescOf(a) == PrescOf(b) && ReservedOf(a) == ReservedOf(b)
    requires ScldelOf(a) == ScldelOf(b) && SdadelOf(a) == SdadelOf(b) && SclhOf(a) == SclhOf(b) && ScllOf(a) == ScllOf(b)
    ensures a == b
  {
  }

  lemma FieldsAreBytes(word: bv32)
    ensures PrescOf(word) < 256 && ScldelOf(word) < 256 && SdadelOf(word) < 256 && SclhOf(word) < 256 && ScllOf(word) < 256
  {
  }

  /** The fields, with the reserved bits, are all there is to a register value. */
  lemma DecodeIsInjective(a: bv32, b: bv32)
    requires Decode(a) == Decode(b) && ReservedOf(a) == ReservedOf(b)
    ensures a == b
  {
    FieldsAreBytes(a);
    FieldsAreBytes(b);
    hide PrescOf, ScldelOf, SdadelOf, SclhOf, ScllOf, ReservedOf;
    SameField(PrescOf(a), PrescOf(b));
    SameField(ScldelOf(a), ScldelOf(b));
    SameField(SdadelOf(a), SdadelOf(b));
    SameField(SclhOf(a), SclhOf(b));
    SameField(ScllOf(a), ScllOf(b));
    SameFieldsSameWord(a, b);
  }

  /** In standard mode the register values are 0x00305047 for 16 MHz, and 0x4080AD9A for 170 MHz. */
  lemma RegisterWords(ts: seq<Timing>, word: bv32)
    requires ReservedOf(word) == 0
    ensures Calculated(16_000_000, Standard, ts, Some(Decode(word))) ==> word == 0x0030_5047
    ensures Calculated(170_000_000, Standard, ts, Some(Decode(word))) ==> word == 0x4080_AD9A
  {
    WordsDecode();
    hide Decode, ReservedOf, Calculated;
    if Calculated(16_000_000, Standard, ts, Some(Decode(word))) {
      SixteenMegahertzTiming(Standard, ts, Some(Decode(word)));
      DecodeIsInjective(word, 0x0030_5047);
    }
    if Calculated(170_000_000, Standard, ts, Some(Decode(word))) {
      DividedTiming(Standard, ts, Some(Decode(word)));
      DecodeIsInjective(word, 0x4080_AD9A);
    }
  }
}
